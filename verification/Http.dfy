/** The HTTP request parser over a connection's buffer (test_epoll/lib/http_server.c:13-84,
    test_epoll/lib/http_request.c). `Run` says what the loop does with any input; printing a request
    and running the parser over it gives the request back. */
module Http {
  import opened MachineTypes
  import opened Wrappers
  import opened CStrings
  import opened Buffer

  const SPACE: seq<uint8> := [0x20]
  const COLON: seq<uint8> := [0x3A, 0x20]

  /** 128 times the size of a request, allocated for entries of 16 bytes: 384 of them on a 64-bit host. */
  const HEADER_CAPACITY := 384

  datatype State = RequestStatus | RequestHeaders | RequestBody | RequestDone

  datatype Header = Header(key: seq<uint8>, value: seq<uint8>)

  /** A string of the request line as lines 17-36 store it: the allocated block, and the index at
      which the terminating NUL was written. */
  datatype Stored = Stored(block: seq<uint8>, terminatorAt: nat) {
    /** The NUL lies outside the block. */
    predicate WritesOutside() {
      terminatorAt >= |block|
    }

    /** What a reader of the string sees, as long as nobody reuses the byte behind the block. */
    function Text(): seq<uint8>
      requires terminatorAt == |block|
    {
      CString(block)
    }
  }

  /** What the three allocated blocks hold in their last byte. */
  datatype Heap = Heap(verb: uint8, url: uint8, version: uint8)

  /** `strncpy` with the length of the text: behind a NUL the rest is filled with NULs. */
  function Strncpy(text: seq<uint8>): (s: seq<uint8>)
    ensures |s| == |text|
  {
    var t := CString(text);
    t + seq(|text| - |t|, _ => 0)
  }

  /** One byte more than the text has is allocated and left as it was, and the NUL goes behind it. */
  function Store(text: seq<uint8>, heap: uint8): (s: Stored)
    ensures |s.block| == s.terminatorAt == |text| + 1
  {
    Stored(Strncpy(text) + [heap], |text| + 1)
  }

  /** The value of a `struct http_request`; `None` is a null pointer. */
  datatype Request = Request(
    state: State,
    verb: Option<Stored>,
    url: Option<Stored>,
    version: Option<Stored>,
    headers: seq<Header>
  )

  const NEW_REQUEST := Request(RequestStatus, None, None, None, [])

  /** How the loop ends. `Spins`: it does not, nothing changes any more. `Aborts`: an assertion of
      the source fails. `Overflows`: a header is stored behind the end of the array. */
  datatype Outcome = Done | Spins | Aborts | Overflows

  // ---------- one line ----------

  /** `process_status_line` on the bytes in front of the CRLF: method, url and version. */
  function StatusLine(line: seq<uint8>, heap: Heap): Option<(Stored, Stored, Stored)> {
    var first := Memmem(line, SPACE, 0);
    if first.None? then
      None
    else
      var rest := line[first.value + 1..];
      var second := Memmem(rest, SPACE, 0);
      if second.None? then None
      else Some((Store(line[..first.value], heap.verb), Store(rest[..second.value], heap.url),
                 Store(rest[second.value + 1..], heap.version)))
  }

  /** Every request line that is accepted writes three bytes outside the blocks allocated for it. */
  lemma StatusLineWritesOutside(line: seq<uint8>, heap: Heap)
    ensures match StatusLine(line, heap)
            case None => true
            case Some((verb, url, version)) => verb.WritesOutside() && url.WritesOutside() && version.WritesOutside()
  {
    hide Memmem, Strncpy;
  }

  /** A stored text is read back as it was exactly when it holds no NUL and the heap byte is 0; the
      heap byte is read behind a text without a NUL. */
  lemma StoredText(text: seq<uint8>, heap: uint8)
    ensures Store(text, heap).Text() == text <==> 0 !in text && heap == 0
    ensures 0 !in text && heap != 0 ==> Store(text, heap).Text() == text + [heap]
  {
    var block := Store(text, heap).block;
    if 0 in text {
      assert 0 !in CString(block);
    } else {
      NoNul(text);
      assert block == text + [heap];
      if heap != 0 {
        NoNul(block);
      } else {
        NulEnds(text);
      }
    }
  }

  lemma {:induction false} NulEnds(text: seq<uint8>)
    requires 0 !in text
    ensures CString(text + [0]) == text
  {
    if text != [] {
      assert text[0] in text && (text + [0])[1..] == text[1..] + [0];
      NulEnds(text[1..]);
    }
  }

  /** A "key: value" line. */
  function HeaderLine(line: seq<uint8>): Option<Header> {
    var colon := Memmem(line, COLON, 0);
    if colon.None? then None
    else Some(Header(CString(line[..colon.value]), CString(line[colon.value + 2..])))
  }

  // ---------- the loop ----------

  /** One turn of the loop. */
  datatype Turn = Go(input: seq<uint8>, request: Request) | Abort | Overflow

  function TurnOf(input: seq<uint8>, request: Request, heap: Heap): Turn
    requires request.state != RequestDone
  {
    var crlf := Memmem(input, CRLF, 0);
    if crlf.None? || request.state == RequestBody then
      Go(input, request)
    else
      var line, rest := input[..crlf.value], input[crlf.value + 2..];
      if request.state == RequestStatus then
        match StatusLine(line, heap)
        case None => Abort
        case Some((verb, url, version)) =>
          Go(rest, request.(state := RequestHeaders, verb := Some(verb), url := Some(url), version := Some(version)))
      else
        match HeaderLine(line)
        case None => Go(input[2..], request.(state := RequestDone))
        case Some(header) =>
          if |request.headers| >= HEADER_CAPACITY then Overflow
          else Go(rest, request.(headers := request.headers + [header]))
  }

  /** A turn that changes anything consumes two bytes at least. */
  lemma TurnProgress(input: seq<uint8>, request: Request, heap: Heap)
    requires request.state != RequestDone
    ensures var t := TurnOf(input, request, heap);
            t.Go? ==> t == Go(input, request) || |t.input| + 2 <= |input|
  {
  }

  function Run(input: seq<uint8>, request: Request, heap: Heap): (Outcome, Request, seq<uint8>)
    decreases |input|
  {
    if request.state == RequestDone then
      (Done, request, input)
    else
      TurnProgress(input, request, heap);
      match TurnOf(input, request, heap)
      case Abort => (Aborts, request, input)
      case Overflow => (Overflows, request, input)
      case Go(input', request') =>
        if input' == input && request' == request then (Spins, request, input) else Run(input', request', heap)
  }

  /** Where `Run` says that the loop spins, another turn leaves everything as it is, for ever; and it
      does so exactly when the unread bytes hold no CRLF. */
  lemma {:induction false} SpinsWithoutCrlf(input: seq<uint8>, request: Request, heap: Heap)
    requires request.state != RequestBody
    ensures var (outcome, request', rest) := Run(input, request, heap);
            outcome == Spins <==>
            request'.state != RequestDone && TurnOf(rest, request', heap) == Go(rest, request')
    ensures var (outcome, request', rest) := Run(input, request, heap);
            outcome == Spins <==> request'.state != RequestDone && Memmem(rest, CRLF, 0).None?
    decreases |input|
  {
    if request.state != RequestDone {
      TurnProgress(input, request, heap);
      var t := TurnOf(input, request, heap);
      if t.Go? && t != Go(input, request) {
        SpinsWithoutCrlf(t.input, t.request, heap);
      }
    }
  }

  /** A header line without ": " is taken for the blank line. The parser then stands right behind
      the line exactly when it was in fact blank. */
  lemma EndsBehindBlankLineOnly(input: seq<uint8>, request: Request, heap: Heap, at: nat)
    requires request.state == RequestHeaders && Memmem(input, CRLF, 0) == Some(at)
    requires HeaderLine(input[..at]).None?
    ensures Run(input, request, heap) == (Done, request.(state := RequestDone), input[2..])
    ensures input[2..] == input[at + 2..] <==> at == 0
  {
    if at > 0 {
      assert |input[2..]| != |input[at + 2..]|;
    }
  }

  // ---------- the functions themselves ----------

  class HttpRequest {
    var state: State
    var verb: Option<Stored>
    var url: Option<Stored>
    var version: Option<Stored>
    const headers: array<Header>
    var headersNumber: nat

    ghost predicate Valid()
      reads this
    {
      headers.Length == HEADER_CAPACITY && headersNumber <= HEADER_CAPACITY
    }

    ghost function Value(): Request
      requires Valid()
      reads this, headers
    {
      Request(state, verb, url, version, headers[..headersNumber])
    }

    /** `http_request_new`. */
    constructor ()
      ensures Valid() && Value() == NEW_REQUEST && fresh(headers)
    {
      state, verb, url, version := RequestStatus, None, None, None;
      headers := new Header[HEADER_CAPACITY](_ => Header([], []));
      headersNumber := 0;
    }

    /** `http_request_reset`: ready for the next request of the connection. */
    method Reset()
      requires Valid()
      modifies this
      ensures Valid() && Value() == NEW_REQUEST
    {
      state, verb, url, version := RequestStatus, None, None, None;
      headersNumber := 0;
    }

    /** `http_request_add_header`; the caller must know that there is room. */
    method AddHeader(header: Header)
      requires Valid() && headersNumber < HEADER_CAPACITY
      modifies this, headers
      ensures Valid() && Value() == old(Value()).(headers := old(Value()).headers + [header])
    {
      headers[headersNumber] := header;
      headersNumber := headersNumber + 1;
    }
  }

  /** `process_status_line` with `start` moving through the block; `None` where an assertion fails. */
  method ProcessStatusLine(data: array<uint8>, from: nat, end: nat, heap: Heap)
      returns (parts: Option<(Stored, Stored, Stored)>)
    requires from <= end <= data.Length
    ensures parts == StatusLine(data[from..end], heap)
  {
    hide Memmem, Store;
    var start := from;
    var space := Memmem(data[start..end], SPACE, 0);
    if space.None? {
      return None;
    }
    assert data[from..end][..space.value] == data[start..start + space.value];
    assert data[from..end][space.value + 1..] == data[start + space.value + 1..end];
    var verb := Store(data[start..start + space.value], heap.verb);
    start := start + space.value + 1;
    space := Memmem(data[start..end], SPACE, 0);
    if space.None? {
      return None;
    }
    assert data[start..end][..space.value] == data[start..start + space.value];
    assert data[start..end][space.value + 1..] == data[start + space.value + 1..end];
    var url := Store(data[start..start + space.value], heap.url);
    start := start + space.value + 1;
    var version := Store(data[start..end], heap.version);
    parts := Some((verb, url, version));
  }

  /** Lines 60-69: the header of a line, `None` without a colon. */
  method ProcessHeaderLine(data: array<uint8>, start: nat, end: nat) returns (header: Option<Header>)
    requires start <= end <= data.Length
    ensures header == HeaderLine(data[start..end])
  {
    hide Memmem, CString;
    var colon := Memmem(data[start..end], COLON, 0);
    if colon.None? {
      return None;
    }
    assert data[start..end][..colon.value] == data[start..start + colon.value];
    assert data[start..end][colon.value + 2..] == data[start + colon.value + 2..end];
    header := Some(Header(CString(data[start..start + colon.value]), CString(data[start + colon.value + 2..end])));
  }

  /** Lines 44-81: one turn of the loop; `None` when the loop goes on. */
  method ParseLine(input: ByteBuffer, request: HttpRequest, heap: Heap) returns (stop: Option<Outcome>)
    requires input.Valid() && request.Valid() && request.state != RequestDone
    modifies input`readIndex, request, request.headers
    ensures input.Valid() && request.Valid() && input.data[..] == old(input.data[..])
    ensures var before, value := old(input.Readable()), old(request.Value());
            match TurnOf(before, value, heap)
            case Abort => stop == Some(Aborts) && input.Readable() == before && request.Value() == value
            case Overflow => stop == Some(Overflows) && input.Readable() == before && request.Value() == value
            case Go(after, value') =>
              && input.Readable() == after && request.Value() == value'
              && stop == if after == before && value' == value then Some(Spins) else None
  {
    hide Memmem, HeaderLine, StatusLine, OccursAt, CString;
    TurnProgress(input.Readable(), request.Value(), heap);
    var crlf := input.FindCrlf();
    if crlf.None? || request.state == RequestBody {
      return Some(Spins);
    }
    stop := None;
    var start, end := input.readIndex, input.readIndex + crlf.value;
    assert input.data[start..end] == input.Readable()[..crlf.value];
    if request.state == RequestStatus {
      var parts := ProcessStatusLine(input.data, start, end, heap);
      if parts.None? {
        return Some(Aborts);
      }
      request.verb, request.url, request.version := Some(parts.value.0), Some(parts.value.1), Some(parts.value.2);
      request.state := RequestHeaders;
      input.Consume(crlf.value + 2);
    } else {
      var header := ProcessHeaderLine(input.data, start, end);
      if header.Some? {
        if request.headersNumber >= HEADER_CAPACITY {
          return Some(Overflows);
        }
        request.AddHeader(header.value);
        input.Consume(crlf.value + 2);
      } else {
        input.Consume(2);
        request.state := RequestDone;
      }
    }
  }

  /** `parse_http_request`. */
  method ParseHttpRequest(input: ByteBuffer, request: HttpRequest, heap: Heap) returns (outcome: Outcome)
    requires input.Valid() && request.Valid()
    modifies input`readIndex, request, request.headers
    ensures input.Valid() && request.Valid()
    ensures (outcome, request.Value(), input.Readable()) == Run(old(input.Readable()), old(request.Value()), heap)
  {
    hide TurnOf;
    while request.state != RequestDone
      invariant input.Valid() && request.Valid()
      invariant Run(input.Readable(), request.Value(), heap) == Run(old(input.Readable()), old(request.Value()), heap)
      decreases |input.Readable()|
    {
      TurnProgress(input.Readable(), request.Value(), heap);
      var stop := ParseLine(input, request, heap);
      if stop.Some? {
        return stop.value;
      }
    }
    outcome := Done;
  }

  // ---------- printed, then parsed ----------

  function PrintHeaders(headers: seq<Header>): seq<uint8> {
    if headers == [] then CRLF
    else headers[0].key + COLON + headers[0].value + CRLF + PrintHeaders(headers[1..])
  }

  /** A complete request: request line, "key: value" lines, blank line. */
  function Print(verb: seq<uint8>, url: seq<uint8>, version: seq<uint8>, headers: seq<Header>): seq<uint8> {
    verb + SPACE + url + SPACE + version + CRLF + PrintHeaders(headers)
  }

  predicate Lacks(s: seq<uint8>, pattern: seq<uint8>) {
    forall k | 0 <= k < |s| :: !OccursAt(s, pattern, k)
  }

  ghost predicate PrintableHeader(h: Header) {
    0 !in h.key && 0 !in h.value && Lacks(h.key, COLON) && Lacks(h.key + COLON + h.value, CRLF)
  }

  lemma {:induction false} NoNul(s: seq<uint8>)
    requires 0 !in s
    ensures CString(s) == s
  {
    if s != [] {
      assert s[0] in s;
      NoNul(s[1..]);
    }
  }

  /** The first occurrence of a two-byte pattern of different bytes behind a text without it. */
  lemma FirstPair(text: seq<uint8>, pattern: seq<uint8>, rest: seq<uint8>)
    requires |pattern| == 2 && pattern[0] != pattern[1] && Lacks(text, pattern)
    ensures Memmem(text + pattern + rest, pattern, 0) == Some(|text|)
  {
    var s, at := text + pattern + rest, |text|;
    assert s[at..at + 2] == pattern;
    assert OccursAt(s, pattern, at);
    forall k: nat | 0 <= k < at
      ensures !OccursAt(s, pattern, k)
    {
      assert !OccursAt(text, pattern, k);
      if k + 2 <= at {
        assert s[k..k + 2] == text[k..k + 2];
      } else {
        assert s[k + 1] == pattern[0];
        assert s[k..k + 2][1] == s[k + 1];
      }
    }
    MemmemFinds(s, pattern, 0, at);
  }

  lemma FirstSpace(text: seq<uint8>, rest: seq<uint8>)
    requires 0x20 !in text
    ensures Memmem(text + SPACE + rest, SPACE, 0) == Some(|text|)
  {
    var s, at := text + SPACE + rest, |text|;
    assert s[at..at + 1] == SPACE;
    assert OccursAt(s, SPACE, at);
    forall k: nat | 0 <= k < at
      ensures !OccursAt(s, SPACE, k)
    {
      assert s[k] in text;
      assert s[k..k + 1][0] == s[k];
    }
    MemmemFinds(s, SPACE, 0, at);
  }

  lemma StatusLineRead(verb: seq<uint8>, url: seq<uint8>, version: seq<uint8>, heap: Heap)
    requires 0x20 !in verb && 0x20 !in url
    ensures StatusLine(verb + SPACE + url + SPACE + version, heap) ==
            Some((Store(verb, heap.verb), Store(url, heap.url), Store(version, heap.version)))
  {
    hide Memmem, Store;
    var line := verb + SPACE + url + SPACE + version;
    var rest := url + SPACE + version;
    assert line == verb + SPACE + rest;
    FirstSpace(verb, rest);
    assert line[|verb| + 1..] == rest && line[..|verb|] == verb;
    FirstSpace(url, version);
    assert rest[..|url|] == url && rest[|url| + 1..] == version;
  }

  /** A request line is refused exactly when it holds fewer than two spaces. */
  lemma StatusLineReadExactly(line: seq<uint8>, heap: Heap)
    ensures StatusLine(line, heap).Some? <==> exists i, j :: 0 <= i < j < |line| && line[i] == 0x20 == line[j]
  {
    hide Memmem, Store;
    SpaceSearched(line);
    var first := Memmem(line, SPACE, 0);
    if first.Some? {
      var rest := line[first.value + 1..];
      SpaceSearched(rest);
      if exists i, j :: 0 <= i < j < |line| && line[i] == 0x20 == line[j] {
        var i, j :| 0 <= i < j < |line| && line[i] == 0x20 == line[j];
        assert rest[j - first.value - 1] == 0x20;
      }
    }
  }

  /** The search for a space finds the first one. */
  lemma SpaceSearched(s: seq<uint8>)
    ensures match Memmem(s, SPACE, 0)
            case None => 0x20 !in s
            case Some(i) => i < |s| && s[i] == 0x20 && 0x20 !in s[..i]
  {
    hide Memmem;
    MemmemIsFirst(s, SPACE, 0);
    forall k | 0 <= k < |s|
      ensures OccursAt(s, SPACE, k) <==> s[k] == 0x20
    {
      assert s[k..k + 1] == [s[k]];
    }
  }

  lemma HeaderLineRead(h: Header)
    requires PrintableHeader(h)
    ensures HeaderLine(h.key + COLON + h.value) == Some(h)
  {
    hide Memmem, CString;
    var line := h.key + COLON + h.value;
    FirstPair(h.key, COLON, h.value);
    assert line[..|h.key|] == h.key && line[|h.key| + 2..] == h.value;
    NoNul(h.key);
    NoNul(h.value);
  }

  /** A turn that goes on with fewer bytes is followed by the rest of the run. */
  lemma RunGoesOn(input: seq<uint8>, request: Request, heap: Heap, input': seq<uint8>, request': Request)
    requires request.state != RequestDone && TurnOf(input, request, heap) == Go(input', request') && input' != input
    ensures Run(input, request, heap) == Run(input', request', heap)
  {
    hide TurnOf;
  }

  lemma PrintedCons(headers: seq<Header>, rest: seq<uint8>)
    requires headers != []
    ensures PrintHeaders(headers) + rest ==
            headers[0].key + COLON + headers[0].value + CRLF + (PrintHeaders(headers[1..]) + rest)
    ensures PrintHeaders(headers) + rest != PrintHeaders(headers[1..]) + rest
  {
    assert |PrintHeaders(headers)| > |PrintHeaders(headers[1..])|;
  }

  lemma {:induction false} HeadersRead(headers: seq<Header>, rest: seq<uint8>, request: Request, heap: Heap)
    requires request.state == RequestHeaders && |request.headers| + |headers| <= HEADER_CAPACITY
    requires forall h :: h in headers ==> PrintableHeader(h)
    ensures Run(PrintHeaders(headers) + rest, request, heap) ==
            (Done, request.(state := RequestDone, headers := request.headers + headers), rest)
    decreases |headers|
  {
    hide TurnOf, PrintableHeader, Run, PrintHeaders;
    if headers == [] {
      LastTurn(rest, request, heap);
      LastRun(rest, request, heap);
      assert request.headers + [] == request.headers;
    } else {
      var h, more := headers[0], PrintHeaders(headers[1..]) + rest;
      assert h in headers;
      HeaderTurn(h, more, request, heap);
      PrintedCons(headers, rest);
      var request' := request.(headers := request.headers + [h]);
      RunGoesOn(PrintHeaders(headers) + rest, request, heap, more, request');
      HeadersRead(headers[1..], rest, request', heap);
      assert request'.headers + headers[1..] == request.headers + headers;
    }
  }

  lemma LastRun(rest: seq<uint8>, request: Request, heap: Heap)
    requires request.state == RequestHeaders
    requires TurnOf(CRLF + rest, request, heap) == Go(rest, request.(state := RequestDone))
    ensures PrintHeaders([]) == CRLF && Run(CRLF + rest, request, heap) == (Done, request.(state := RequestDone), rest)
  {
    hide TurnOf;
  }

  lemma LastTurn(rest: seq<uint8>, request: Request, heap: Heap)
    requires request.state == RequestHeaders
    ensures TurnOf(CRLF + rest, request, heap) == Go(rest, request.(state := RequestDone))
  {
    hide Memmem, HeaderLine;
    var input := CRLF + rest;
    assert input == [] + CRLF + rest;
    FirstPair([], CRLF, rest);
    assert input[..0] == [] && input[2..] == rest;
    EmptyHeaderLine();
  }

  lemma HeaderTurn(h: Header, more: seq<uint8>, request: Request, heap: Heap)
    requires request.state == RequestHeaders && |request.headers| < HEADER_CAPACITY && PrintableHeader(h)
    ensures TurnOf(h.key + COLON + h.value + CRLF + more, request, heap) ==
            Go(more, request.(headers := request.headers + [h]))
  {
    hide Memmem, HeaderLine, PrintableHeader;
    var line := h.key + COLON + h.value;
    var input := line + CRLF + more;
    LineLacksCrlf(h);
    FirstPair(line, CRLF, more);
    assert input[..|line|] == line && input[|line| + 2..] == more;
    HeaderLineRead(h);
  }

  lemma LineLacksCrlf(h: Header)
    requires PrintableHeader(h)
    ensures Lacks(h.key + COLON + h.value, CRLF)
  {
  }

  lemma EmptyHeaderLine()
    ensures HeaderLine([]) == None
  {
  }

  /** Parsing a printed request followed by anything ends with the same headers and the unread bytes
      exactly what followed it. Method, url and version are read back as they were sent exactly when
      the three heap bytes that are left in front of their terminators are 0. */
  lemma RoundTrip(verb: seq<uint8>, url: seq<uint8>, version: seq<uint8>, headers: seq<Header>, rest: seq<uint8>,
        heap: Heap)
    requires 0 !in verb && 0 !in url && 0 !in version && 0x20 !in verb && 0x20 !in url
    requires Lacks(verb + SPACE + url + SPACE + version, CRLF)
    requires |headers| <= HEADER_CAPACITY && forall h :: h in headers ==> PrintableHeader(h)
    ensures var v, u, w := Store(verb, heap.verb), Store(url, heap.url), Store(version, heap.version);
            && Run(Print(verb, url, version, headers) + rest, NEW_REQUEST, heap) ==
               (Done, Request(RequestDone, Some(v), Some(u), Some(w), headers), rest)
            && (v.Text() == verb && u.Text() == url && w.Text() == version <==> heap == Heap(0, 0, 0))
  {
    hide Memmem, StatusLine, PrintableHeader, CString, PrintHeaders, Store, Stored.Text;
    var line := verb + SPACE + url + SPACE + version;
    var more := PrintHeaders(headers) + rest;
    var input := Print(verb, url, version, headers) + rest;
    assert input == line + CRLF + more;
    FirstPair(line, CRLF, more);
    assert input[..|line|] == line && input[|line| + 2..] == more;
    StatusLineRead(verb, url, version, heap);
    StoredText(verb, heap.verb);
    StoredText(url, heap.url);
    StoredText(version, heap.version);
    var v, u, w := Store(verb, heap.verb), Store(url, heap.url), Store(version, heap.version);
    HeadersRead(headers, rest, Request(RequestHeaders, Some(v), Some(u), Some(w), []), heap);
    assert [] + headers == headers;
  }
}
