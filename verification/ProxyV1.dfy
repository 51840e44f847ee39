/** Version 1 headers (asio_server/proxy_protocol.cpp:200-209, 737-788, 1096-1260): one line of
    text, printed with `sprintf` and taken apart again in a 108-byte block. */
module ProxyV1 {
  import opened MachineTypes
  import opened Wrappers
  import opened Blocks
  import opened CStrings
  import opened ProxyInfo
  import opened ProxyVectors

  const SPACE: uint8 := 0x20
  const CR: uint8 := 0x0D
  const LF: uint8 := 0x0A
  const PROXY: seq<uint8> := [0x50, 0x52, 0x4F, 0x58, 0x59]
  const UNKNOWN: seq<uint8> := [0x55, 0x4E, 0x4B, 0x4E, 0x4F, 0x57, 0x4E]
  const TCP4: seq<uint8> := [0x54, 0x43, 0x50, 0x34]
  const TCP6: seq<uint8> := [0x54, 0x43, 0x50, 0x36]
  const PP1_MAX_LENGTH := 108

  // ---------- decimal numbers ----------

  /** `%hu`. */
  function Decimal(n: nat): (s: seq<uint8>)
    ensures |s| >= 1 && forall k :: 0 <= k < |s| ==> 0x30 <= s[k] <= 0x39
  {
    if n < 10 then [0x30 + n] else Decimal(n / 10) + [0x30 + n % 10]
  }

  lemma DecimalSize(n: uint16)
    ensures |Decimal(n)| <= 5
  {
    var a := n / 10;
    var b := a / 10;
    var d := b / 10;
    var e := d / 10;
    assert |Decimal(e)| == 1;
    assert |Decimal(d)| <= 2;
    assert |Decimal(b)| <= 3;
    assert |Decimal(a)| <= 4;
  }

  function IsSpace(c: uint8): bool {
    c == 0x20 || 0x09 <= c <= 0x0D
  }

  /** The digits at the front of `s`, read after `value`. */
  function Digits(s: seq<uint8>, value: nat): nat {
    if s != [] && 0x30 <= s[0] <= 0x39 then Digits(s[1..], value * 10 + (s[0] as int - 0x30)) else value
  }

  /** `strtoul(s, NULL, 10)` on a 64-bit host, for strings of at most five characters: leading white
      space, a sign (a negative number wraps), digits, anything behind them ignored. */
  function Strtoul(s: seq<uint8>): nat {
    if s == [] then 0
    else if IsSpace(s[0]) then Strtoul(s[1..])
    else if s[0] == 0x2B then Digits(s[1..], 0)
    else if s[0] == 0x2D then (0 - Digits(s[1..], 0) as int) % 0x1_0000_0000_0000_0000
    else Digits(s, 0)
  }

  /** `parse_port`. */
  function ParsePort(s: seq<uint8>): Option<uint16> {
    var port := Strtoul(s);
    if port == 0 || port > 0xFFFF then None else Some(port)
  }

  lemma {:induction false} DigitsAppend(s: seq<uint8>, d: uint8, value: nat)
    requires forall k :: 0 <= k < |s| ==> 0x30 <= s[k] <= 0x39
    requires 0x30 <= d <= 0x39
    ensures Digits(s + [d], value) == Digits(s, value) * 10 + (d as int - 0x30)
    decreases |s|
  {
    if s == [] {
      assert ([d])[1..] == [];
      assert Digits([d][1..], value * 10 + (d as int - 0x30)) == value * 10 + (d as int - 0x30);
    } else {
      assert (s + [d])[1..] == s[1..] + [d];
      DigitsAppend(s[1..], d, value * 10 + (s[0] as int - 0x30));
    }
  }

  lemma {:induction false} DigitsReadDecimal(n: nat)
    ensures Digits(Decimal(n), 0) == n
  {
    if n < 10 {
      assert Decimal(n)[1..] == [];
      assert Digits(Decimal(n)[1..], n) == n;
    } else {
      DigitsReadDecimal(n / 10);
      DigitsAppend(Decimal(n / 10), 0x30 + n % 10, 0);
    }
  }

  /** A printed port is read back, except 0, which the reader takes for no number at all. */
  lemma PortReadBack(p: nat)
    ensures ParsePort(Decimal(p)) == if 1 <= p <= 65535 then Some(p) else None
  {
    DigitsReadDecimal(p);
  }

  // ---------- printing ----------

  ghost function Line(fam: seq<uint8>, src: seq<uint8>, dst: seq<uint8>, srcPort: uint16, dstPort: uint16): seq<uint8> {
    PROXY + [SPACE] + fam + [SPACE] + src + [SPACE] + dst + [SPACE] + Decimal(srcPort) + [SPACE] + Decimal(dstPort)
          + [CR, LF]
  }

  /** The longest line fits the block with its terminating NUL. */
  lemma LineFitsBlock(fam: seq<uint8>, src: seq<uint8>, dst: seq<uint8>, srcPort: uint16, dstPort: uint16)
    requires |fam| == 4 && |src| <= 39 && |dst| <= 39
    ensures |Line(fam, src, dst, srcPort, dstPort)| <= 104
  {
    DecimalSize(srcPort);
    DecimalSize(dstPort);
  }

  /** What `pp1_create_hdr` returns for a structure. */
  ghost function Created(info: Info): Result<seq<uint8>> {
    if info.transport > TRANSPORT_PROTOCOL_STREAM then
      Failure(ERR_PP1_TRANSPORT_FAMILY)
    else if info.family == ADDR_FAMILY_UNSPEC then
      Success(PROXY + [SPACE] + UNKNOWN + [CR, LF])
    else if info.family > ADDR_FAMILY_INET6 then
      Failure(ERR_PP1_TRANSPORT_FAMILY)
    else if |CString(info.src)| > 39 then
      Failure(ERR_PP1_IPV4_SRC_IP)
    else if |CString(info.dst)| > 39 then
      Failure(ERR_PP1_IPV4_DST_IP)
    else
      var fam := if info.family == ADDR_FAMILY_INET then TCP4 else TCP6;
      Success(Line(fam, CString(info.src), CString(info.dst), info.srcPort, info.dstPort))
  }

  /** `pp1_create_hdr`. */
  method CreateHdr(info: PpInfo) returns (r: Result<seq<uint8>>)
    requires info.Valid()
    ensures r == Created(info.Value())
    ensures r.Success? ==> |r.value| < PP1_MAX_LENGTH
  {
    if info.transport != TRANSPORT_PROTOCOL_UNSPEC && info.transport != TRANSPORT_PROTOCOL_STREAM {
      return Failure(ERR_PP1_TRANSPORT_FAMILY);
    }
    var block: seq<uint8>;
    if info.family == ADDR_FAMILY_UNSPEC {
      block := PROXY + [SPACE] + UNKNOWN + [CR, LF];
    } else if info.family == ADDR_FAMILY_INET || info.family == ADDR_FAMILY_INET6 {
      var fam := if info.family == ADDR_FAMILY_INET then TCP4 else TCP6;
      var src, dst := CString(info.src), CString(info.dst);
      if |src| > 39 {
        return Failure(ERR_PP1_IPV4_SRC_IP);
      }
      if |dst| > 39 {
        return Failure(ERR_PP1_IPV4_DST_IP);
      }
      LineFitsBlock(fam, src, dst, info.srcPort, info.dstPort);
      block := PROXY + [SPACE] + fam + [SPACE] + src + [SPACE] + dst + [SPACE] +
               Decimal(info.srcPort) + [SPACE] + Decimal(info.dstPort) + [CR, LF];
    } else {
      return Failure(ERR_PP1_TRANSPORT_FAMILY);
    }
    r := Success(block);
  }

  // ---------- parsing ----------

  /** How a call ends. `OutOfBlock`: a search runs off the 108-byte block, or a port of six or more
      characters is copied into the six bytes kept for it. */
  datatype Outcome =
    | Length(length: nat)
    | Error(code: int)
    | OutOfBlock

  datatype Parsed = Parsed(outcome: Outcome, info: Info)

  /** The zeroed block with up to 108 bytes of the buffer in it. */
  function Block(buf: seq<uint8>): (b: seq<uint8>)
    ensures |b| == PP1_MAX_LENGTH
  {
    if |buf| >= PP1_MAX_LENGTH then buf[..PP1_MAX_LENGTH] else buf + seq(PP1_MAX_LENGTH - |buf|, _ => 0)
  }

  function Looking(at: Search, absent: int): Outcome {
    if at.Beyond? then OutOfBlock else Error(absent)
  }

  /** A port between `ptr` and `end`. */
  function PortAt(block: seq<uint8>, ptr: nat, end: nat): Option<uint16>
    requires ptr <= end <= |block| && end - ptr <= 5
  {
    ParsePort(block[ptr..end])
  }

  function Pton(inet: Inet, family: uint8, text: seq<uint8>): Option<seq<uint8>> {
    if family == ADDR_FAMILY_INET then inet.pton4(text) else inet.pton6(text)
  }

  /** Lines 1172-1185: the source address at `ptr`, then the rest. */
  function ParseSrc(inet: Inet, block: seq<uint8>, ptr: nat, info: Info, hdrLen: nat): Parsed {
    var error := if info.family == ADDR_FAMILY_INET then ERR_PP1_IPV4_SRC_IP else ERR_PP1_IPV6_SRC_IP;
    var end := Strchr(block, ptr, SPACE);
    if !end.Found? then
      Parsed(Looking(end, error), info)
    else
      var info' := info.(src := block[ptr..end.index]);
      if Pton(inet, info.family, info'.src).None? then Parsed(Error(error), info')
      else ParseDst(inet, block, end.index + 1, info', hdrLen)
  }

  /** Lines 1194-1207. */
  function ParseDst(inet: Inet, block: seq<uint8>, ptr: nat, info: Info, hdrLen: nat): Parsed {
    var error := if info.family == ADDR_FAMILY_INET then ERR_PP1_IPV4_DST_IP else ERR_PP1_IPV6_DST_IP;
    var end := Strchr(block, ptr, SPACE);
    if !end.Found? then
      Parsed(Looking(end, error), info)
    else
      var info' := info.(dst := block[ptr..end.index]);
      if Pton(inet, info.family, info'.dst).None? then Parsed(Error(error), info')
      else ParseSrcPort(block, end.index + 1, info', hdrLen)
  }

  /** Lines 1216-1229. */
  function ParseSrcPort(block: seq<uint8>, ptr: nat, info: Info, hdrLen: nat): Parsed {
    var end := Strchr(block, ptr, SPACE);
    if !end.Found? then
      Parsed(Looking(end, -ERR_PP1_SRC_PORT), info)
    else if end.index - ptr > 5 then
      Parsed(OutOfBlock, info)
    else
      match PortAt(block, ptr, end.index)
      case None => Parsed(Error(-ERR_PP1_SRC_PORT), info)
      case Some(port) => ParseDstPort(block, end.index + 1, info.(srcPort := port), hdrLen)
  }

  /** Lines 1238-1259. */
  function ParseDstPort(block: seq<uint8>, ptr: nat, info: Info, hdrLen: nat): Parsed {
    var end := Strchr(block, ptr, CR);
    if !end.Found? then
      Parsed(Looking(end, -ERR_PP1_DST_PORT), info)
    else if end.index - ptr > 5 then
      Parsed(OutOfBlock, info)
    else
      match PortAt(block, ptr, end.index)
      case None => Parsed(Error(-ERR_PP1_DST_PORT), info)
      case Some(port) =>
        var info' := info.(dstPort := port);
        if end.index + 1 >= |block| then Parsed(OutOfBlock, info')
        else if block[end.index + 1] != LF then Parsed(Error(-ERR_PP1_CRLF), info')
        else Parsed(Length(hdrLen), info')
  }

  function Unknown(info: Info): Info {
    info.(family := ADDR_FAMILY_UNSPEC, transport := TRANSPORT_PROTOCOL_UNSPEC)
  }

  /** What `pp1_parse_hdr` does with a buffer and a structure. */
  function Parse(inet: Inet, buf: seq<uint8>, info: Info): Parsed {
    var block := Block(buf);
    var crlf := Strstr(block, 0, CR, LF);
    if !crlf.Found? then Parsed(Looking(crlf, -ERR_PP1_CRLF), info)
    else if block[..5] != PROXY then Parsed(Error(-ERR_PP1_PROXY), info)
    else if block[5] != SPACE then Parsed(Error(-ERR_PP1_SPACE), info)
    else ParseFamily(inet, block, crlf.index + 2, info)
  }

  /** Lines 1125-1170. The search for the space behind the family runs past the CRLF. */
  function ParseFamily(inet: Inet, block: seq<uint8>, hdrLen: nat, info: Info): Parsed
    requires |block| == PP1_MAX_LENGTH
  {
    var space := Strchr(block, 6, SPACE);
    if space.Beyond? then
      Parsed(OutOfBlock, info)
    else if space.Absent? then
      if hdrLen == 15 || block[6..13] == UNKNOWN then Parsed(Length(hdrLen), Unknown(info))
      else Parsed(Error(-ERR_PP1_TRANSPORT_FAMILY), info)
    else if block[6..10] == TCP4 || block[6..10] == TCP6 then
      var info' := info.(family := if block[6..10] == TCP4 then ADDR_FAMILY_INET else ADDR_FAMILY_INET6,
                         transport := TRANSPORT_PROTOCOL_STREAM);
      if block[10] != SPACE then Parsed(Error(-ERR_PP1_SPACE), info')
      else ParseSrc(inet, block, 11, info', hdrLen)
    else if block[6..13] == UNKNOWN then
      Parsed(Length(hdrLen), Unknown(info))
    else
      Parsed(Error(-ERR_PP1_TRANSPORT_FAMILY), info)
  }

  /** `pp1_parse_hdr`, with `ptr` moving through the block. */
  method ParseHdr(inet: Inet, buffer: array<uint8>, info: PpInfo) returns (outcome: Outcome)
    requires info.Valid()
    modifies info
    ensures info.Valid() && Parsed(outcome, info.Value()) == Parse(inet, buffer[..], old(info.Value()))
  {
    hide Strchr, Strstr, ParseFamily, Block;
    var block := Block(buffer[..]);
    var crlf := Strstr(block, 0, CR, LF);
    if !crlf.Found? {
      return Looking(crlf, -ERR_PP1_CRLF);
    }
    var hdrLen := crlf.index + 2;
    if block[..5] != PROXY {
      return Error(-ERR_PP1_PROXY);
    }
    var ptr := 5;
    if block[ptr] != SPACE {
      return Error(-ERR_PP1_SPACE);
    }
    outcome := ParseFrom(inet, block, ptr + 1, hdrLen, info);
  }

  /** Lines 1125-1260. */
  method ParseFrom(inet: Inet, block: seq<uint8>, start: nat, hdrLen: nat, info: PpInfo) returns (outcome: Outcome)
    requires info.Valid() && |block| == PP1_MAX_LENGTH && start == 6
    modifies info
    ensures info.Valid() && Parsed(outcome, info.Value()) == ParseFamily(inet, block, hdrLen, old(info.Value()))
  {
    hide Strchr, ParseSrc, ParseSrcPort;
    var ptr := start;
    var space := Strchr(block, ptr, SPACE);
    if space.Beyond? {
      return OutOfBlock;
    }
    if space.Absent? {
      if hdrLen == 15 || block[ptr..ptr + 7] == UNKNOWN {
        info.family, info.transport := ADDR_FAMILY_UNSPEC, TRANSPORT_PROTOCOL_UNSPEC;
        return Length(hdrLen);
      }
      return Error(-ERR_PP1_TRANSPORT_FAMILY);
    }
    if block[ptr..ptr + 4] == TCP4 {
      info.family, info.transport := ADDR_FAMILY_INET, TRANSPORT_PROTOCOL_STREAM;
      ptr := ptr + 4;
    } else if block[ptr..ptr + 4] == TCP6 {
      info.family, info.transport := ADDR_FAMILY_INET6, TRANSPORT_PROTOCOL_STREAM;
      ptr := ptr + 4;
    } else if block[ptr..ptr + 7] == UNKNOWN {
      info.family, info.transport := ADDR_FAMILY_UNSPEC, TRANSPORT_PROTOCOL_UNSPEC;
      return Length(hdrLen);
    } else {
      return Error(-ERR_PP1_TRANSPORT_FAMILY);
    }
    if block[ptr] != SPACE {
      return Error(-ERR_PP1_SPACE);
    }
    ptr := ptr + 1;
    outcome, ptr := ParseAddresses(inet, block, ptr, info, hdrLen);
    if outcome.Length? {
      outcome := ParsePorts(block, ptr, info, hdrLen);
    }
  }

  /** Lines 1172-1214; `Length` when both addresses were read and the ports are next. */
  method ParseAddresses(inet: Inet, block: seq<uint8>, start: nat, info: PpInfo,
          hdrLen: nat) returns (outcome: Outcome, ptr: nat)
    requires info.Valid()
    modifies info
    ensures info.Valid()
    ensures outcome.Length? ==>
              ParseSrc(inet, block, start, old(info.Value()), hdrLen) == ParseSrcPort(block, ptr, info.Value(), hdrLen)
    ensures !outcome.Length? ==>
              Parsed(outcome, info.Value()) == ParseSrc(inet, block, start, old(info.Value()), hdrLen)
  {
    hide ParseSrcPort, Strchr, Pton;
    ptr := start;
    var srcEnd := Strchr(block, ptr, SPACE);
    var srcError := if info.family == ADDR_FAMILY_INET then ERR_PP1_IPV4_SRC_IP else ERR_PP1_IPV6_SRC_IP;
    if !srcEnd.Found? {
      return Looking(srcEnd, srcError), ptr;
    }
    info.src := block[ptr..srcEnd.index];
    if Pton(inet, info.family, info.src).None? {
      return Error(srcError), ptr;
    }
    ptr := srcEnd.index + 1;
    var dstEnd := Strchr(block, ptr, SPACE);
    var dstError := if info.family == ADDR_FAMILY_INET then ERR_PP1_IPV4_DST_IP else ERR_PP1_IPV6_DST_IP;
    if !dstEnd.Found? {
      return Looking(dstEnd, dstError), ptr;
    }
    info.dst := block[ptr..dstEnd.index];
    if Pton(inet, info.family, info.dst).None? {
      return Error(dstError), ptr;
    }
    return Length(hdrLen), dstEnd.index + 1;
  }

  /** Lines 1216-1259. */
  method ParsePorts(block: seq<uint8>, start: nat, info: PpInfo, hdrLen: nat) returns (outcome: Outcome)
    requires info.Valid()
    modifies info
    ensures info.Valid() && Parsed(outcome, info.Value()) == ParseSrcPort(block, start, old(info.Value()), hdrLen)
  {
    hide Strchr, ParsePort;
    var ptr := start;
    var srcEnd := Strchr(block, ptr, SPACE);
    if !srcEnd.Found? {
      return Looking(srcEnd, -ERR_PP1_SRC_PORT);
    }
    if srcEnd.index - ptr > 5 {
      return OutOfBlock;
    }
    var srcPort := ParsePort(block[ptr..srcEnd.index]);
    if srcPort.None? {
      return Error(-ERR_PP1_SRC_PORT);
    }
    info.srcPort := srcPort.value;
    ptr := srcEnd.index + 1;
    var dstEnd := Strchr(block, ptr, CR);
    if !dstEnd.Found? {
      return Looking(dstEnd, -ERR_PP1_DST_PORT);
    }
    if dstEnd.index - ptr > 5 {
      return OutOfBlock;
    }
    var dstPort := ParsePort(block[ptr..dstEnd.index]);
    if dstPort.None? {
      return Error(-ERR_PP1_DST_PORT);
    }
    info.dstPort := dstPort.value;
    ptr := dstEnd.index;
    if ptr + 1 >= |block| {
      return OutOfBlock;
    }
    if block[ptr + 1] != LF {
      return Error(-ERR_PP1_CRLF);
    }
    outcome := Length(hdrLen);
  }

  // ---------- printed, then parsed ----------

  /** Neither a NUL nor a carriage return: the line's own CRLF is the first. */
  predicate Plain(s: seq<uint8>) {
    0 !in s && CR !in s
  }

  predicate Clean(s: seq<uint8>) {
    Plain(s) && SPACE !in s
  }

  lemma {:induction false} NoNulString(s: seq<uint8>)
    requires 0 !in s
    ensures CString(s) == s
  {
    if s != [] {
      assert s[0] in s;
      NoNulString(s[1..]);
    }
  }

  lemma DecimalIsClean(n: nat)
    ensures Clean(Decimal(n))
  {
    hide Decimal;
  }

  lemma PlainAppend(s: seq<uint8>, t: seq<uint8>)
    requires Plain(s) && Plain(t)
    ensures Plain(s + t)
  {
  }

  /** A clean text in front of `c` is what the search for `c` delimits. */
  lemma FieldRead(block: seq<uint8>, ptr: nat, text: seq<uint8>, c: uint8, rest: seq<uint8>)
    requires Starts(block, ptr, text + [c] + rest) && Clean(text) && (c == SPACE || c == CR)
    ensures Strchr(block, ptr, c) == Found(ptr + |text|)
    ensures block[ptr..ptr + |text|] == text
    ensures Starts(block, ptr + |text| + 1, rest)
  {
    StartsSplit(block, ptr, text + [c], rest);
    StartsSplit(block, ptr, text, [c]);
    var at := ptr + |text|;
    assert block[at] == block[at..at + 1][0];
    forall k | ptr <= k < at
      ensures block[k] != c && block[k] != 0
    {
      assert block[k] == text[k - ptr];
    }
    StrchrFinds(block, ptr, c, at);
  }

  /** What the reader makes of a line that was printed for `info`: the same addresses and ports,
      unless the system refuses an address or a port is 0. */
  function Expected(inet: Inet, info: Info, hdrLen: nat): Parsed {
    var inet4 := info.family == ADDR_FAMILY_INET;
    var i0 := CLEARED.(family := info.family, transport := TRANSPORT_PROTOCOL_STREAM);
    var i1 := i0.(src := info.src);
    var i2 := i1.(dst := info.dst);
    var i3 := i2.(srcPort := info.srcPort);
    var srcError := if inet4 then ERR_PP1_IPV4_SRC_IP else ERR_PP1_IPV6_SRC_IP;
    var dstError := if inet4 then ERR_PP1_IPV4_DST_IP else ERR_PP1_IPV6_DST_IP;
    if Pton(inet, info.family, info.src).None? then Parsed(Error(srcError), i1)
    else if Pton(inet, info.family, info.dst).None? then Parsed(Error(dstError), i2)
    else if info.srcPort == 0 then Parsed(Error(-ERR_PP1_SRC_PORT), i2)
    else if info.dstPort == 0 then Parsed(Error(-ERR_PP1_DST_PORT), i3)
    else Parsed(Length(hdrLen), i3.(dstPort := info.dstPort))
  }

  lemma DstPortRead(block: seq<uint8>, ptr: nat, port: uint16, info: Info, hdrLen: nat)
    requires Starts(block, ptr, Decimal(port) + [CR] + [LF])
    ensures ParseDstPort(block, ptr, info, hdrLen) ==
            if port == 0 then Parsed(Error(-ERR_PP1_DST_PORT), info) else Parsed(Length(hdrLen), info.(dstPort := port))
  {
    hide Decimal, ParsePort, Strchr;
    DecimalIsClean(port);
    DecimalSize(port);
    PortReadBack(port);
    FieldRead(block, ptr, Decimal(port), CR, [LF]);
    var at := ptr + |Decimal(port)| + 1;
    assert block[at] == block[at..at + 1][0];
  }

  lemma SrcPortRead(block: seq<uint8>, ptr: nat, srcPort: uint16, dstPort: uint16, info: Info, hdrLen: nat)
    requires Starts(block, ptr, Decimal(srcPort) + [SPACE] + (Decimal(dstPort) + [CR] + [LF]))
    ensures ParseSrcPort(block, ptr, info, hdrLen) ==
            if srcPort == 0 then Parsed(Error(-ERR_PP1_SRC_PORT), info)
            else if dstPort == 0 then Parsed(Error(-ERR_PP1_DST_PORT), info.(srcPort := srcPort))
            else Parsed(Length(hdrLen), info.(srcPort := srcPort, dstPort := dstPort))
  {
    hide Decimal, ParsePort, Strchr, ParseDstPort, Starts, Clean;
    DecimalIsClean(srcPort);
    DecimalSize(srcPort);
    PortReadBack(srcPort);
    var rest := Decimal(dstPort) + [CR] + [LF];
    FieldRead(block, ptr, Decimal(srcPort), SPACE, rest);
    DstPortRead(block, ptr + |Decimal(srcPort)| + 1, dstPort, info.(srcPort := srcPort), hdrLen);
  }

  lemma SrcRead(inet: Inet, block: seq<uint8>, ptr: nat, text: seq<uint8>, rest: seq<uint8>, info: Info, hdrLen: nat)
    requires Clean(text) && Starts(block, ptr, text + [SPACE] + rest)
    ensures Starts(block, ptr + |text| + 1, rest)
    ensures var error := if info.family == ADDR_FAMILY_INET then ERR_PP1_IPV4_SRC_IP else ERR_PP1_IPV6_SRC_IP;
            ParseSrc(inet, block, ptr, info, hdrLen) ==
            if Pton(inet, info.family, text).None? then Parsed(Error(error), info.(src := text))
            else ParseDst(inet, block, ptr + |text| + 1, info.(src := text), hdrLen)
  {
    hide Strchr, ParseDst, Starts, Pton, Clean;
    FieldRead(block, ptr, text, SPACE, rest);
  }

  lemma DstRead(inet: Inet, block: seq<uint8>, ptr: nat, text: seq<uint8>, rest: seq<uint8>, info: Info, hdrLen: nat)
    requires Clean(text) && Starts(block, ptr, text + [SPACE] + rest)
    ensures Starts(block, ptr + |text| + 1, rest)
    ensures var error := if info.family == ADDR_FAMILY_INET then ERR_PP1_IPV4_DST_IP else ERR_PP1_IPV6_DST_IP;
            ParseDst(inet, block, ptr, info, hdrLen) ==
            if Pton(inet, info.family, text).None? then Parsed(Error(error), info.(dst := text))
            else ParseSrcPort(block, ptr + |text| + 1, info.(dst := text), hdrLen)
  {
    hide Strchr, ParseSrcPort, Starts, Pton, Clean;
    FieldRead(block, ptr, text, SPACE, rest);
  }

  lemma AddressesRead(inet: Inet, block: seq<uint8>, ptr: nat, info: Info, hdrLen: nat)
    requires info.family == ADDR_FAMILY_INET || info.family == ADDR_FAMILY_INET6
    requires Clean(info.src) && Clean(info.dst)
    requires Starts(block, ptr, info.src + [SPACE] + (info.dst + [SPACE] +
                                (Decimal(info.srcPort) + [SPACE] + (Decimal(info.dstPort) + [CR] + [LF]))))
    ensures ParseSrc(inet, block, ptr, CLEARED.(family := info.family, transport := TRANSPORT_PROTOCOL_STREAM),
          hdrLen) ==
            Expected(inet, info, hdrLen)
  {
    hide Decimal, ParseSrc, ParseDst, ParseSrcPort, Starts, Pton, Clean;
    var i0 := CLEARED.(family := info.family, transport := TRANSPORT_PROTOCOL_STREAM);
    var ports := Decimal(info.srcPort) + [SPACE] + (Decimal(info.dstPort) + [CR] + [LF]);
    SrcRead(inet, block, ptr, info.src, info.dst + [SPACE] + ports, i0, hdrLen);
    DstRead(inet, block, ptr + |info.src| + 1, info.dst, ports, i0.(src := info.src), hdrLen);
    SrcPortRead(block, ptr + |info.src| + 1 + |info.dst| + 1, info.srcPort, info.dstPort,
                i0.(src := info.src, dst := info.dst), hdrLen);
  }

  /** The line, nested the way the parser takes it apart. */
  lemma LineNested(fam: seq<uint8>, src: seq<uint8>, dst: seq<uint8>, srcPort: uint16, dstPort: uint16)
    ensures Line(fam, src, dst, srcPort, dstPort) ==
            (PROXY + [SPACE]) + ((fam + [SPACE]) + (src + [SPACE] + (dst + [SPACE] +
              (Decimal(srcPort) + [SPACE] + (Decimal(dstPort) + [CR] + [LF])))))
  {
    hide Decimal;
    Nest(PROXY + [SPACE], fam + [SPACE], src + [SPACE], dst + [SPACE], Decimal(srcPort) + [SPACE], Decimal(dstPort)
          + [CR] + [LF]);
    Flat(PROXY, fam, src, dst, Decimal(srcPort), Decimal(dstPort));
  }

  lemma Flat(a: seq<uint8>, b: seq<uint8>, c: seq<uint8>, d: seq<uint8>, e: seq<uint8>, f: seq<uint8>)
    ensures a + [SPACE] + b + [SPACE] + c + [SPACE] + d + [SPACE] + e + [SPACE] + f + [CR, LF] ==
            (a + [SPACE]) + (b + [SPACE]) + (c + [SPACE]) + (d + [SPACE]) + (e + [SPACE]) + (f + [CR] + [LF])
  {
    assert [CR, LF] == [CR] + [LF];
  }

  lemma Nest(a: seq<uint8>, b: seq<uint8>, c: seq<uint8>, d: seq<uint8>, e: seq<uint8>, f: seq<uint8>)
    ensures a + b + c + d + e + f == a + (b + (c + (d + (e + f))))
  {
  }

  /** The first CRLF of the block is the line's own. */
  lemma CrlfFound(block: seq<uint8>, fam: seq<uint8>, src: seq<uint8>, dst: seq<uint8>, srcPort: uint16,
          dstPort: uint16)
    requires Plain(fam) && Clean(src) && Clean(dst) && Starts(block, 0, Line(fam, src, dst, srcPort, dstPort))
    ensures Strstr(block, 0, CR, LF) == Found(|Line(fam, src, dst, srcPort, dstPort)| - 2)
  {
    hide Decimal, Strstr;
    var line := Line(fam, src, dst, srcPort, dstPort);
    var front := PROXY + [SPACE] + fam + [SPACE] + src + [SPACE] + dst + [SPACE] + Decimal(srcPort) + [SPACE]
          + Decimal(dstPort);
    assert line == front + [CR, LF];
    DecimalIsClean(srcPort);
    DecimalIsClean(dstPort);
    PlainAppend(PROXY, [SPACE]);
    PlainAppend(PROXY + [SPACE], fam);
    PlainAppend(PROXY + [SPACE] + fam, [SPACE]);
    PlainAppend(PROXY + [SPACE] + fam + [SPACE], src);
    PlainAppend(PROXY + [SPACE] + fam + [SPACE] + src, [SPACE]);
    PlainAppend(PROXY + [SPACE] + fam + [SPACE] + src + [SPACE], dst);
    PlainAppend(PROXY + [SPACE] + fam + [SPACE] + src + [SPACE] + dst, [SPACE]);
    PlainAppend(PROXY + [SPACE] + fam + [SPACE] + src + [SPACE] + dst + [SPACE], Decimal(srcPort));
    PlainAppend(PROXY + [SPACE] + fam + [SPACE] + src + [SPACE] + dst + [SPACE] + Decimal(srcPort), [SPACE]);
    PlainAppend(PROXY + [SPACE] + fam + [SPACE] + src + [SPACE] + dst + [SPACE] + Decimal(srcPort) + [SPACE],
          Decimal(dstPort));
    EndFound(block, front);
  }

  lemma EndFound(block: seq<uint8>, front: seq<uint8>)
    requires Plain(front) && Starts(block, 0, front + [CR, LF])
    ensures Strstr(block, 0, CR, LF) == Found(|front|)
  {
    var line := front + [CR, LF];
    assert block[0..|line|] == line;
    forall k | 0 <= k < |line|
      ensures block[k] == line[k]
    {
    }
    forall k | 0 <= k < |front|
      ensures block[k] != CR && block[k] != 0
    {
      assert line[k] in front;
    }
    StrstrFinds(block, 0, CR, LF, |front|);
  }

  lemma BlockStarts(line: seq<uint8>, payload: seq<uint8>)
    requires |line| <= PP1_MAX_LENGTH
    ensures Starts(Block(line + payload), 0, line)
  {
  }

  /** For TCP over IPv4 or IPv6 the line is at most 104 bytes, and parsing it followed by any payload
      returns its length and what was printed, exactly when both addresses are ones the system
      accepts and neither port is 0. */
  lemma TcpRoundTrip(inet: Inet, info: Info, payload: seq<uint8>)
    requires info.transport <= TRANSPORT_PROTOCOL_STREAM
    requires info.family == ADDR_FAMILY_INET || info.family == ADDR_FAMILY_INET6
    requires Clean(info.src) && Clean(info.dst) && |info.src| <= 39 && |info.dst| <= 39
    ensures var r := Created(info);
            && r.Success? && |r.value| <= 104
            && Parse(inet, r.value + payload, CLEARED) == Expected(inet, info, |r.value|)
  {
    hide Strstr, Expected, Line, Block, Starts, Created, ParseFamily, Clean, Plain;
    var fam := if info.family == ADDR_FAMILY_INET then TCP4 else TCP6;
    var line := Line(fam, info.src, info.dst, info.srcPort, info.dstPort);
    CreatedLine(info, fam);
    LineFitsBlock(fam, info.src, info.dst, info.srcPort, info.dstPort);
    BlockStarts(line, payload);
    FamilyIsClean(fam);
    var block := Block(line + payload);
    CrlfFound(block, fam, info.src, info.dst, info.srcPort, info.dstPort);
    LineHead(block, fam, info.src, info.dst, info.srcPort, info.dstPort);
    FamilyRead(inet, block, info, fam, |line|);
  }

  lemma CreatedLine(info: Info, fam: seq<uint8>)
    requires info.transport <= TRANSPORT_PROTOCOL_STREAM
    requires info.family == ADDR_FAMILY_INET || info.family == ADDR_FAMILY_INET6
    requires fam == if info.family == ADDR_FAMILY_INET then TCP4 else TCP6
    requires Clean(info.src) && Clean(info.dst) && |info.src| <= 39 && |info.dst| <= 39
    ensures Created(info) == Success(Line(fam, info.src, info.dst, info.srcPort, info.dstPort))
  {
    hide Line;
    NoNulString(info.src);
    NoNulString(info.dst);
  }

  lemma FamilyIsClean(fam: seq<uint8>)
    requires fam == TCP4 || fam == TCP6
    ensures |fam| == 4 && Clean(fam) && Plain(fam)
  {
  }

  lemma LineHead(block: seq<uint8>, fam: seq<uint8>, src: seq<uint8>, dst: seq<uint8>, srcPort: uint16, dstPort: uint16)
    requires |fam| == 4 && Starts(block, 0, Line(fam, src, dst, srcPort, dstPort))
    ensures Starts(block, 0, PROXY + [SPACE]) && Starts(block, 6, fam + [SPACE])
    ensures |block| >= 11 && block[..5] == PROXY && block[5] == SPACE
    ensures Starts(block, 11, src + [SPACE] + (dst + [SPACE]
          + (Decimal(srcPort) + [SPACE] + (Decimal(dstPort) + [CR] + [LF]))))
  {
    hide Decimal, Line, Starts;
    var rest := src + [SPACE] + (dst + [SPACE] + (Decimal(srcPort) + [SPACE] + (Decimal(dstPort) + [CR] + [LF])));
    LineNested(fam, src, dst, srcPort, dstPort);
    StartsSplit(block, 0, PROXY + [SPACE], (fam + [SPACE]) + rest);
    StartsSplit(block, 6, fam + [SPACE], rest);
    HeadRead(block, fam);
  }

  lemma FamilyRead(inet: Inet, block: seq<uint8>, info: Info, fam: seq<uint8>, hdrLen: nat)
    requires |block| == PP1_MAX_LENGTH
    requires info.family == ADDR_FAMILY_INET || info.family == ADDR_FAMILY_INET6
    requires fam == if info.family == ADDR_FAMILY_INET then TCP4 else TCP6
    requires Clean(info.src) && Clean(info.dst)
    requires Starts(block, 0, PROXY + [SPACE]) && Starts(block, 6, fam + [SPACE])
    requires Starts(block, 11, info.src + [SPACE] + (info.dst + [SPACE] +
                               (Decimal(info.srcPort) + [SPACE] + (Decimal(info.dstPort) + [CR] + [LF]))))
    ensures ParseFamily(inet, block, hdrLen, CLEARED) == Expected(inet, info, hdrLen)
  {
    hide Decimal, Strchr, ParseSrc, Expected, Starts, Clean, Plain;
    FamilyIsClean(fam);
    HeadRead(block, fam);
    SpaceFound(block, fam);
    AddressesRead(inet, block, 11, info, hdrLen);
  }

  lemma HeadRead(block: seq<uint8>, fam: seq<uint8>)
    requires |fam| == 4 && Starts(block, 0, PROXY + [SPACE]) && Starts(block, 6, fam + [SPACE])
    ensures |block| >= 11 && block[..5] == PROXY && block[5] == SPACE && block[6..10] == fam && block[10] == SPACE
  {
    StartsSplit(block, 0, PROXY, [SPACE]);
    StartsSplit(block, 6, fam, [SPACE]);
    assert block[5] == block[5..6][0] && block[10] == block[10..11][0];
  }

  lemma SpaceFound(block: seq<uint8>, fam: seq<uint8>)
    requires |fam| == 4 && Clean(fam) && Starts(block, 6, fam + [SPACE])
    ensures Strchr(block, 6, SPACE) == Found(10)
  {
    assert fam + [SPACE] == fam + [SPACE] + [];
    FieldRead(block, 6, fam, SPACE, []);
  }

  /** "PROXY UNKNOWN" is recognised unless the search for a space runs off the block: that happens
      exactly when at least 93 bytes of payload follow and the first 93 hold no space and no NUL. */
  lemma UnknownRoundTrip(inet: Inet, info: Info, payload: seq<uint8>)
    requires info.transport <= TRANSPORT_PROTOCOL_STREAM && info.family == ADDR_FAMILY_UNSPEC
    ensures var line := PROXY + [SPACE] + UNKNOWN + [CR, LF];
            && Created(info) == Success(line) && |line| == 15
            && Parse(inet, line + payload, CLEARED) ==
               if |payload| >= 93 && SPACE !in payload[..93] && 0 !in payload[..93] then Parsed(OutOfBlock, CLEARED)
               else Parsed(Length(15), CLEARED)
  {
    hide Strstr, Strchr, Block;
    var front := PROXY + [SPACE] + UNKNOWN;
    var line := front + [CR, LF];
    var block := Block(line + payload);
    BlockStarts(line, payload);
    EndFound(block, front);
    UnknownLine(block);
    BehindLine(line, payload);
    if |payload| >= 93 {
      SearchOverPayload(block, payload[..93]);
    } else {
      StrchrStops(block, 6, SPACE, 15 + |payload|);
    }
  }

  lemma UnknownLine(block: seq<uint8>)
    requires |block| == PP1_MAX_LENGTH && Starts(block, 0, PROXY + [SPACE] + UNKNOWN + [CR, LF])
    ensures block[..5] == PROXY && block[5] == SPACE && block[6..13] == UNKNOWN
    ensures block[6..10] != TCP4 && block[6..10] != TCP6
    ensures forall k :: 6 <= k < 15 ==> block[k] != SPACE && block[k] != 0
  {
    var line := PROXY + [SPACE] + UNKNOWN + [CR, LF];
    assert block[0..15] == line;
    assert forall k :: 0 <= k < 15 ==> block[k] == block[0..15][k] == line[k];
    assert block[6..10][0] == 0x55 && TCP4[0] == TCP6[0] == 0x54;
    assert block[6..13] == UNKNOWN && block[..5] == PROXY;
    assert forall k :: 6 <= k < 13 ==> block[k] == UNKNOWN[k - 6];
    assert block[13] == CR && block[14] == LF;
  }

  /** What stands in the block behind a line of 15 bytes. */
  lemma BehindLine(line: seq<uint8>, payload: seq<uint8>)
    requires |line| == 15
    ensures |payload| >= 93 ==> Block(line + payload)[15..] == payload[..93]
    ensures |payload| < 93 ==> Block(line + payload)[15 + |payload|] == 0
  {
  }

  lemma SearchOverPayload(block: seq<uint8>, payload: seq<uint8>)
    requires |block| == 108 && block[15..] == payload
          && (forall k :: 6 <= k < 15 ==> block[k] != SPACE && block[k] != 0)
    ensures Strchr(block, 6, SPACE).Beyond? <==> SPACE !in payload && 0 !in payload
  {
    forall k | 15 <= k < 108
      ensures block[k] == payload[k - 15]
    {
    }
    if exists k :: 15 <= k < 108 && (block[k] == SPACE || block[k] == 0) {
      var k :| 15 <= k < 108 && (block[k] == SPACE || block[k] == 0);
      assert payload[k - 15] in payload;
      StrchrStops(block, 6, SPACE, k);
    } else {
      StrchrBeyond(block, 6, SPACE);
      forall c | c in payload
        ensures c != SPACE && c != 0
      {
        var j :| 0 <= j < |payload| && payload[j] == c;
        assert block[15 + j] == c;
      }
    }
  }

  lemma {:induction false} StrchrStops(block: seq<uint8>, i: nat, c: uint8, at: nat)
    requires c != 0 && i <= at < |block| && (block[at] == c || block[at] == 0)
    ensures !Strchr(block, i, c).Beyond?
    decreases at - i
  {
    if i < at {
      StrchrStops(block, i + 1, c, at);
    }
  }

  lemma {:induction false} StrchrBeyond(block: seq<uint8>, i: nat, c: uint8)
    requires c != 0 && forall k :: i <= k < |block| ==> block[k] != c && block[k] != 0
    ensures Strchr(block, i, c).Beyond?
    decreases |block| - i
  {
    if i < |block| {
      StrchrBeyond(block, i + 1, c);
    }
  }
}
