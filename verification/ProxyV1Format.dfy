/** What the version 1 parser makes of the lines of any sender (asio_server/proxy_protocol.cpp:1096-1260), in
    literal characters. The format is that of section 2.1 of the HAProxy PROXY protocol specification. */
module ProxyV1Format {
  import opened MachineTypes
  import opened Wrappers
  import opened CStrings
  import opened ProxyInfo
  import opened ProxyV1

  /** The first CRLF of the block is at `e`, with no NUL in front. */
  predicate EndsAt(block: seq<uint8>, e: nat) {
    FirstPairAt(block, 0, 0x0D, 0x0A, e)
  }

  /** "PROXY ". */
  predicate HasHead(block: seq<uint8>)
    requires |block| == 108
  {
    block[..6] == [0x50, 0x52, 0x4F, 0x58, 0x59, 0x20]
  }

  /** "UNKNOWN" behind the head. */
  predicate SaysUnknown(block: seq<uint8>)
    requires |block| == 108
  {
    block[6..13] == [0x55, 0x4E, 0x4B, 0x4E, 0x4F, 0x57, 0x4E]
  }

  /** "TCP4 " or "TCP6 " behind the head, and the family it stands for. */
  function TcpFamily(block: seq<uint8>): Option<uint8>
    requires |block| == 108
  {
    if block[6..11] == [0x54, 0x43, 0x50, 0x34, 0x20] then Some(1)
    else if block[6..11] == [0x54, 0x43, 0x50, 0x36, 0x20] then Some(2)
    else None
  }

  /** Where the fields of a TCP line end: the source address, the destination address, the ports. */
  datatype Ends = Ends(src: nat, dst: nat, srcPort: nat, dstPort: nat)

  /** The four fields of a TCP line: addresses the system accepts and ports of at most five characters that
      are read as numbers, with a space behind each of the first three and CRLF behind the last. */
  predicate HasFields(inet: Inet, block: seq<uint8>, family: uint8, e: Ends) {
    && FirstAt(block, 11, 0x20, e.src) && Pton(inet, family, block[11..e.src]).Some?
    && FirstAt(block, e.src + 1, 0x20, e.dst) && Pton(inet, family, block[e.src + 1..e.dst]).Some?
    && FirstAt(block, e.dst + 1, 0x20, e.srcPort) && IsPort(block, e.dst + 1, e.srcPort)
    && FirstAt(block, e.srcPort + 1, 0x0D, e.dstPort) && IsPort(block, e.srcPort + 1, e.dstPort)
    && e.dstPort + 1 < |block| && block[e.dstPort + 1] == 0x0A
  }

  predicate IsPort(block: seq<uint8>, from: nat, to: nat)
    requires from <= to <= |block|
  {
    to - from <= 5 && ParsePort(block[from..to]).Some?
  }

  function WithFields(inet: Inet, block: seq<uint8>, info: Info, e: Ends): Info
    requires HasFields(inet, block, info.family, e)
  {
    info.(src := block[11..e.src], dst := block[e.src + 1..e.dst],
       srcPort := ParsePort(block[e.dst + 1..e.srcPort]).value,
       dstPort := ParsePort(block[e.srcPort + 1..e.dstPort]).value)
  }

  // ---------- the fields ----------

  lemma PortsRead(block: seq<uint8>, ptr: nat, info: Info, hdrLen: nat, p3: nat, p4: nat)
    requires FirstAt(block, ptr, 0x20, p3) && IsPort(block, ptr, p3)
    requires FirstAt(block, p3 + 1, 0x0D, p4) && IsPort(block, p3 + 1, p4) && p4 + 1 < |block| && block[p4 + 1] == 0x0A
    ensures ParseSrcPort(block, ptr, info, hdrLen) ==
            Parsed(Length(hdrLen), info.(srcPort := ParsePort(block[ptr..p3]).value,
                                         dstPort := ParsePort(block[p3 + 1..p4]).value))
  {
    hide Strchr, ParsePort, FirstAt;
    StrchrIsFirst(block, ptr, 0x20, p3);
    StrchrIsFirst(block, p3 + 1, 0x0D, p4);
  }

  lemma PortsAreThere(block: seq<uint8>, ptr: nat, info: Info, hdrLen: nat) returns (p3: nat, p4: nat)
    requires ParseSrcPort(block, ptr, info, hdrLen).outcome.Length?
    ensures FirstAt(block, ptr, 0x20, p3) && IsPort(block, ptr, p3)
    ensures FirstAt(block, p3 + 1, 0x0D, p4) && IsPort(block, p3 + 1, p4) && p4 + 1 < |block| && block[p4 + 1] == 0x0A
  {
    hide Strchr, ParsePort, FirstAt;
    p3 := Strchr(block, ptr, 0x20).index;
    p4 := Strchr(block, p3 + 1, 0x0D).index;
    StrchrIsFirst(block, ptr, 0x20, p3);
    StrchrIsFirst(block, p3 + 1, 0x0D, p4);
  }

  lemma FieldsRead(inet: Inet, block: seq<uint8>, info: Info, hdrLen: nat, e: Ends)
    requires HasFields(inet, block, info.family, e)
    ensures ParseSrc(inet, block, 11, info, hdrLen) == Parsed(Length(hdrLen), WithFields(inet, block, info, e))
  {
    hide Strchr, ParsePort, FirstAt, ParseSrcPort, IsPort, Pton;
    StrchrIsFirst(block, 11, 0x20, e.src);
    StrchrIsFirst(block, e.src + 1, 0x20, e.dst);
    PortsRead(block, e.dst + 1, info.(src := block[11..e.src], dst := block[e.src + 1..e.dst]), hdrLen, e.srcPort,
              e.dstPort);
  }

  lemma FieldsAreThere(inet: Inet, block: seq<uint8>, info: Info, hdrLen: nat) returns (e: Ends)
    requires ParseSrc(inet, block, 11, info, hdrLen).outcome.Length?
    ensures HasFields(inet, block, info.family, e)
  {
    hide Strchr, ParsePort, FirstAt, ParseSrcPort, IsPort, Pton;
    var p1 := Strchr(block, 11, 0x20).index;
    var p2 := Strchr(block, p1 + 1, 0x20).index;
    StrchrIsFirst(block, 11, 0x20, p1);
    StrchrIsFirst(block, p1 + 1, 0x20, p2);
    var info' := info.(src := block[11..p1], dst := block[p1 + 1..p2]);
    var p3, p4 := PortsAreThere(block, p2 + 1, info', hdrLen);
    e := Ends(p1, p2, p3, p4);
  }

  // ---------- the line ----------

  /** A line that starts like a header: it ends in CRLF, and a space or a NUL behind "PROXY " keeps the search
      of line 1126 inside the block. */
  ghost predicate IsLine(block: seq<uint8>, e: nat)
    requires |block| == 108
  {
    EndsAt(block, e) && HasHead(block) && (Spaced(block) || StoppedByNul(block, 6, 0x20))
  }

  ghost predicate Spaced(block: seq<uint8>) {
    exists p :: FirstAt(block, 6, 0x20, p)
  }

  /** No family is given: "UNKNOWN", or nine characters and no space up to the first NUL. */
  ghost predicate GivesNoFamily(block: seq<uint8>, e: nat)
    requires |block| == 108
  {
    SaysUnknown(block) || (!Spaced(block) && e == 13)
  }

  lemma SearchesAre(block: seq<uint8>, e: nat)
    requires |block| == 108
    ensures EndsAt(block, e) <==> Strstr(block, 0, CR, LF) == Found(e)
    ensures Spaced(block) <==> Strchr(block, 6, SPACE).Found?
    ensures StoppedByNul(block, 6, 0x20) <==> Strchr(block, 6, SPACE) == Absent
  {
    hide Strchr, Strstr, FirstAt, FirstPairAt, StoppedByNul;
    StrstrIsFirst(block, 0, CR, LF, e);
    StrchrIsFirst(block, 6, SPACE, 0);
    if Strchr(block, 6, SPACE).Found? {
      StrchrIsFirst(block, 6, SPACE, Strchr(block, 6, SPACE).index);
    }
    if p :| FirstAt(block, 6, 0x20, p) {
      StrchrIsFirst(block, 6, SPACE, p);
    }
  }

  /** The head and the end, and the family the parser goes by. */
  lemma HeadRead(inet: Inet, buf: seq<uint8>, info: Info, e: nat)
    requires EndsAt(Block(buf), e)
    ensures var block, r := Block(buf), Parse(inet, buf, info);
            if HasHead(block) then r == ParseFamily(inet, block, e + 2, info) else r.outcome.Error?
  {
    hide Strstr, Strchr, Block, ParseFamily, FirstPairAt;
    var block := Block(buf);
    SearchesAre(block, e);
    assert block[..6] == block[..5] + [block[5]];
  }

  lemma NotEnded(inet: Inet, buf: seq<uint8>, info: Info)
    requires Parse(inet, buf, info).outcome.Length?
    ensures exists e :: EndsAt(Block(buf), e)
  {
    hide Strstr, Strchr, Block, ParseFamily, FirstPairAt;
    var block := Block(buf);
    SearchesAre(block, Strstr(block, 0, CR, LF).index);
  }

  lemma FamilyTexts(block: seq<uint8>)
    requires |block| == 108
    ensures SaysUnknown(block) <==> block[6..13] == UNKNOWN
    ensures TcpFamily(block) == Some(1) <==> block[6..10] == TCP4 && block[10] == SPACE
    ensures TcpFamily(block) == Some(2) <==> block[6..10] == TCP6 && block[10] == SPACE
    ensures TcpFamily(block).Some? ==> TcpFamily(block).value in {1, 2} && Spaced(block)
    ensures SaysUnknown(block) ==> block[6..10] != TCP4 && block[6..10] != TCP6
  {
    assert block[6..11] == block[6..10] + [block[10]];
    assert block[6..10][0] == block[6..13][0];
    assert TCP4 + [SPACE] == [0x54, 0x43, 0x50, 0x34, 0x20] && TCP6 + [SPACE] == [0x54, 0x43, 0x50, 0x36, 0x20];
    OneMore(block[6..10], block[10], TCP4);
    OneMore(block[6..10], block[10], TCP6);
    if TcpFamily(block).Some? {
      FourThenSpace(block, block[6..11]);
    }
  }

  lemma OneMore(text: seq<uint8>, c: uint8, other: seq<uint8>)
    requires |text| == |other|
    ensures text + [c] == other + [SPACE] <==> text == other && c == SPACE
  {
    if text + [c] == other + [SPACE] {
      assert text == (text + [c])[..|text|] && c == (text + [c])[|text|];
      assert other == (other + [SPACE])[..|text|];
    }
  }

  lemma FourThenSpace(block: seq<uint8>, five: seq<uint8>)
    requires |block| == 108 && five == block[6..11]
    requires five in {[0x54, 0x43, 0x50, 0x34, 0x20], [0x54, 0x43, 0x50, 0x36, 0x20]}
    ensures Spaced(block)
  {
    forall k | 6 <= k < 11
      ensures block[k] == five[k - 6]
    {
    }
    assert FirstAt(block, 6, 0x20, 10);
  }

  /** A line that gives no family is accepted, whatever else it says, up to its first CRLF. */
  lemma NoFamilyRead(inet: Inet, buf: seq<uint8>, info: Info, e: nat)
    requires IsLine(Block(buf), e) && GivesNoFamily(Block(buf), e)
    ensures Parse(inet, buf, info) == Parsed(Length(e + 2), info.(family := 0, transport := 0))
  {
    hide Strstr, Strchr, Block, FirstPairAt, Spaced, StoppedByNul, SaysUnknown, Parse;
    HeadRead(inet, buf, info, e);
    SearchesAre(Block(buf), e);
    FamilyTexts(Block(buf));
  }

  /** In particular after "PROXY UNKNOWN ". */
  lemma UnknownLongForm(inet: Inet, buf: seq<uint8>, info: Info, e: nat)
    requires Block(buf)[..14] == [0x50, 0x52, 0x4F, 0x58, 0x59, 0x20, 0x55, 0x4E, 0x4B, 0x4E, 0x4F, 0x57, 0x4E, 0x20]
    requires EndsAt(Block(buf), e)
    ensures Parse(inet, buf, info) == Parsed(Length(e + 2), info.(family := 0, transport := 0))
  {
    hide Block, FirstPairAt, Parse;
    var block := Block(buf);
    assert forall k :: 0 <= k < 14 ==> block[k] == block[..14][k];
    assert FirstAt(block, 6, 0x20, 13);
    NoFamilyRead(inet, buf, info, e);
  }

  /** A TCP line with its four fields is accepted and handed out from their places. */
  lemma TcpLineRead(inet: Inet, buf: seq<uint8>, info: Info, e: nat, ends: Ends)
    requires IsLine(Block(buf), e) && TcpFamily(Block(buf)).Some?
    requires HasFields(inet, Block(buf), TcpFamily(Block(buf)).value, ends)
    ensures var info' := info.(family := TcpFamily(Block(buf)).value, transport := 1);
            Parse(inet, buf, info) == Parsed(Length(e + 2), WithFields(inet, Block(buf), info', ends))
  {
    hide Strstr, Strchr, Block, FirstPairAt, Spaced, StoppedByNul, SaysUnknown, Parse, ParseSrc, HasFields, WithFields,
         TcpFamily;
    var block := Block(buf);
    HeadRead(inet, buf, info, e);
    SearchesAre(block, e);
    FamilyTexts(block);
    FieldsRead(inet, block, info.(family := TcpFamily(block).value, transport := 1), e + 2, ends);
  }

  /** Nothing else is accepted. */
  lemma AcceptedExactly(inet: Inet, buf: seq<uint8>, info: Info)
    ensures var block := Block(buf);
            Parse(inet, buf, info).outcome.Length? <==>
            exists e :: IsLine(block, e) &&
                        (|| GivesNoFamily(block, e)
                         || (&& TcpFamily(block).Some?
                             && exists ends :: HasFields(inet, block, TcpFamily(block).value, ends)))
  {
    hide Block, Parse, IsLine, GivesNoFamily, TcpFamily, HasFields;
    var block := Block(buf);
    if Parse(inet, buf, info).outcome.Length? {
      var e, ends := AcceptedIsLine(inet, buf, info);
    }
    if e :| IsLine(block, e) && GivesNoFamily(block, e) {
      NoFamilyRead(inet, buf, info, e);
    }
    if e, ends :| IsLine(block, e) && TcpFamily(block).Some? && HasFields(inet, block, TcpFamily(block).value, ends) {
      TcpLineRead(inet, buf, info, e, ends);
    }
  }

  lemma AcceptedIsLine(inet: Inet, buf: seq<uint8>, info: Info) returns (e: nat, ends: Ends)
    requires Parse(inet, buf, info).outcome.Length?
    ensures var block := Block(buf);
            && IsLine(block, e)
            && (GivesNoFamily(block, e) ||
                (TcpFamily(block).Some? && HasFields(inet, block, TcpFamily(block).value, ends)))
  {
    hide Strstr, Strchr, Block, FirstPairAt, Spaced, StoppedByNul, SaysUnknown, Parse, ParseSrc, HasFields, TcpFamily;
    var block := Block(buf);
    NotEnded(inet, buf, info);
    e :| EndsAt(block, e);
    HeadRead(inet, buf, info, e);
    SearchesAre(block, e);
    FamilyTexts(block);
    ends := Ends(0, 0, 0, 0);
    if !GivesNoFamily(block, e) {
      var family: uint8 := if block[6..10] == TCP4 then 1 else 2;
      ends := FieldsAreThere(inet, block, info.(family := family, transport := 1), e + 2);
    }
  }

  // ---------- which texts are ports ----------

  predicate AllDigits(s: seq<uint8>) {
    forall k :: 0 <= k < |s| ==> 0x30 <= s[k] <= 0x39
  }

  predicate AllBlanks(s: seq<uint8>) {
    forall k :: 0 <= k < |s| ==> s[k] == 0x20 || 0x09 <= s[k] <= 0x0D
  }

  /** The decimal number that digits spell. */
  function Number(digits: seq<uint8>): nat
    requires AllDigits(digits)
  {
    if digits == [] then 0 else 10 * Number(digits[..|digits| - 1]) + (digits[|digits| - 1] as int - 0x30)
  }

  /** A port may have blanks and a plus sign in front and anything but a digit behind; it must be a number
      from 1 to 65535, so no text with a minus sign is one. */
  lemma PortsExactly(blanks: seq<uint8>, sign: seq<uint8>, digits: seq<uint8>, rest: seq<uint8>)
    requires AllBlanks(blanks) && sign in {[], [0x2B], [0x2D]} && AllDigits(digits) && 0 < |digits| <= 5
    requires rest == [] || !(0x30 <= rest[0] <= 0x39)
    ensures ParsePort(blanks + sign + digits + rest) ==
            if sign != [0x2D] && 1 <= Number(digits) <= 65535 then Some(Number(digits)) else None
  {
    hide Digits, Strtoul, Number;
    SkipsBlanks(blanks, sign + digits + rest);
    assert blanks + sign + digits + rest == blanks + (sign + digits + rest);
    SignedRead(sign, digits, rest);
    NumberIsSmall(digits);
    NegativeIsLarge(Number(digits));
  }

  lemma SignedRead(sign: seq<uint8>, digits: seq<uint8>, rest: seq<uint8>)
    requires sign in {[], [0x2B], [0x2D]} && AllDigits(digits) && 0 < |digits|
    requires rest == [] || !(0x30 <= rest[0] <= 0x39)
    ensures Strtoul(sign + digits + rest) ==
            if sign == [0x2D] then (0 - Number(digits) as int) % 0x1_0000_0000_0000_0000 else Number(digits)
  {
    hide Digits, Number;
    var text := sign + digits + rest;
    DigitsAreNumber(digits, rest);
    if sign == [] {
      assert text == digits + rest && text[0] == digits[0];
    } else {
      assert text[0] == sign[0] && text[1..] == digits + rest;
    }
  }

  lemma NegativeIsLarge(n: nat)
    requires n <= 99999
    ensures (0 - n as int) % 0x1_0000_0000_0000_0000 == if n == 0 then 0 else 0x1_0000_0000_0000_0000 - n
  {
  }

  lemma {:induction false} SkipsBlanks(blanks: seq<uint8>, text: seq<uint8>)
    requires AllBlanks(blanks)
    ensures Strtoul(blanks + text) == Strtoul(text)
  {
    hide Digits;
    if blanks == [] {
      assert blanks + text == text;
    } else {
      assert (blanks + text)[1..] == blanks[1..] + text;
      SkipsBlanks(blanks[1..], text);
    }
  }

  lemma DigitsAreNumber(digits: seq<uint8>, rest: seq<uint8>)
    requires AllDigits(digits) && (rest == [] || !(0x30 <= rest[0] <= 0x39))
    ensures Digits(digits + rest, 0) == Number(digits)
  {
    DigitsStop(digits, rest, 0);
    DigitsAlone(digits);
  }

  lemma {:induction false} DigitsStop(digits: seq<uint8>, rest: seq<uint8>, value: nat)
    requires AllDigits(digits) && (rest == [] || !(0x30 <= rest[0] <= 0x39))
    ensures Digits(digits + rest, value) == Digits(digits, value)
    decreases |digits|
  {
    if digits == [] {
      assert digits + rest == rest;
    } else {
      assert (digits + rest)[1..] == digits[1..] + rest;
      DigitsStop(digits[1..], rest, value * 10 + (digits[0] as int - 0x30));
    }
  }

  lemma {:induction false} DigitsAlone(digits: seq<uint8>)
    requires AllDigits(digits)
    ensures Digits(digits, 0) == Number(digits)
  {
    if digits != [] {
      var n := |digits| - 1;
      DigitsAlone(digits[..n]);
      DigitsAppend(digits[..n], digits[n], 0);
      assert digits == digits[..n] + [digits[n]];
    }
  }

  lemma NumberIsSmall(digits: seq<uint8>)
    requires AllDigits(digits) && |digits| <= 5
    ensures Number(digits) <= 99999
  {
    NumberBound(digits, 5);
  }

  lemma {:induction false} NumberBound(digits: seq<uint8>, n: nat)
    requires AllDigits(digits) && |digits| <= n <= 5
    ensures Number(digits) <= if n == 0 then 0 else if n == 1 then 9 else if n == 2 then 99 else if n == 3 then 999
                              else if n == 4 then 9999 else 99999
  {
    if digits != [] {
      NumberBound(digits[..|digits| - 1], n - 1);
    }
  }

  // ---------- which lines are created ----------

  /** A line is refused for one of these reasons only, the first that applies; texts end at their first
      NUL. */
  lemma CreatedExactly(info: Info)
    ensures Created(info).Failure? <==>
            || info.transport > 1 || info.family > 2
            || (info.family != 0 && (|CString(info.src)| > 39 || |CString(info.dst)| > 39))
    ensures Created(info).Failure? ==>
              Created(info).error ==
              if info.transport > 1 || info.family > 2 then ERR_PP1_TRANSPORT_FAMILY
              else if |CString(info.src)| > 39 then ERR_PP1_IPV4_SRC_IP
              else ERR_PP1_IPV4_DST_IP
  {
    hide Line;
  }
}
