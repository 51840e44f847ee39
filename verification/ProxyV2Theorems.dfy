/** The round trip of version 2 headers: what is created is parsed back, with every exception named
    (asio_server/proxy_protocol.cpp:577-725 against 808-1094). */
module ProxyV2Theorems {
  import opened MachineTypes
  import opened Wrappers
  import opened Blocks
  import opened CStrings
  import opened ProxyInfo
  import opened ProxyVectors
  import opened ProxyV2Create
  import opened ProxyV2Parse
  import opened ProxyV2RoundTrip
  import Crc = Crc32c

  // ---------- the loop over the caller's vectors ----------

  ghost predicate Short(vs: seq<Vector>) {
    forall v :: v in vs ==> Addable(v) && |Added(v).value| <= 0xFFFC
  }

  predicate IsEmptyAws(v: Vector) {
    v.AwsVpce? && v.vpceId == []
  }

  predicate NoEmptyAws(vs: seq<Vector>) {
    forall v :: v in vs ==> !IsEmptyAws(v)
  }

  predicate AllComplete(vs: seq<Vector>) {
    forall v :: v in vs ==> IsComplete(v)
  }

  ghost function After(info: Info, vs: seq<Vector>): Info
    requires Short(vs)
  {
    info.(tlvs := info.tlvs + ReceivedAll(vs), ssl := FlagsAfterAll(vs, info.ssl))
  }

  ghost function Bytes(vs: seq<Vector>): seq<uint8>
    requires Short(vs)
  {
    TlvsBytes(AddedAll(vs))
  }

  lemma StepOf(buf: seq<uint8>, pos: nat, rem: uint16, info: Info, v: Vector)
    requires Addable(v) && |Added(v).value| <= 0xFFFC && !IsEmptyAws(v) && IsComplete(v)
    requires rem > 3 && pos + rem <= |buf| && 3 + |Added(v).value| <= rem && Starts(buf, pos, TlvBytes(Added(v)))
    requires IsAscii(v) ==> pos + 3 + |Added(v).value| < |buf|
    ensures TlvStep(buf, pos, rem, info) ==
            Next(buf, info.(tlvs := info.tlvs + Received(v), ssl := FlagsAfter(v, info.ssl)), 3 + |Added(v).value|)
  {
    hide TlvStep, TlvBytes, Added, Received;
    if v.Ssl? {
      SslStepOf(buf, pos, rem, info, v);
    } else {
      FlatStep(buf, pos, rem, info, v);
    }
  }

  lemma BytesCons(vs: seq<Vector>)
    requires Short(vs) && vs != []
    ensures Bytes(vs) == TlvBytes(Added(vs[0])) + Bytes(vs[1..])
    ensures |Bytes(vs)| == 3 + |Added(vs[0]).value| + |Bytes(vs[1..])|
    ensures |vs| > 1 ==> |Bytes(vs[1..])| >= 3
  {
    hide Added;
    assert AddedAll(vs)[1..] == AddedAll(vs[1..]);
  }

  lemma AfterNone(info: Info)
    ensures After(info, []) == info && Bytes([]) == []
  {
    assert info.tlvs + [] == info.tlvs;
  }

  lemma AfterCons(info: Info, vs: seq<Vector>)
    requires Short(vs) && vs != []
    ensures After(info.(tlvs := info.tlvs + Received(vs[0]), ssl := FlagsAfter(vs[0], info.ssl)),
          vs[1..]) == After(info, vs)
  {
    hide Added, Received, FlagsAfter, ReceivedAll;
    ReceivedCons(vs);
    assert info.tlvs + Received(vs[0]) + ReceivedAll(vs[1..]) == info.tlvs + ReceivedAll(vs);
  }

  /** All complete vectors are handed out in order, unless an AWS vector with an empty identifier
      stops the loop. A last vector without a value is seen only when something follows it, and an
      ASCII one is copied safely only when a byte of the buffer follows it. */
  lemma {:induction false} WalkVectors(buf: seq<uint8>, pos: nat, rem: uint16, info: Info, vs: seq<Vector>)
    requires Short(vs) && AllComplete(vs) && pos + rem <= |buf| && |Bytes(vs)| <= rem && Starts(buf, pos, Bytes(vs))
    requires vs != [] && |Bytes(vs)| == rem ==> Added(vs[|vs| - 1]).value != []
    requires NoEmptyAws(vs) && vs != [] && IsAscii(vs[|vs| - 1]) ==> pos + |Bytes(vs)| < |buf|
    ensures NoEmptyAws(vs) ==>
              Walk(buf, pos, rem, info) == Walk(buf, pos + |Bytes(vs)|, rem - |Bytes(vs)|, After(info, vs))
    ensures !NoEmptyAws(vs) ==> Walk(buf, pos, rem, info).outcome == Error(-ERR_PP2_TYPE_AWS)
    decreases |vs|
  {
    hide TlvStep, TlvBytes, Added, Received, ReceivedAll, IsAscii, IsComplete, Bytes, After, FlagsAfter, Starts, Walk;
    WalkUnfolds(buf, pos, rem, info);
    if vs == [] {
      AfterNone(info);
    } else {
      var v, rest := vs[0], vs[1..];
      BytesCons(vs);
      StartsSplit(buf, pos, TlvBytes(Added(v)), Bytes(rest));
      TlvSize(Added(v));
      assert vs == [v] + rest;
      if IsEmptyAws(v) {
        EmptyAwsStep(buf, pos, rem, info, v);
      } else {
        if rest != [] {
          BytesCons(rest);
        }
        StepOf(buf, pos, rem, info, v);
        var info' := info.(tlvs := info.tlvs + Received(v), ssl := FlagsAfter(v, info.ssl));
        WalkVectors(buf, pos + 3 + |Added(v).value|, rem - 3 - |Added(v).value|, info', rest);
        AfterCons(info, vs);
      }
    }
  }

  /** One vector of any kind: the call ends there with a failure, or the loop goes on behind it with at
      least what was sent in the array, and with more if it is an incomplete SSL vector. */
  lemma StepAtLeast(buf: seq<uint8>, pos: nat, rem: uint16, info: Info, v: Vector)
    requires Addable(v) && |Added(v).value| <= 0xFFFC
    requires rem > 3 && pos + rem <= |buf| && 3 + |Added(v).value| <= rem && Starts(buf, pos, TlvBytes(Added(v)))
    ensures match TlvStep(buf, pos, rem, info)
            case Stop(outcome, _, _) => !outcome.Length?
            case Next(buf', info', offset) =>
              && buf' == buf && offset == 3 + |Added(v).value|
              && |info'.tlvs| >= |info.tlvs| + |Received(v)| + if IsComplete(v) then 0 else 1
  {
    hide TlvStep, TlvBytes, Added, Received;
    if IsEmptyAws(v) {
      EmptyAwsStep(buf, pos, rem, info, v);
    } else if !v.Ssl? {
      FlatStep(buf, pos, rem, info, v);
    } else if IsComplete(v) {
      SslStepOf(buf, pos, rem, info, v);
    } else {
      SslStepIncomplete(buf, pos, rem, info, v);
    }
  }

  /** Any vectors at all: the call ends with a failure, or the loop gets behind them with at least what
      was sent in the array, and with more if an SSL vector is incomplete. */
  lemma {:induction false} WalkAtLeast(buf: seq<uint8>, pos: nat, rem: uint16, info: Info, vs: seq<Vector>)
      returns (behind: Option<Info>)
    requires Short(vs) && pos + rem <= |buf| && |Bytes(vs)| <= rem && Starts(buf, pos, Bytes(vs))
    requires vs != [] && |Bytes(vs)| == rem ==> Added(vs[|vs| - 1]).value != []
    ensures behind == None ==> !Walk(buf, pos, rem, info).outcome.Length?
    ensures behind.Some? ==>
              && Walk(buf, pos, rem, info) == Walk(buf, pos + |Bytes(vs)|, rem - |Bytes(vs)|, behind.value)
              && |behind.value.tlvs| >= |info.tlvs| + |ReceivedAll(vs)| + if AllComplete(vs) then 0 else 1
    decreases |vs|
  {
    hide TlvStep, TlvBytes, Added, Received, IsComplete, Walk, Bytes, Starts;
    WalkUnfolds(buf, pos, rem, info);
    if vs == [] {
      AfterNone(info);
      behind := Some(info);
    } else {
      var v, rest := vs[0], vs[1..];
      BytesCons(vs);
      StartsSplit(buf, pos, TlvBytes(Added(v)), Bytes(rest));
      TlvSize(Added(v));
      assert vs == [v] + rest;
      StepAtLeast(buf, pos, rem, info, v);
      match TlvStep(buf, pos, rem, info) {
        case Stop(_, _, _) => behind := None;
        case Next(_, info', _) =>
          behind := WalkAtLeast(buf, pos + 3 + |Added(v).value|, rem - 3 - |Added(v).value|, info', rest);
      }
    }
  }

  lemma WalkNoop(buf: seq<uint8>, pos: nat, rem: uint16, info: Info, gap: nat)
    requires gap == 0 || 3 <= gap <= rem
    requires pos + rem <= |buf| && Starts(buf, pos, Noop(gap))
    ensures Walk(buf, pos, rem, info) == Walk(buf, pos + gap, rem - gap, info)
  {
    hide SslStep, CrcStep, StoreStep, AsciiStep, U16At, TlvBytes, U16;
    if gap != 0 {
      ReadTlv(buf, pos, Tlv(TYPE_NOOP, Zeros(gap - 3)));
      U16Is(gap, gap, 0);
    }
  }

  lemma WalkCrc(buf: seq<uint8>, pos: nat, info: Info, checksum: seq<uint8>)
    requires |checksum| == 4 && Starts(buf, pos, CRC_HEADER + checksum)
    requires checksum == Crc.Checksum(ZeroFour(buf, pos + 3)[..pos + 7])
    ensures Walk(buf, pos, 7, info) ==
            Parsed(Length(pos + 7), ZeroFour(buf, pos + 3), Append(info, TYPE_CRC32C, checksum).(crc32c := true))
  {
    hide SslStep, StoreStep, AsciiStep, U16At, TlvBytes, Crc.Checksum;
    assert TlvBytes(Tlv(TYPE_CRC32C, checksum)) == CRC_HEADER + checksum by { TlvBytesOf(checksum); }
    ReadTlv(buf, pos, Tlv(TYPE_CRC32C, checksum));
  }

  lemma TlvBytesOf(checksum: seq<uint8>)
    requires |checksum| == 4
    ensures TlvBytes(Tlv(TYPE_CRC32C, checksum)) == CRC_HEADER + checksum
  {
  }

  // ---------- the fixed part and the addresses ----------

  lemma FixedBytesRead(buf: seq<uint8>, family: uint8, transport: uint8, len: uint16)
    requires family <= 3 && transport <= 2 && Starts(buf, 0, FixedPart(family, transport, len))
    ensures FixedBytes(buf, CLEARED) == Accepted(CLEARED.(local := family == 0, family := family,
          transport := transport))
    ensures U16At(buf, 14) == len
  {
    var f := FixedPart(family, transport, len);
    assert buf[0..16] == f;
    assert buf[12] == f[12] && buf[13] == f[13] && buf[14] == f[14] && buf[15] == f[15];
    assert f[13] / 16 == family && f[13] % 16 == transport;
  }

  /** The address text a reader finds for one the sender gave. */
  function SeenText(inet: Inet, family: uint8, text: seq<uint8>): seq<uint8> {
    if family == ADDR_FAMILY_INET then
      Canonical(inet.pton4(CString(text)), inet.ntop4)
    else if family == ADDR_FAMILY_INET6 then
      Canonical(inet.pton6(CString(text)), inet.ntop6)
    else if family == ADDR_FAMILY_UNIX then
      Field108(text)
    else
      []
  }

  function Canonical(octets: Option<seq<uint8>>, ntop: seq<uint8> -> Option<seq<uint8>>): seq<uint8> {
    if octets.Some? && ntop(octets.value).Some? then ntop(octets.value).value else []
  }

  /** The text found stands for the same octets as the text given, which ends at its first NUL. */
  lemma SeenTextMeansTheSame(inet: Inet, text: seq<uint8>)
    requires inet.Valid()
    ensures inet.pton4(CString(text)).Some? ==>
              inet.pton4(SeenText(inet, ADDR_FAMILY_INET, text)) == inet.pton4(CString(text))
    ensures inet.pton6(CString(text)).Some? ==>
              inet.pton6(SeenText(inet, ADDR_FAMILY_INET6, text)) == inet.pton6(CString(text))
  {
  }

  /** What a reader finds apart from the vectors. The command is PROXY for every known family, so
      `local` comes back as "no family". */
  function Seen(inet: Inet, sent: Info): Info {
    CLEARED.(
      family := sent.family,
      transport := sent.transport,
      local := sent.family == ADDR_FAMILY_UNSPEC,
      src := SeenText(inet, sent.family, sent.src),
      dst := SeenText(inet, sent.family, sent.dst),
      srcPort := if sent.family == ADDR_FAMILY_INET || sent.family == ADDR_FAMILY_INET6 then sent.srcPort else 0,
      dstPort := if sent.family == ADDR_FAMILY_INET || sent.family == ADDR_FAMILY_INET6 then sent.dstPort else 0)
  }

  lemma PortsRead(p: uint16, q: uint16)
    ensures U16At(Port(p) + Port(q), 0) == p && U16At(Port(p) + Port(q), 2) == q
  {
  }

  /** Two equally long parts and four more bytes, cut out of the buffer again. */
  lemma AddressParts(buf: seq<uint8>, at: nat, a: seq<uint8>, b: seq<uint8>, c: seq<uint8>)
    requires Starts(buf, at, a + b + c)
    ensures buf[at..at + |a|] == a && buf[at + |a|..at + |a| + |b|] == b
    ensures buf[at + |a| + |b|..at + |a| + |b| + |c|] == c
  {
    StartsSplit(buf, at, a + b, c);
    StartsSplit(buf, at, a, b);
  }

  lemma AddressesRead(inet: Inet, buf: seq<uint8>, sent: Info, len: uint16)
    requires inet.Valid() && AddressBlock(inet, sent).Success?
    requires var addr := AddressBlock(inet, sent).value; Starts(buf, 16, addr) && |addr| <= len && 16 + len <= |buf|
    ensures var addr := AddressBlock(inet, sent).value;
            Addresses(inet, buf, len, CLEARED.(local := sent.family == 0, family := sent.family,
                  transport := sent.transport)) ==
            if sent.family == ADDR_FAMILY_UNIX then Vectors(Seen(inet, sent), 16 + len, 0)
            else Vectors(Seen(inet, sent), 16 + |addr|, len - |addr|)
  {
    hide U16At, Port, Field108;
    var addr := AddressBlock(inet, sent).value;
    var ports := Port(sent.srcPort) + Port(sent.dstPort);
    PortsRead(sent.srcPort, sent.dstPort);
    PortsSize(sent);
    if sent.family == ADDR_FAMILY_INET {
      var s, d := inet.pton4(CString(sent.src)).value, inet.pton4(CString(sent.dst)).value;
      AddressParts(buf, 16, s, d, ports);
    } else if sent.family == ADDR_FAMILY_INET6 {
      var s, d := inet.pton6(CString(sent.src)).value, inet.pton6(CString(sent.dst)).value;
      AddressParts(buf, 16, s, d, ports);
    } else if sent.family == ADDR_FAMILY_UNIX {
      StartsSplit(buf, 16, Field108(sent.src), Field108(sent.dst));
    }
  }

  lemma PortsSize(sent: Info)
    ensures |Port(sent.srcPort) + Port(sent.dstPort)| == 4
  {
  }

  // ---------- created, then parsed ----------

  /** What `pp2_create_hdr` can put into a header. */
  ghost predicate Sendable(inet: Inet, sent: Info, vs: seq<Vector>) {
    && inet.Valid() && AddressBlock(inet, sent).Success?
    && Short(vs) && sent.tlvs == AddedAll(vs)
    && Fits(AddressBlock(inet, sent).value, sent)
  }

  ghost function Created(inet: Inet, sent: Info, vs: seq<Vector>): seq<uint8>
    requires Sendable(inet, sent, vs)
  {
    AddressBlockKnown(inet, sent);
    Header(AddressBlock(inet, sent).value, sent)
  }

  /** This is what `pp2_create_hdr` makes. */
  lemma CreatedIsMade(inet: Inet, sent: Info, vs: seq<Vector>)
    requires Sendable(inet, sent, vs)
    ensures Create(inet, sent) == Made(Created(inet, sent, vs))
  {
    hide AddressBlock, Create, Header;
    MadeAsMeant(inet, sent);
  }

  /** The vectors that reach the reader: a last one without a value is lost when neither a NOOP nor
      a checksum follows, because the loop stops at three remaining bytes. */
  ghost function Arriving(sent: Info, vs: seq<Vector>): seq<Vector>
    requires Short(vs)
  {
    if vs != [] && Added(vs[|vs| - 1]).value == [] && sent.alignmentPower <= 1 && !sent.crc32c then
      vs[..|vs| - 1]
    else
      vs
  }

  /** The buffer after a successful parse: the four checksum bytes have become zero. */
  ghost function Spent(h: seq<uint8>, crc32c: bool): seq<uint8>
    requires crc32c ==> |h| >= 4
  {
    if crc32c then h[..|h| - 4] + [0, 0, 0, 0] else h
  }

  /** What the structure holds after a successful parse that started with `info`. */
  ghost function GotFrom(h: seq<uint8>, sent: Info, vs: seq<Vector>, info: Info): Info
    requires Short(vs) && |h| >= 4
  {
    ChecksumStored(h, sent.crc32c, After(info, Arriving(sent, vs)))
  }

  function ChecksumStored(h: seq<uint8>, crc32c: bool, info: Info): Info
    requires |h| >= 4
  {
    if crc32c then Append(info, TYPE_CRC32C, h[|h| - 4..]).(crc32c := true) else info
  }

  ghost function Got(inet: Inet, sent: Info, vs: seq<Vector>): Info
    requires Sendable(inet, sent, vs)
  {
    HeaderSize(inet, sent, vs);
    GotFrom(Created(inet, sent, vs), sent, vs, Seen(inet, sent))
  }

  lemma HeaderSize(inet: Inet, sent: Info, vs: seq<Vector>)
    requires Sendable(inet, sent, vs)
    ensures |Created(inet, sent, vs)| == TotalLength(AddressBlock(inet, sent).value, sent)
    ensures 16 <= |Created(inet, sent, vs)| <= 0xFFFF
  {
    AddressBlockKnown(inet, sent);
    HeaderLength(AddressBlock(inet, sent).value, sent);
  }

  /** Where the parts of a header lie in a buffer that holds it. */
  ghost predicate Laid(addr: seq<uint8>, sent: Info, vs: seq<Vector>, h: seq<uint8>, payload: seq<uint8>)
    requires Short(vs)
  {
    var buf, gap, at := h + payload, Padding(sent, RawLength(addr, sent)), 16 + |addr|;
    && sent.family <= 3 && sent.transport <= 2
    && (gap == 0 || 3 <= gap < 0x1_0000) && (sent.alignmentPower > 1 <==> gap != 0)
    && |h| == at + |Bytes(vs)| + gap + CrcSize(sent.crc32c) <= 0xFFFF
    && Starts(buf, 0, FixedPart(sent.family, sent.transport, |h| - 16))
    && Starts(buf, 16, addr)
    && Starts(buf, at, Bytes(vs))
    && Starts(buf, at + |Bytes(vs)|, Noop(gap))
    && (sent.crc32c ==> Starts(buf, |h| - 7, CRC_HEADER + h[|h| - 4..]) &&
                        h[|h| - 4..] == Crc.Checksum(ZeroFour(buf, |h| - 4)[..|h|]))
  }

  lemma Placed(inet: Inet, sent: Info, vs: seq<Vector>, payload: seq<uint8>)
    requires Sendable(inet, sent, vs)
    ensures Laid(AddressBlock(inet, sent).value, sent, vs, Created(inet, sent, vs), payload)
  {
    hide FixedPart, Noop, TlvsBytes, Gap, Pow2, Crc.Checksum, AddressBlock, Bytes, Starts, ZeroFour, Fits, AddedAll,
         CrcSize, Header, Padding;
    AddressBlockKnown(inet, sent);
    var addr := AddressBlock(inet, sent).value;
    GapRange(addr, sent);
    HeaderSize(inet, sent, vs);
    BytesIs(vs);
    NoopSize(Padding(sent, RawLength(addr, sent)));
    HeaderPlaced(addr, sent, payload);
  }

  lemma HeaderPlaced(addr: seq<uint8>, sent: Info, payload: seq<uint8>)
    requires sent.family <= 3 && sent.transport <= 2 && Fits(addr, sent)
    ensures var h := Header(addr, sent);
            var buf, gap, at := h + payload, Padding(sent, RawLength(addr, sent)), 16 + |addr|;
            && (gap == 0 || 3 <= gap < 0x1_0000) && 16 <= |h| <= 0xFFFF
            && Starts(buf, 0, FixedPart(sent.family, sent.transport, |h| - 16))
            && Starts(buf, 16, addr)
            && Starts(buf, at, TlvsBytes(sent.tlvs))
            && Starts(buf, at + |TlvsBytes(sent.tlvs)|, Noop(gap))
            && (sent.crc32c ==> |h| >= 7 && Starts(buf, |h| - 7, CRC_HEADER + h[|h| - 4..]) &&
                                h[|h| - 4..] == Crc.Checksum(ZeroFour(buf, |h| - 4)[..|h|]))
  {
    hide FixedPart, Noop, TlvsBytes, Gap, Pow2, Crc.Checksum, Starts, ZeroFour, Header, Body, Fits, Padding;
    var h, gap, body := Header(addr, sent), Padding(sent, RawLength(addr, sent)), Body(addr, sent);
    GapRange(addr, sent);
    HeaderLength(addr, sent);
    FittingLength(addr, sent);
    HeaderBegins(addr, sent);
    BodyParts(FixedPart(sent.family, sent.transport, |h| - 16), addr, TlvsBytes(sent.tlvs), Noop(gap),
              h[|body|..] + payload);
    assert h + payload == body + (h[|body|..] + payload) by { Regroup(h, body, payload); }
    if sent.crc32c {
      ChecksumPlaced(body, h, payload);
    }
  }

  lemma FittingLength(addr: seq<uint8>, sent: Info)
    requires Fits(addr, sent)
    ensures 16 <= TotalLength(addr, sent) <= 0xFFFF
  {
  }

  lemma HeaderBegins(addr: seq<uint8>, sent: Info)
    requires sent.family <= 3 && sent.transport <= 2 && Fits(addr, sent)
    ensures var h, body := Header(addr, sent), Body(addr, sent);
            && |body| <= |h| && h[..|body|] == body
            && (sent.crc32c ==> h == body + CRC_HEADER + Crc.Checksum(body + CRC_HEADER + [0, 0, 0, 0]))
            && (!sent.crc32c ==> h == body)
    ensures var total, gap := TotalLength(addr, sent), Padding(sent, RawLength(addr, sent));
            (gap == 0 || 3 <= gap < 0x1_0000) && 16 <= total <= 0xFFFF &&
            Body(addr, sent) ==
            FixedPart(sent.family, sent.transport, total - 16) + addr + TlvsBytes(sent.tlvs) + Noop(gap)
  {
    hide FixedPart, Noop, TlvsBytes, Gap, Pow2, Crc.Checksum;
    GapRange(addr, sent);
  }

  lemma Regroup(h: seq<uint8>, body: seq<uint8>, payload: seq<uint8>)
    requires |body| <= |h| && h[..|body|] == body
    ensures h + payload == body + (h[|body|..] + payload)
  {
  }

  lemma BodyParts(fixed: seq<uint8>, addr: seq<uint8>, tlvs: seq<uint8>, noop: seq<uint8>, rest: seq<uint8>)
    ensures var buf := fixed + addr + tlvs + noop + rest;
            && Starts(buf, 0, fixed) && Starts(buf, |fixed|, addr)
            && Starts(buf, |fixed| + |addr|, tlvs) && Starts(buf, |fixed| + |addr| + |tlvs|, noop)
  {
    var buf := fixed + addr + tlvs + noop + rest;
    assert Starts(buf, 0, buf);
    StartsSplit(buf, 0, fixed + addr + tlvs + noop, rest);
    StartsSplit(buf, 0, fixed + addr + tlvs, noop);
    StartsSplit(buf, 0, fixed + addr, tlvs);
    StartsSplit(buf, 0, fixed, addr);
  }

  lemma BytesIs(vs: seq<Vector>)
    requires Short(vs)
    ensures Bytes(vs) == TlvsBytes(AddedAll(vs))
  {
  }

  lemma NoopSize(gap: nat)
    requires gap == 0 || 3 <= gap < 0x1_0000
    ensures |Noop(gap)| == gap
  {
  }

  lemma ChecksumPlaced(body: seq<uint8>, h: seq<uint8>, payload: seq<uint8>)
    requires h == body + CRC_HEADER + Crc.Checksum(body + CRC_HEADER + [0, 0, 0, 0])
    ensures |h| == |body| + 7
    ensures Starts(h + payload, |body|, CRC_HEADER + h[|h| - 4..])
    ensures h[|h| - 4..] == Crc.Checksum(ZeroFour(h + payload, |h| - 4)[..|h|])
  {
    hide Crc.Checksum;
    assert ZeroFour(h + payload, |h| - 4)[..|h|] == body + CRC_HEADER + [0, 0, 0, 0];
  }

  /** From behind the vectors to the end: padding, then the checksum. */
  lemma WalkTail(h: seq<uint8>, payload: seq<uint8>, at: nat, gap: nat, crc32c: bool, info: Info)
    requires 4 <= |h| <= 0xFFFF && |h| == at + gap + CrcSize(crc32c)
    requires gap == 0 || 3 <= gap < 0x1_0000
    requires Starts(h + payload, at, Noop(gap))
    requires crc32c ==> Starts(h + payload, |h| - 7, CRC_HEADER + h[|h| - 4..]) &&
                        h[|h| - 4..] == Crc.Checksum(ZeroFour(h + payload, |h| - 4)[..|h|])
    ensures Walk(h + payload, at, |h| - at, info) ==
            Parsed(Length(|h|), Spent(h, crc32c) + payload, ChecksumStored(h, crc32c, info))
  {
    hide Walk, Noop, Starts, Crc.Checksum, ZeroFour;
    WalkNoop(h + payload, at, |h| - at, info, gap);
    if crc32c {
      WalkCrc(h + payload, |h| - 7, info, h[|h| - 4..]);
      assert ZeroFour(h + payload, |h| - 4) == Spent(h, true) + payload by { ZeroedIsSpent(h, payload); }
    } else {
      WalkEnds(h + payload, |h|, info);
    }
  }

  lemma ZeroedIsSpent(h: seq<uint8>, payload: seq<uint8>)
    requires |h| >= 4
    ensures ZeroFour(h + payload, |h| - 4) == Spent(h, true) + payload
  {
  }

  lemma WalkEnds(buf: seq<uint8>, pos: nat, info: Info)
    requires pos <= |buf|
    ensures Walk(buf, pos, 0, info) == Parsed(Length(pos), buf, info)
  {
  }

  /** The last vector ends the buffer and is copied with a NUL: one byte behind the buffer is read. */
  ghost predicate CopiesBehind(sent: Info, vs: seq<Vector>, payload: seq<uint8>)
    requires Short(vs)
  {
    && payload == [] && sent.alignmentPower <= 1 && !sent.crc32c
    && vs != [] && IsAscii(vs[|vs| - 1]) && Added(vs[|vs| - 1]).value != []
  }

  /** A successful parse that started with `info`: the header's length, and everything that was sent. */
  ghost function HandedOut(h: seq<uint8>, sent: Info, vs: seq<Vector>, payload: seq<uint8>, info: Info): Parsed
    requires Short(vs) && |h| >= 4
  {
    Parsed(Length(|h|), Spent(h, sent.crc32c) + payload, GotFrom(h, sent, vs, info))
  }

  /** The loop over the vectors, all of which arrive, and everything behind them. */
  lemma WalkArriving(addr: seq<uint8>, sent: Info, vs: seq<Vector>, h: seq<uint8>, payload: seq<uint8>, info: Info)
    requires Short(vs) && Laid(addr, sent, vs, h, payload) && Arriving(sent, vs) == vs
    requires AllComplete(vs) && (NoEmptyAws(vs) ==> !CopiesBehind(sent, vs, payload))
    ensures var walked := Walk(h + payload, 16 + |addr|, |h| - 16 - |addr|, info);
            && (!NoEmptyAws(vs) ==> walked.outcome == Error(-ERR_PP2_TYPE_AWS))
            && (NoEmptyAws(vs) ==> walked == HandedOut(h, sent, vs, payload, info))
  {
    hide Walk, Noop, Bytes, TlvsBytes, Crc.Checksum, FixedPart, ZeroFour, Added, After, Append, Starts, IsAscii,
         IsComplete, Padding, Spent, ChecksumStored;
    var gap, at := Padding(sent, RawLength(addr, sent)), 16 + |addr|;
    WalkVectors(h + payload, at, |h| - at, info, vs);
    if NoEmptyAws(vs) {
      WalkTail(h, payload, at + |Bytes(vs)|, gap, sent.crc32c, After(info, vs));
    }
  }

  /** The same when the last one does not arrive. */
  lemma WalkFront(addr: seq<uint8>, sent: Info, vs: seq<Vector>, h: seq<uint8>, payload: seq<uint8>, info: Info)
    requires Short(vs) && Laid(addr, sent, vs, h, payload) && Arriving(sent, vs) != vs && AllComplete(vs)
    ensures var walked := Walk(h + payload, 16 + |addr|, |h| - 16 - |addr|, info);
            && (!NoEmptyAws(vs) ==> walked.outcome == Error(-ERR_PP2_TYPE_AWS))
            && (NoEmptyAws(vs) ==> walked == HandedOut(h, sent, vs, payload, info))
  {
    hide Walk, Noop, Bytes, TlvsBytes, Crc.Checksum, FixedPart, ZeroFour, Added, After, Append, Starts, IsAscii,
         IsComplete, Padding, Spent, ChecksumStored, NoEmptyAws, AllComplete, Short, IsEmptyAws;
    var at := 16 + |addr|;
    var front, last := LostLast(sent, vs, h + payload, at);
    NothingFollows(addr, sent, vs, h, payload);
    FrontIsLike(vs, front, last);
    WalkVectors(h + payload, at, |h| - at, info, front);
    WalkStops(h + payload, at + |Bytes(front)|, 3, After(info, front));
    NothingAdded(h, After(info, front));
  }

  lemma NothingFollows(addr: seq<uint8>, sent: Info, vs: seq<Vector>, h: seq<uint8>, payload: seq<uint8>)
    requires Short(vs) && Laid(addr, sent, vs, h, payload) && Arriving(sent, vs) != vs
    ensures !sent.crc32c && |h| == 16 + |addr| + |Bytes(vs)|
  {
    hide Bytes, Starts, Noop, FixedPart, Added, Padding, Crc.Checksum, ZeroFour;
  }

  lemma FrontIsLike(vs: seq<Vector>, front: seq<Vector>, last: Vector)
    requires vs == front + [last] && !IsEmptyAws(last) && IsComplete(last)
    ensures AllComplete(front) <==> AllComplete(vs)
    ensures NoEmptyAws(front) <==> NoEmptyAws(vs)
  {
    hide IsComplete, IsEmptyAws;
    assert forall v :: v in front ==> v in vs;
  }

  /** The loop over the acceptable vectors and everything behind them. */
  lemma WalkAll(addr: seq<uint8>, sent: Info, vs: seq<Vector>, h: seq<uint8>, payload: seq<uint8>, info: Info)
    requires Short(vs) && Laid(addr, sent, vs, h, payload)
    requires AllComplete(vs) && (NoEmptyAws(vs) ==> !CopiesBehind(sent, vs, payload))
    ensures var walked := Walk(h + payload, 16 + |addr|, |h| - 16 - |addr|, info);
            && (!NoEmptyAws(vs) ==> walked.outcome == Error(-ERR_PP2_TYPE_AWS))
            && (NoEmptyAws(vs) ==> walked == HandedOut(h, sent, vs, payload, info))
  {
    hide Walk, HandedOut, Arriving, Short, NoEmptyAws, AllComplete, CopiesBehind, Laid;
    if Arriving(sent, vs) == vs {
      WalkArriving(addr, sent, vs, h, payload, info);
    } else {
      WalkFront(addr, sent, vs, h, payload, info);
    }
  }

  lemma NothingAdded(h: seq<uint8>, info: Info)
    requires |h| >= 4
    ensures Spent(h, false) == h && ChecksumStored(h, false, info) == info
  {
  }

  /** A last vector that does not arrive is the three bytes in front of the payload. */
  lemma LostLast(sent: Info, vs: seq<Vector>, buf: seq<uint8>, at: nat) returns (front: seq<Vector>, last: Vector)
    requires Short(vs) && Arriving(sent, vs) != vs && Starts(buf, at, Bytes(vs))
    ensures vs == front + [last] && Arriving(sent, vs) == front && Short(front) && !IsEmptyAws(last) && IsComplete(last)
    ensures |Bytes(vs)| == |Bytes(front)| + 3 && Starts(buf, at, Bytes(front))
  {
    hide Bytes, Added, Starts;
    front, last := vs[..|vs| - 1], vs[|vs| - 1];
    BytesSnoc(vs);
    StartsSplit(buf, at, Bytes(front), TlvBytes(Added(last)));
    EmptyIsPlain(last);
  }

  /** An incomplete SSL vector: whatever the heap held, the vectors are not received as sent. */
  lemma WalkTooMuch(addr: seq<uint8>, sent: Info, vs: seq<Vector>, h: seq<uint8>, payload: seq<uint8>, info: Info)
    requires Short(vs) && Laid(addr, sent, vs, h, payload) && !AllComplete(vs)
    ensures var walked := Walk(h + payload, 16 + |addr|, |h| - 16 - |addr|, info);
            walked.outcome.Length? ==> |walked.info.tlvs| >
                                       |info.tlvs| + |ReceivedAll(Arriving(sent, vs))| + if sent.crc32c then 1 else 0
  {
    hide Walk, Noop, Bytes, TlvsBytes, Crc.Checksum, FixedPart, ZeroFour, Added, Starts, IsComplete, ReceivedAll,
         Spent, Padding;
    var gap, at := Padding(sent, RawLength(addr, sent)), 16 + |addr|;
    if Arriving(sent, vs) == vs {
      var behind := WalkAtLeast(h + payload, at, |h| - at, info, vs);
      if behind.Some? {
        WalkTail(h, payload, at + |Bytes(vs)|, gap, sent.crc32c, behind.value);
      }
    } else {
      var front, last := LostLast(sent, vs, h + payload, at);
      var behind := WalkAtLeast(h + payload, at, |h| - at, info, front);
      if behind.Some? {
        WalkStops(h + payload, at + |Bytes(front)|, 3, behind.value);
      }
    }
  }

  /** The last vector is copied one byte too far. */
  lemma WalkOverreads(addr: seq<uint8>, sent: Info, vs: seq<Vector>, h: seq<uint8>, payload: seq<uint8>, info: Info)
    requires Short(vs) && Laid(addr, sent, vs, h, payload)
    requires AllComplete(vs) && NoEmptyAws(vs) && CopiesBehind(sent, vs, payload)
    ensures Walk(h + payload, 16 + |addr|, |h| - 16 - |addr|, info).outcome == Overread
  {
    hide Noop, Bytes, TlvsBytes, Crc.Checksum, FixedPart, ZeroFour, Added, Starts, TlvStep, IsComplete, ReceivedAll,
         TlvBytes, IsAscii, Walk, Padding;
    var at := 16 + |addr|;
    var front, last := vs[..|vs| - 1], vs[|vs| - 1];
    BytesSnoc(vs);
    StartsSplit(h + payload, at, Bytes(front), TlvBytes(Added(last)));
    WalkVectors(h + payload, at, |h| - at, info, front);
    var pos := at + |Bytes(front)|;
    AsciiIsFlat(last);
    FlatStep(h + payload, pos, |h| - pos, After(info, front), last);
    WalkUnfolds(h + payload, pos, |h| - pos, After(info, front));
  }

  lemma AsciiIsFlat(v: Vector)
    requires IsAscii(v)
    ensures !v.Ssl? && (!IsEmptyAws(v) ==> v.AwsVpce? ==> v.vpceId != [])
  {
  }

  lemma WalkStops(buf: seq<uint8>, pos: nat, rem: uint16, info: Info)
    requires rem <= 3 && pos + rem <= |buf|
    ensures Walk(buf, pos, rem, info) == Parsed(Length(pos + rem), buf, info)
  {
  }

  lemma EmptyIsPlain(v: Vector)
    requires Addable(v) && Added(v).value == []
    ensures !IsEmptyAws(v) && IsComplete(v)
  {
  }

  lemma {:induction false} AddedAllSnoc(vs: seq<Vector>)
    requires Short(vs) && vs != []
    ensures AddedAll(vs) == AddedAll(vs[..|vs| - 1]) + [Added(vs[|vs| - 1])]
  {
    hide Added;
    if |vs| > 1 {
      assert vs[1..][..|vs| - 2] == vs[..|vs| - 1][1..];
      AddedAllSnoc(vs[1..]);
    } else {
      assert vs[1..] == [] && vs[..0] == [];
    }
  }

  lemma BytesSnoc(vs: seq<Vector>)
    requires Short(vs) && vs != []
    ensures Bytes(vs) == Bytes(vs[..|vs| - 1]) + TlvBytes(Added(vs[|vs| - 1]))
    ensures |TlvBytes(Added(vs[|vs| - 1]))| == 3 + |Added(vs[|vs| - 1]).value|
  {
    hide Added, TlvBytes;
    var t := Added(vs[|vs| - 1]);
    TlvSize(t);
    AddedAllSnoc(vs);
    TlvsBytesAppend(AddedAll(vs[..|vs| - 1]), [t]);
    assert TlvsBytes([t]) == TlvBytes(t) + TlvsBytes([]);
  }

  /** The header's length, the payload untouched, and everything that was sent. */
  ghost function AsSent(inet: Inet, sent: Info, vs: seq<Vector>, payload: seq<uint8>): Parsed
    requires Sendable(inet, sent, vs)
  {
    HeaderSize(inet, sent, vs);
    HandedOut(Created(inet, sent, vs), sent, vs, payload, Seen(inet, sent))
  }

  /** Behind a fixed part and an address block the parser gets to its loop. */
  lemma ParseGetsToLoop(inet: Inet, buf: seq<uint8>, sent: Info, len: uint16)
    requires inet.Valid() && AddressBlock(inet, sent).Success? && sent.family <= 2 && sent.transport <= 2
    requires Starts(buf, 0, FixedPart(sent.family, sent.transport, len))
    requires var addr := AddressBlock(inet, sent).value; Starts(buf, 16, addr) && |addr| <= len && 16 + len <= |buf|
    ensures var n := |AddressBlock(inet, sent).value|;
            Parse(inet, buf, CLEARED) == Walk(buf, 16 + n, len - n, Seen(inet, sent))
  {
    hide Walk, AddressBlock, FixedPart, FixedBytes, Addresses, Seen, U16At, Starts;
    FixedBytesRead(buf, sent.family, sent.transport, len);
    AddressesRead(inet, buf, sent, len);
  }

  /** What the parser does with a created header is what its loop does with the vectors. */
  lemma ParseIsWalk(inet: Inet, sent: Info, vs: seq<Vector>, payload: seq<uint8>)
    requires Sendable(inet, sent, vs) && sent.family != ADDR_FAMILY_UNIX
    ensures var h, addr := Created(inet, sent, vs), AddressBlock(inet, sent).value;
            && Laid(addr, sent, vs, h, payload)
            && Parse(inet, h + payload, CLEARED) ==
               Walk(h + payload, 16 + |addr|, |h| - 16 - |addr|, Seen(inet, sent))
  {
    hide Walk, Noop, Bytes, Padding, AddressBlock, Created, FixedPart, Parse, Fits, Seen, Starts;
    Placed(inet, sent, vs, payload);
    ParseGetsToLoop(inet, Created(inet, sent, vs) + payload, sent, |Created(inet, sent, vs)| - 16);
  }

  /** Parsing a created header followed by any payload returns the header's length and what was sent,
      exactly when no AWS vector has an empty identifier, no SSL vector lacks a field, and the last
      vector is not copied beyond the buffer. */
  lemma RoundTrip(inet: Inet, sent: Info, vs: seq<Vector>, payload: seq<uint8>)
    requires Sendable(inet, sent, vs) && sent.family != ADDR_FAMILY_UNIX
    ensures var parsed := Parse(inet, Created(inet, sent, vs) + payload, CLEARED);
            && (parsed == AsSent(inet, sent, vs, payload) <==>
                NoEmptyAws(vs) && AllComplete(vs) && !CopiesBehind(sent, vs, payload))
            && (AllComplete(vs) && !NoEmptyAws(vs) ==> parsed.outcome == Error(-ERR_PP2_TYPE_AWS))
            && (AllComplete(vs) && NoEmptyAws(vs) && CopiesBehind(sent, vs, payload) ==> parsed.outcome == Overread)
  {
    hide Walk, AddressBlock, Created, Parse, Seen, NoEmptyAws, AllComplete, CopiesBehind, Laid, Fits, HandedOut,
         Short, Arriving, ReceivedAll;
    var addr, h, info := AddressBlock(inet, sent).value, Created(inet, sent, vs), Seen(inet, sent);
    ParseIsWalk(inet, sent, vs, payload);
    HandedOutSize(inet, sent, vs, payload);
    if !AllComplete(vs) {
      WalkTooMuch(addr, sent, vs, h, payload, info);
    } else if NoEmptyAws(vs) && CopiesBehind(sent, vs, payload) {
      WalkOverreads(addr, sent, vs, h, payload, info);
    } else {
      WalkAll(addr, sent, vs, h, payload, info);
    }
  }

  lemma HandedOutSize(inet: Inet, sent: Info, vs: seq<Vector>, payload: seq<uint8>)
    requires Sendable(inet, sent, vs)
    ensures Seen(inet, sent).tlvs == []
    ensures var r := AsSent(inet, sent, vs, payload);
            && r.outcome.Length?
            && |r.info.tlvs| == |ReceivedAll(Arriving(sent, vs))| + if sent.crc32c then 1 else 0
  {
    hide Created, Arriving, ReceivedAll, AddressBlock, Fits, Short, SeenText;
    HeaderSize(inet, sent, vs);
  }

  /** At the first AWS vector with an empty identifier the loop ends, with the vectors before it kept. */
  lemma {:induction false} WalkToEmptyAws(buf: seq<uint8>, pos: nat, rem: uint16, info: Info, vs: seq<Vector>, i: nat)
    requires Short(vs) && AllComplete(vs) && i < |vs| && IsEmptyAws(vs[i]) && NoEmptyAws(vs[..i])
    requires pos + rem <= |buf| && |Bytes(vs)| <= rem && Starts(buf, pos, Bytes(vs))
    ensures Walk(buf, pos, rem, info) == Parsed(Error(-ERR_PP2_TYPE_AWS), buf, After(info, vs[..i]))
    decreases |vs|
  {
    hide TlvStep, TlvBytes, Added, Received, ReceivedAll, IsAscii, IsComplete, Bytes, After, FlagsAfter, Starts, Walk;
    WalkUnfolds(buf, pos, rem, info);
    var v, rest := vs[0], vs[1..];
    BytesCons(vs);
    StartsSplit(buf, pos, TlvBytes(Added(v)), Bytes(rest));
    TlvSize(Added(v));
    if i == 0 {
      EmptyAwsIsShort(v);
      EmptyAwsStep(buf, pos, rem, info, v);
      AfterNone(info);
    } else {
      assert vs[..i][0] == v && vs[..i][1..] == rest[..i - 1];
      BytesCons(rest);
      StepOf(buf, pos, rem, info, v);
      var info' := info.(tlvs := info.tlvs + Received(v), ssl := FlagsAfter(v, info.ssl));
      WalkToEmptyAws(buf, pos + 3 + |Added(v).value|, rem - 3 - |Added(v).value|, info', rest, i - 1);
      AfterCons(info, vs[..i]);
    }
  }

  lemma StopsAtEmptyAws(inet: Inet, sent: Info, vs: seq<Vector>, i: nat, payload: seq<uint8>)
    requires Sendable(inet, sent, vs) && sent.family != ADDR_FAMILY_UNIX && AllComplete(vs)
    requires i < |vs| && IsEmptyAws(vs[i]) && NoEmptyAws(vs[..i])
    ensures var parsed := Parse(inet, Created(inet, sent, vs) + payload, CLEARED);
            parsed.outcome == Error(-ERR_PP2_TYPE_AWS) && parsed.info.tlvs == [] + ReceivedAll(vs[..i])
  {
    hide Walk, Parse, Created, AddressBlock, Bytes, Noop, Starts, Padding, Fits, Crc.Checksum, ZeroFour, FixedPart,
         ReceivedAll;
    var h, at := Created(inet, sent, vs), 16 + |AddressBlock(inet, sent).value|;
    ParseIsWalk(inet, sent, vs, payload);
    WalkToEmptyAws(h + payload, at, |h| - at, Seen(inet, sent), vs, i);
  }

  lemma EmptyAwsIsShort(v: Vector)
    requires IsEmptyAws(v)
    ensures Addable(v) && |Added(v).value| == 1
  {
  }

  /** For AF_UNIX the addresses come back but the parser never looks at the vectors. */
  lemma UnixRoundTrip(inet: Inet, sent: Info, vs: seq<Vector>, payload: seq<uint8>)
    requires Sendable(inet, sent, vs) && sent.family == ADDR_FAMILY_UNIX
    ensures var h := Created(inet, sent, vs);
            && 16 <= |h|
            && Parse(inet, h + payload, CLEARED) == Parsed(Length(|h|), h + payload, Seen(inet, sent))
  {
    hide Noop, Bytes, Padding, AddressBlock, Created, FixedPart, FixedBytes, Addresses, Fits, Seen, U16At, Walk,
         Starts;
    Placed(inet, sent, vs, payload);
    var addr, h := AddressBlock(inet, sent).value, Created(inet, sent, vs);
    FixedBytesRead(h + payload, sent.family, sent.transport, |h| - 16);
    AddressesRead(inet, h + payload, sent, |h| - 16);
    WalkEnds(h + payload, |h|, Seen(inet, sent));
  }

  /** Every vector arrives exactly when the last one has a value or something follows it. */
  lemma NothingLostExactly(sent: Info, vs: seq<Vector>)
    requires Short(vs)
    ensures ReceivedAll(Arriving(sent, vs)) == ReceivedAll(vs) <==>
            vs == [] || Added(vs[|vs| - 1]).value != [] || sent.alignmentPower > 1 || sent.crc32c
  {
    if Arriving(sent, vs) != vs {
      ReceivedSnoc(vs);
      EmptyIsReceived(vs[|vs| - 1]);
    }
  }

  lemma EmptyIsReceived(v: Vector)
    requires Addable(v) && Added(v).value == []
    ensures |Received(v)| == 1
  {
  }

  lemma {:induction false} ReceivedSnoc(vs: seq<Vector>)
    requires Short(vs) && vs != []
    ensures ReceivedAll(vs) == ReceivedAll(vs[..|vs| - 1]) + Received(vs[|vs| - 1])
  {
    hide Added, Received, ReceivedAll;
    ReceivedCons(vs);
    if |vs| > 1 {
      var front := vs[..|vs| - 1];
      assert vs[1..][..|vs| - 2] == front[1..];
      ReceivedSnoc(vs[1..]);
      ReceivedCons(front);
      assert Received(vs[0]) + ReceivedAll(front[1..]) + Received(vs[|vs| - 1]) ==
             Received(vs[0]) + (ReceivedAll(front[1..]) + Received(vs[|vs| - 1]));
    } else {
      NoneReceived();
      assert vs[1..] == [] && vs[..0] == [];
    }
  }

  lemma ReceivedCons(vs: seq<Vector>)
    requires Short(vs) && vs != []
    ensures ReceivedAll(vs) == Received(vs[0]) + ReceivedAll(vs[1..])
  {
  }

  lemma NoneReceived()
    ensures ReceivedAll([]) == []
  {
  }
}
