/** What the version 2 parser makes of the bytes of any sender (asio_server/proxy_protocol.cpp:808-1094):
    the fixed part, the addresses and the SSL flags, bit by bit. The format is that of section 2.2 of
    the HAProxy PROXY protocol specification. */
module ProxyV2Format {
  import opened MachineTypes
  import opened Wrappers
  import opened ProxyInfo
  import opened ProxyVectors
  import opened ProxyV2Create
  import opened Blocks
  import opened ProxyV2Parse
  import opened ProxyV2RoundTrip
  import opened ProxyV2Theorems
  import Crc = Crc32c

  // ---------- what the vectors leave alone ----------

  /** The loop only changes vectors, SSL flags and the checksum flag. */
  predicate SameFixed(info: Info, info': Info) {
    info' == info.(tlvs := info'.tlvs, ssl := info'.ssl, crc32c := info'.crc32c)
  }

  /** Errors of the TLV loop. */
  predicate IsLoopError(code: int) {
    -17 <= code <= -12
  }

  predicate LoopOutcome(outcome: Outcome, length: nat) {
    match outcome
    case Length(n) => n == length
    case Error(code) => IsLoopError(code)
    case _ => true
  }

  lemma {:induction false} SslLoopKeepsFixed(buf: seq<uint8>, base: nat, offset: uint16, len: uint16, info: Info,
                                             found: bool, seen: set<nat>)
    ensures var (outcome, info') := SslLoop(buf, base, offset, len, info, found, seen);
            && info' == info.(tlvs := info'.tlvs)
            && (outcome.Some? ==> !outcome.value.Length? && LoopOutcome(outcome.value, 0))
    decreases Unseen(seen)
  {
    hide U16At, U16;
    if offset < len && offset !in seen {
      var s := SubTlvStep(buf, base, offset, info);
      if s.SubNext? {
        UnseenShrinks(seen, offset);
        SslLoopKeepsFixed(buf, base, s.offset, len, s.info, found || s.isVersion, seen + {offset as nat});
      }
    }
  }

  /** A step changes nothing else and ends, if it does, with an error of the loop. */
  predicate KeepsFixed(info: Info, s: Step) {
    SameFixed(info, s.info) && (s.Stop? ==> !s.outcome.Length? && LoopOutcome(s.outcome, 0))
  }

  lemma SslStepKeepsFixed(buf: seq<uint8>, at: nat, n: uint16, info: Info)
    ensures KeepsFixed(info, SslStep(buf, at, n, info))
  {
    hide SslLoop;
    if at + 5 <= |buf| {
      var info1 := info.(ssl := FlagsOf(buf[at], buf[at + 1..at + 5]));
      SslLoopKeepsFixed(buf, at + 5, 0, U16(n - 5), info1, false, {});
      var r := SslLoop(buf, at + 5, 0, U16(n - 5), info1, false, {});
      assert SameFixed(info, r.1);
    }
  }

  lemma PlainStepsKeepFixed(buf: seq<uint8>, kind: uint8, at: nat, n: uint16, info: Info)
    ensures KeepsFixed(info, StoreStep(buf, kind, at, n, info))
    ensures KeepsFixed(info, AsciiStep(buf, kind, at, n, info))
  {
  }

  lemma CrcStepKeepsFixed(buf: seq<uint8>, at: nat, n: uint16, end: nat, info: Info)
    requires end <= |buf| && (n == 4 ==> at + 4 <= end)
    ensures KeepsFixed(info, CrcStep(buf, at, n, end, info))
  {
    hide Crc.Checksum, ZeroFour;
  }

  lemma StepKeepsFixed(buf: seq<uint8>, pos: nat, rem: uint16, info: Info)
    requires rem > 3 && pos + rem <= |buf|
    ensures KeepsFixed(info, TlvStep(buf, pos, rem, info))
  {
    hide U16At, SslStep, CrcStep, StoreStep, AsciiStep;
    var n, at := U16At(buf, pos + 1), pos + 3;
    SslStepKeepsFixed(buf, at, n, info);
    PlainStepsKeepFixed(buf, buf[pos], at, n, info);
    if U16(3 + n as int) <= rem {
      CrcStepKeepsFixed(buf, at, n, pos + rem, info);
    }
  }

  lemma {:induction false} WalkKeepsFixed(buf: seq<uint8>, pos: nat, rem: uint16, info: Info)
    requires pos + rem <= |buf|
    ensures var r := Walk(buf, pos, rem, info);
            SameFixed(info, r.info) && LoopOutcome(r.outcome, pos + rem)
    decreases rem
  {
    hide TlvStep, Walk;
    WalkUnfolds(buf, pos, rem, info);
    if rem > 3 {
      StepKeepsFixed(buf, pos, rem, info);
      var s := TlvStep(buf, pos, rem, info);
      if s.Next? && s.offset > 0 {
        WalkKeepsFixed(s.buf, pos + s.offset, rem - s.offset, s.info);
      }
    }
  }

  // ---------- what the parser makes of the first bytes of any sender ----------

  function BigEndian(high: nat, low: nat): nat {
    256 * high + low
  }

  /** Version 2, a command, a family and a transport that exist. */
  predicate GoodFixed(buf: seq<uint8>)
    requires |buf| >= 16
  {
    (buf[12] == 0x20 || buf[12] == 0x21) && buf[13] < 0x40 && buf[13] % 16 <= 2
  }

  lemma FixedNibbles(buf: seq<uint8>, info: Info)
    requires |buf| >= 16
    ensures var f := FixedBytes(buf, info);
            && (f.Accepted? <==> GoodFixed(buf))
            && (f.Rejected? ==>
                  f.code == if !(0x20 <= buf[12] < 0x30) then -ERR_PP2_VERSION
                            else if buf[12] > 0x21 then -ERR_PP2_CMD
                            else if buf[13] >= 0x40 then -ERR_PP2_ADDR_FAMILY
                            else -ERR_PP2_TRANSPORT_PROTOCOL)
            && (f.Accepted? ==>
                  f.info == info.(local := buf[12] == 0x20, family := buf[13] / 16, transport := buf[13] % 16))
  {
  }

  predicate IsAddressError(code: int) {
    -11 <= code <= -7
  }

  lemma AddressesKeepFixed(inet: Inet, buf: seq<uint8>, len: uint16, info: Info)
    requires 16 + len <= |buf|
    ensures var a := Addresses(inet, buf, len, info);
            && a.info == info.(src := a.info.src, dst := a.info.dst, srcPort := a.info.srcPort,
                               dstPort := a.info.dstPort)
            && (a.Refused? ==> IsAddressError(a.code))
            && (a.Vectors? ==> a.pos + a.rem == 16 + len)
  {
    hide U16At;
  }

  /** Behind a good fixed part nothing changes what it said. */
  lemma RestKeepsFixed(inet: Inet, buf: seq<uint8>, info: Info)
    requires |buf| >= 16
    ensures var r := ParseRest(inet, buf, info);
            && r.info.local == info.local && r.info.family == info.family && r.info.transport == info.transport
            && (r.outcome.Error? ==> IsAddressError(r.outcome.code) || IsLoopError(r.outcome.code))
            && (r.outcome.Length? ==> r.outcome.length == 16 + U16At(buf, 14) as int)
  {
    hide U16At, Addresses, Walk;
    var len := U16At(buf, 14);
    if |buf| >= 16 + len as int {
      AddressesKeepFixed(inet, buf, len, info);
      var a := Addresses(inet, buf, len, info);
      if a.Vectors? {
        WalkKeepsFixed(buf, a.pos, a.rem, a.info);
      }
    }
  }

  /** On any buffer: version, command, family and transport are refused exactly when their bits are
      wrong and those before are right; if all are right they are handed out, whatever the header holds
      besides, and a length that is returned is the announced one. */
  lemma FixedPartRead(inet: Inet, buf: seq<uint8>, info: Info)
    requires |buf| >= 16
    ensures var outcome := Parse(inet, buf, info).outcome;
            && (outcome == Error(-ERR_PP2_VERSION) <==> !(0x20 <= buf[12] < 0x30))
            && (outcome == Error(-ERR_PP2_CMD) <==> 0x22 <= buf[12] < 0x30)
            && (outcome == Error(-ERR_PP2_ADDR_FAMILY) <==> (buf[12] == 0x20 || buf[12] == 0x21) && buf[13] >= 0x40)
            && (outcome == Error(-ERR_PP2_TRANSPORT_PROTOCOL) <==>
                (buf[12] == 0x20 || buf[12] == 0x21) && buf[13] < 0x40 && buf[13] % 16 > 2)
            && (outcome.Length? ==> outcome.length == 16 + BigEndian(buf[14], buf[15]))
    ensures var seen := Parse(inet, buf, info).info;
            GoodFixed(buf) ==>
              && (seen.local <==> buf[12] == 0x20)
              && seen.family == buf[13] / 16
              && seen.transport == buf[13] % 16
  {
    hide FixedBytes, ParseRest;
    FixedNibbles(buf, info);
    var f := FixedBytes(buf, info);
    if f.Accepted? {
      RestKeepsFixed(inet, buf, f.info);
    }
  }

  /** The bytes the address block of a family has. */
  function AddressBytes(family: nat): nat {
    if family == 1 then 12 else if family == 2 then 36 else if family == 3 then 216 else 0
  }

  /** The announced bytes are there, and enough for the addresses. */
  predicate HoldsAddresses(buf: seq<uint8>)
    requires |buf| >= 16
  {
    |buf| >= 16 + BigEndian(buf[14], buf[15]) && BigEndian(buf[14], buf[15]) >= AddressBytes(buf[13] / 16)
  }

  /** How the addresses of a family are refused, if they are. */
  function AddressError(inet: Inet, buf: seq<uint8>): Option<int>
    requires |buf| >= 16
  {
    var family := buf[13] / 16;
    if !HoldsAddresses(buf) then Some(-ERR_PP2_LENGTH)
    else if family == 1 && inet.ntop4(buf[16..20]).None? then Some(-ERR_PP2_IPV4_SRC_IP)
    else if family == 1 && inet.ntop4(buf[20..24]).None? then Some(-ERR_PP2_IPV4_DST_IP)
    else if family == 2 && inet.ntop6(buf[16..32]).None? then Some(-ERR_PP2_IPV6_SRC_IP)
    else if family == 2 && inet.ntop6(buf[32..48]).None? then Some(-ERR_PP2_IPV6_DST_IP)
    else None
  }

  /** Addresses and ports in their places. */
  predicate AddressesSeen(inet: Inet, buf: seq<uint8>, info: Info, seen: Info)
    requires |buf| >= 16
  {
    HoldsAddresses(buf) &&
    match buf[13] / 16
    case 1 =>
      && inet.ntop4(buf[16..20]) == Some(seen.src) && inet.ntop4(buf[20..24]) == Some(seen.dst)
      && seen.srcPort == BigEndian(buf[24], buf[25]) && seen.dstPort == BigEndian(buf[26], buf[27])
    case 2 =>
      && inet.ntop6(buf[16..32]) == Some(seen.src) && inet.ntop6(buf[32..48]) == Some(seen.dst)
      && seen.srcPort == BigEndian(buf[48], buf[49]) && seen.dstPort == BigEndian(buf[50], buf[51])
    case 3 =>
      seen.src == buf[16..124] && seen.dst == buf[124..232] && seen.tlvs == info.tlvs
    case _ =>
      seen.src == info.src && seen.dst == info.dst && seen.srcPort == info.srcPort && seen.dstPort == info.dstPort
  }

  lemma AddressesSeenOrRefused(inet: Inet, buf: seq<uint8>, len: uint16, info: Info)
    requires |buf| >= 16 + len >= 16 && len == BigEndian(buf[14], buf[15]) && info.family == buf[13] / 16 <= 3
    ensures match Addresses(inet, buf, len, info)
            case Refused(code, _) => AddressError(inet, buf) == Some(code)
            case Vectors(seen, pos, rem) =>
              && AddressError(inet, buf) == None && AddressesSeen(inet, buf, info, seen)
              && (info.family == 3 ==> rem == 0)
  {
    hide U16At;
    if |buf| >= 28 {
      PortsIn(buf, 24);
    }
    if |buf| >= 52 {
      PortsIn(buf, 48);
    }
  }

  lemma PortsIn(buf: seq<uint8>, at: nat)
    requires at + 4 <= |buf|
    ensures U16At(buf[at..at + 4], 0) == BigEndian(buf[at], buf[at + 1])
    ensures U16At(buf[at..at + 4], 2) == BigEndian(buf[at + 2], buf[at + 3])
  {
  }

  /** On any buffer with a good fixed part: the addresses are refused exactly for these reasons, and else
      they are handed out from their places in the buffer. */
  lemma AddressPartRead(inet: Inet, buf: seq<uint8>, info: Info)
    requires |buf| >= 16 && GoodFixed(buf)
    ensures var r := Parse(inet, buf, info);
            match AddressError(inet, buf)
            case Some(code) => r.outcome == Error(code)
            case None =>
              && !(r.outcome.Error? && IsAddressError(r.outcome.code))
              && AddressesSeen(inet, buf, info, r.info)
  {
    hide FixedBytes, Addresses, Walk, AddressError, AddressesSeen;
    FixedNibbles(buf, info);
    var info1 := FixedBytes(buf, info).info;
    var len := U16At(buf, 14);
    if |buf| < 16 + len as int {
      TooShort(inet, buf);
    } else {
      AddressesSeenOrRefused(inet, buf, len, info1);
      var a := Addresses(inet, buf, len, info1);
      AddressesKeepFixed(inet, buf, len, info1);
      if a.Vectors? {
        WalkKeepsFixed(buf, a.pos, a.rem, a.info);
        if a.rem == 0 {
          WalkEnds(buf, a.pos, a.info);
        }
        SeenStays(inet, buf, info, info1, a.info, Walk(buf, a.pos, a.rem, a.info).info);
      }
    }
  }

  lemma TooShort(inet: Inet, buf: seq<uint8>)
    requires |buf| >= 16 && |buf| < 16 + BigEndian(buf[14], buf[15])
    ensures AddressError(inet, buf) == Some(-ERR_PP2_LENGTH)
  {
  }

  lemma SeenStays(inet: Inet, buf: seq<uint8>, info: Info, info1: Info, seen: Info, seen': Info)
    requires |buf| >= 16 && AddressesSeen(inet, buf, info1, seen) && SameFixed(seen, seen')
    requires info1 == info.(local := info1.local, family := info1.family, transport := info1.transport)
    requires buf[13] / 16 == 3 ==> seen'.tlvs == seen.tlvs
    ensures AddressesSeen(inet, buf, info, seen')
  {
  }

  // ---------- the SSL flags of any sender ----------

  /** A client byte is read bit by bit, whatever its other bits: connection, certificate in the connection,
      certificate in the session; the certificate is verified if the four bytes behind it are 0. Only SSL
      vectors touch the flags. */
  lemma SslFlagsRead(buf: seq<uint8>, pos: nat, rem: uint16, info: Info, ssl: bool, conn: bool, sess: bool, rest: nat)
    requires rem > 3 && pos + rem <= |buf| && TlvStep(buf, pos, rem, info).Next?
    requires buf[pos] == 0x20 ==>
               buf[pos + 3] == 8 * rest + (if sess then 4 else 0) + (if conn then 2 else 0) + (if ssl then 1 else 0)
    ensures var s := TlvStep(buf, pos, rem, info);
            if buf[pos] != 0x20 then
              s.info.ssl == info.ssl
            else
              && pos + 8 <= |buf|
              && s.info.ssl == SslInfo(ssl, conn, sess, buf[pos + 4..pos + 8] == [0, 0, 0, 0])
  {
    hide U16At, SslStep, CrcStep, StoreStep, AsciiStep;
    var n, at := U16At(buf, pos + 1), pos + 3;
    PlainStepsKeepFlags(buf, buf[pos], at, n, pos + rem, info);
    if buf[pos] == 0x20 {
      SslStepFlags(buf, at, n, info);
      ClientBits(buf[at], ssl, conn, sess, rest);
    }
  }

  lemma ClientBits(client: nat, ssl: bool, conn: bool, sess: bool, rest: nat)
    requires client == 8 * rest + (if sess then 4 else 0) + (if conn then 2 else 0) + (if ssl then 1 else 0)
    ensures (client % 2 == 1 <==> ssl) && (client / 2 % 2 == 1 <==> conn) && (client / 4 % 2 == 1 <==> sess)
  {
    var quarter := 2 * rest + (if sess then 1 else 0);
    var half := 2 * quarter + (if conn then 1 else 0);
    HalfIs(client, half, ssl);
    HalfIs(half, quarter, conn);
    HalfIs(quarter, rest, sess);
    assert client / 4 == client / 2 / 2;
  }

  lemma HalfIs(n: nat, half: nat, odd: bool)
    requires n == 2 * half + (if odd then 1 else 0)
    ensures n / 2 == half && (n % 2 == 1 <==> odd)
  {
  }

  lemma SslStepFlags(buf: seq<uint8>, at: nat, n: uint16, info: Info)
    requires SslStep(buf, at, n, info).Next?
    ensures at + 5 <= |buf| && SslStep(buf, at, n, info).info.ssl == FlagsOf(buf[at], buf[at + 1..at + 5])
  {
    hide SslLoop, FlagsOf;
    var info1 := info.(ssl := FlagsOf(buf[at], buf[at + 1..at + 5]));
    SslLoopKeepsFixed(buf, at + 5, 0, U16(n - 5), info1, false, {});
  }

  lemma PlainStepsKeepFlags(buf: seq<uint8>, kind: uint8, at: nat, n: uint16, end: nat, info: Info)
    ensures StoreStep(buf, kind, at, n, info).info.ssl == info.ssl
    ensures AsciiStep(buf, kind, at, n, info).info.ssl == info.ssl
    ensures end <= |buf| && (n == 4 ==> at + 4 <= end) ==> CrcStep(buf, at, n, end, info).info.ssl == info.ssl
  {
    hide Crc.Checksum, ZeroFour;
  }

  // ---------- the version a connection must have ----------

  /** A version sub-vector is stored from `from` on. */
  ghost predicate VersionFrom(ts: seq<TlvVector>, from: nat) {
    exists i :: from <= i < |ts| && ts[i].kind == 0x21
  }

  lemma VersionStays(ts: seq<TlvVector>, t: TlvVector, from: nat)
    ensures VersionFrom(ts + [t], from) <==> VersionFrom(ts, from) || (from <= |ts| && t.kind == 0x21)
  {
    if VersionFrom(ts, from) {
      var i :| from <= i < |ts| && ts[i].kind == 0x21;
      assert (ts + [t])[i].kind == 0x21;
    }
    assert (ts + [t])[|ts|] == t;
  }

  lemma SubStepStores(buf: seq<uint8>, base: nat, offset: uint16, info: Info)
    ensures var s := SubTlvStep(buf, base, offset, info);
            s.SubNext? ==>
              && |s.info.tlvs| == |info.tlvs| + 1 && s.info.ssl == info.ssl
              && s.info.tlvs == info.tlvs + [s.info.tlvs[|info.tlvs|]]
              && (s.isVersion <==> s.info.tlvs[|info.tlvs|].kind == 0x21)
  {
    hide U16At, U16;
  }

  /** The inner loop passes on a connection only with a version sub-vector. */
  lemma {:induction false} SslLoopNeedsVersion(buf: seq<uint8>, base: nat, offset: uint16, len: uint16, info: Info,
                                               found: bool, seen: set<nat>, from: nat)
    requires from <= |info.tlvs| && (found <==> VersionFrom(info.tlvs, from))
    ensures var (outcome, info') := SslLoop(buf, base, offset, len, info, found, seen);
            && |info'.tlvs| >= |info.tlvs| && info'.tlvs[..|info.tlvs|] == info.tlvs
            && (outcome == None && info.ssl.ssl ==> VersionFrom(info'.tlvs, from))
    decreases Unseen(seen)
  {
    hide SubTlvStep, VersionFrom;
    if offset < len && offset !in seen {
      SubStepStores(buf, base, offset, info);
      var s := SubTlvStep(buf, base, offset, info);
      if s.SubNext? {
        var t := s.info.tlvs[|info.tlvs|];
        VersionStays(info.tlvs, t, from);
        UnseenShrinks(seen, offset);
        SslLoopNeedsVersion(buf, base, s.offset, len, s.info, found || s.isVersion, seen + {offset as nat}, from);
        var after := SslLoop(buf, base, s.offset, len, s.info, found || s.isVersion, seen + {offset as nat}).1;
        assert after.tlvs[..|info.tlvs|] == after.tlvs[..|s.info.tlvs|][..|info.tlvs|];
      }
    }
  }

  lemma NoneFrom(ts: seq<TlvVector>)
    ensures !VersionFrom(ts, |ts|)
  {
  }

  /** An SSL vector of any sender that passes with its connection bit set has stored a version. */
  lemma SslVectorStoresVersion(buf: seq<uint8>, pos: nat, rem: uint16, info: Info)
    requires rem > 3 && pos + rem <= |buf| && TlvStep(buf, pos, rem, info).Next?
    requires buf[pos] == 0x20 && buf[pos + 3] % 2 == 1
    ensures VersionFrom(TlvStep(buf, pos, rem, info).info.tlvs, |info.tlvs|)
  {
    hide U16At, SslLoop, VersionFrom;
    var n, at := U16At(buf, pos + 1), pos + 3;
    if at + 5 <= |buf| {
      var info1 := info.(ssl := FlagsOf(buf[at], buf[at + 1..at + 5]));
      NoneFrom(info.tlvs);
      SslLoopNeedsVersion(buf, at + 5, 0, U16(n as int - 5), info1, false, {}, |info.tlvs|);
    }
  }

  lemma VersionKept(buf: seq<uint8>, pos: nat, rem: uint16, info: Info)
    requires rem > 3 && pos + rem <= |buf| && TlvStep(buf, pos, rem, info).Next?
    requires info.ssl.ssl ==> VersionFrom(info.tlvs, 0)
    ensures var seen := TlvStep(buf, pos, rem, info).info;
            seen.ssl.ssl ==> VersionFrom(seen.tlvs, 0)
  {
    var n, at, seen := U16At(buf, pos + 1), pos + 3, TlvStep(buf, pos, rem, info).info;
    if buf[pos] == 0x20 {
      hide TlvStep, KindStep, U16At;
      SslBit(buf, pos, rem, info);
      if seen.ssl.ssl {
        SslVectorStoresVersion(buf, pos, rem, info);
      }
    } else {
      hide U16At, SslStep, Crc.Checksum, ZeroFour, VersionFrom;
      PlainStepsKeepFlags(buf, buf[pos], at, n, pos + rem, info);
      if |seen.tlvs| > |info.tlvs| {
        VersionStays(info.tlvs, seen.tlvs[|info.tlvs|], 0);
        assert seen.tlvs == info.tlvs + [seen.tlvs[|info.tlvs|]];
      }
    }
  }

  lemma SslBit(buf: seq<uint8>, pos: nat, rem: uint16, info: Info)
    requires rem > 3 && pos + rem <= |buf| && TlvStep(buf, pos, rem, info).Next? && buf[pos] == 0x20
    ensures TlvStep(buf, pos, rem, info).info.ssl.ssl <==> buf[pos + 3] % 2 == 1
  {
    hide U16At, SslStep;
    SslStepFlags(buf, pos + 3, U16At(buf, pos + 1), info);
  }

  lemma {:induction false} WalkNeedsVersion(buf: seq<uint8>, pos: nat, rem: uint16, info: Info)
    requires pos + rem <= |buf| && (info.ssl.ssl ==> VersionFrom(info.tlvs, 0))
    ensures var r := Walk(buf, pos, rem, info);
            r.outcome.Length? && r.info.ssl.ssl ==> VersionFrom(r.info.tlvs, 0)
    decreases rem
  {
    hide TlvStep, Walk, VersionFrom;
    WalkUnfolds(buf, pos, rem, info);
    if rem > 3 {
      StepKeepsFixed(buf, pos, rem, info);
      var s := TlvStep(buf, pos, rem, info);
      if s.Next? && s.offset > 0 {
        VersionKept(buf, pos, rem, info);
        WalkNeedsVersion(s.buf, pos + s.offset, rem - s.offset, s.info);
      }
    }
  }

  /** So a header of any sender that is accepted with the connection flag set has left a version. */
  lemma ConnectionHasVersion(inet: Inet, buf: seq<uint8>)
    requires |buf| >= 16
    ensures var r := Parse(inet, buf, CLEARED);
            r.outcome.Length? && r.info.ssl.ssl ==> exists i :: 0 <= i < |r.info.tlvs| && r.info.tlvs[i].kind == 0x21
  {
    hide Walk, U16At;
    FixedNibbles(buf, CLEARED);
    var info, len := FixedBytes(buf, CLEARED).info, U16At(buf, 14);
    if |buf| >= 16 + len as int && FixedBytes(buf, CLEARED).Accepted? {
      AddressesKeepFixed(inet, buf, len, info);
      var a := Addresses(inet, buf, len, info);
      if a.Vectors? {
        WalkNeedsVersion(buf, a.pos, a.rem, a.info);
      }
    }
  }

  /** Sub-vectors that fill the value are accepted exactly if there is a version among them or no connection
      bit asks for one. */
  lemma SslAcceptedExactly(buf: seq<uint8>, base: nat, info: Info, ts: seq<TlvVector>)
    requires AllSubs(ts) && |TlvsBytes(ts)| <= 0xFFFF && Starts(buf, base, TlvsBytes(ts))
    requires ts != [] && ts[|ts| - 1].kind != 0x22 ==> base + |TlvsBytes(ts)| < |buf|
    ensures var (outcome, info') := SslLoop(buf, base, 0, |TlvsBytes(ts)|, info, false, {});
            if info.ssl.ssl && !(exists t :: t in ts && t.kind == 0x21) then
              outcome == Some(Error(-ERR_PP2_TYPE_SSL))
            else
              outcome == None && info' == info.(tlvs := info.tlvs + SubsReceived(ts))
  {
    hide SubTlvStep, TlvsBytes, SubReceived, AllSubs, HasVersion;
    HasVersionIs(ts);
    var seen := SslLoopReads(buf, base, 0, |TlvsBytes(ts)|, info, false, {}, ts);
  }

  lemma {:induction false} HasVersionIs(ts: seq<TlvVector>)
    ensures HasVersion(ts) <==> exists t :: t in ts && t.kind == 0x21
  {
    if ts != [] {
      HasVersionIs(ts[1..]);
      assert ts == [ts[0]] + ts[1..];
      assert ts[0] in ts;
    }
  }
}
