/** Parsing a version 2 header (asio_server/proxy_protocol.cpp:808-1094).
    `Parse` says what one call does to the buffer and to the cleared `pp_info_t`; `ParseHdr` is the
    function itself and is proved to do exactly that. */
module ProxyV2Parse {
  import opened MachineTypes
  import opened Wrappers
  import opened Memory
  import opened ProxyInfo
  import opened ProxyVectors
  import Crc = Crc32c

  /** How a call ends. `Overread`: the source reads beyond the buffer it was given. `Overrun`: it
      writes beyond a block it has allocated. `Endless`: it never returns. */
  datatype Outcome =
    | Length(length: nat)
    | Error(code: int)
    | Overread
    | Overrun
    | Endless

  datatype Parsed = Parsed(outcome: Outcome, buf: seq<uint8>, info: Info)

  /** One turn of the TLV loop: go on after `offset` bytes, or return. */
  datatype Step =
    | Next(buf: seq<uint8>, info: Info, offset: uint16)
    | Stop(outcome: Outcome, buf: seq<uint8>, info: Info)

  function Append(info: Info, kind: uint8, value: seq<uint8>): Info
    requires |value| < 0x1_0000
  {
    info.(tlvs := info.tlvs + [Tlv(kind, value)])
  }

  function U16At(buf: seq<uint8>, i: nat): uint16
    requires i + 2 <= |buf|
  {
    var high: int := buf[i];
    high * 256 + buf[i + 1]
  }

  // ---------- the SSL sub-vectors (lines 997-1043) ----------

  predicate IsAsciiSubtype(kind: uint8) {
    kind == SUBTYPE_SSL_VERSION || kind == SUBTYPE_SSL_CIPHER || kind == SUBTYPE_SSL_SIG_ALG
          || kind == SUBTYPE_SSL_KEY_ALG
  }

  /** One turn of the inner loop. */
  datatype SubStep =
    | SubNext(info: Info, offset: uint16, isVersion: bool)
    | SubStop(outcome: Outcome)

  /** What `tlv_array_append_tlv_new_usascii` does with a value at `at`: it copies one byte more than
      the value has and replaces that byte by a NUL. At 65535 bytes `length + 1` is 0 in 16 bits. */
  datatype AsciiCopy = Copied(value: seq<uint8>) | Failed(outcome: Outcome)

  function CopyAscii(buf: seq<uint8>, at: nat, n: uint16): (c: AsciiCopy)
    ensures c.Copied? ==> n < 0xFFFF && at + n < |buf| && c.value == buf[at..at + n] + [0]
  {
    if n == 0xFFFF then Failed(Overrun)
    else if at + n >= |buf| then Failed(Overread)
    else Copied(buf[at..at + n] + [0])
  }

  /** The value at `at` is stored and the loop goes on at `next`. */
  function SubKindStep(buf: seq<uint8>, kind: uint8, at: nat, n: uint16, next: uint16, info: Info): SubStep {
    if kind == SUBTYPE_SSL_CN then
      if at + n > |buf| then SubStop(Overread)
      else SubNext(Append(info, kind, buf[at..at + n]), next, false)
    else if IsAsciiSubtype(kind) then
      match CopyAscii(buf, at, n)
      case Failed(outcome) => SubStop(outcome)
      case Copied(value) => SubNext(Append(info, kind, value), next, kind == SUBTYPE_SSL_VERSION)
    else
      SubStop(Error(-ERR_PP2_TYPE_SSL))
  }

  function SubTlvStep(buf: seq<uint8>, base: nat, offset: uint16, info: Info): SubStep {
    if base + offset + 3 > |buf| then
      SubStop(Overread)
    else
      var n := U16At(buf, base + offset + 1);
      SubKindStep(buf, buf[base + offset], base + offset + 3, n, U16(offset + 3 + n as int), info)
  }

  /** The 16-bit offsets the inner loop has not been at. */
  ghost function Unseen(seen: set<nat>): set<nat> {
    set o: nat | o < 0x1_0000 && o !in seen
  }

  lemma UnseenShrinks(seen: set<nat>, offset: uint16)
    requires offset !in seen
    ensures Unseen(seen + {offset as nat}) < Unseen(seen)
  {
    assert offset in Unseen(seen) && offset !in Unseen(seen + {offset as nat});
  }

  /** The inner loop at `offset`; the sub-vectors start at `base`. The result says whether the
      loop and the test behind it pass. `seen` are the offsets the loop has been at: the offset can
      wrap around, and at an offset it has been at before the loop never ends. */
  function SslLoop(buf: seq<uint8>, base: nat, offset: uint16, len: uint16, info: Info, versionFound: bool,
                   seen: set<nat>): (Option<Outcome>, Info)
    decreases Unseen(seen)
  {
    if offset >= len then
      (if offset > len || (info.ssl.ssl && !versionFound) then Some(Error(-ERR_PP2_TYPE_SSL)) else None, info)
    else if offset in seen then
      (Some(Endless), info)
    else
      match SubTlvStep(buf, base, offset, info)
      case SubStop(outcome) => (Some(outcome), info)
      case SubNext(info', offset', isVersion) =>
        UnseenShrinks(seen, offset);
        SslLoop(buf, base, offset', len, info', versionFound || isVersion, seen + {offset as nat})
  }

  function FlagsOf(client: uint8, verify: seq<uint8>): SslInfo {
    SslInfo(client % 2 == 1, client / 2 % 2 == 1, client / 4 % 2 == 1, verify == [0, 0, 0, 0])
  }

  /** `at` is where the value starts. A value shorter than 5 bytes makes the sub-vector length wrap. */
  function SslStep(buf: seq<uint8>, at: nat, n: uint16, info: Info): Step
  {
    if at + 5 > |buf| then
      Stop(Overread, buf, info)
    else
      var info1 := info.(ssl := FlagsOf(buf[at], buf[at + 1..at + 5]));
      var (outcome, info') := SslLoop(buf, at + 5, 0, U16(n - 5), info1, false, {});
      match outcome
      case None => Next(buf, info', U16(3 + n as int))
      case Some(o) => Stop(o, buf, info')
  }

  // ---------- the TLV loop (lines 938-1091) ----------

  function ZeroFour(buf: seq<uint8>, at: nat): (b: seq<uint8>)
    requires at + 4 <= |buf|
    ensures |b| == |buf|
  {
    buf[..at] + [0, 0, 0, 0] + buf[at + 4..]
  }

  function CrcStep(buf: seq<uint8>, at: nat, n: uint16, end: nat, info: Info): Step
    requires end <= |buf| && (n == 4 ==> at + 4 <= end)
  {
    if n != 4 then
      Stop(Error(-ERR_PP2_TYPE_CRC32C), buf, info)
    else
      var zeroed := ZeroFour(buf, at);
      if buf[at..at + 4] != Crc.Checksum(zeroed[..end]) then
        Stop(Error(-ERR_PP2_TYPE_CRC32C), zeroed, info)
      else
        Next(zeroed, Append(info, TYPE_CRC32C, buf[at..at + 4]).(crc32c := true), 7)
  }

  /** The value is copied as it is. */
  function StoreStep(buf: seq<uint8>, kind: uint8, at: nat, n: uint16, info: Info): Step
  {
    if at + n > |buf| then Stop(Overread, buf, info)
    else Next(buf, Append(info, kind, buf[at..at + n]), U16(3 + n as int))
  }

  /** The value is copied with a NUL behind it. */
  function AsciiStep(buf: seq<uint8>, kind: uint8, at: nat, n: uint16, info: Info): Step
  {
    match CopyAscii(buf, at, n)
    case Failed(outcome) => Stop(outcome, buf, info)
    case Copied(value) => Next(buf, Append(info, kind, value), U16(3 + n as int))
  }

  /** The `switch` of lines 948-1088 on an accepted vector that ends the region at `end`. */
  function KindStep(buf: seq<uint8>, kind: uint8, at: nat, n: uint16, end: nat, info: Info): Step
    requires at < end <= |buf| && (n == 4 ==> at + 4 <= end)
  {
    if kind == TYPE_ALPN || kind == TYPE_AUTHORITY then
      StoreStep(buf, kind, at, n, info)
    else if kind == TYPE_CRC32C then
      CrcStep(buf, at, n, end, info)
    else if kind == TYPE_UNIQUE_ID then
      if n > 128 then Stop(Error(-ERR_PP2_TYPE_UNIQUE_ID), buf, info) else StoreStep(buf, kind, at, n, info)
    else if kind == TYPE_SSL then
      SslStep(buf, at, n, info)
    else if kind == TYPE_NETNS then
      AsciiStep(buf, kind, at, n, info)
    else if kind == TYPE_AWS && n < 2 then
      Stop(Error(-ERR_PP2_TYPE_AWS), buf, info)
    else if kind == TYPE_AWS && buf[at] == 0x01 then
      AsciiStep(buf, kind, at, n, info)
    else if kind == TYPE_AZURE && n < 5 then
      Stop(Error(-ERR_PP2_TYPE_AZURE), buf, info)
    else if kind == TYPE_AZURE && buf[at] == 0x01 then
      StoreStep(buf, kind, at, n, info)
    else
      Next(buf, info, U16(3 + n as int))
  }

  /** One turn at `pos`, with `rem` bytes left before the end of the region. */
  function TlvStep(buf: seq<uint8>, pos: nat, rem: uint16, info: Info): Step
    requires rem > 3 && pos + rem <= |buf|
  {
    var n := U16At(buf, pos + 1);
    if U16(3 + n as int) > rem then
      Stop(Error(-ERR_PP2_TLV_LENGTH), buf, info)
    else
      KindStep(buf, buf[pos], pos + 3, n, pos + rem, info)
  }

  /** An accepted vector moves the loop on by its size in 16 bits and never past the end of the
      region; one of at most 65532 bytes lies inside the declared region. */
  lemma StepStaysInside(buf: seq<uint8>, pos: nat, rem: uint16, info: Info)
    requires rem > 3 && pos + rem <= |buf|
    ensures var s, n := TlvStep(buf, pos, rem, info), U16At(buf, pos + 1);
            s.Next? ==> && s.offset == U16(3 + n as int) <= rem && |s.buf| == |buf|
                        && (n <= 0xFFFC ==> s.offset == 3 + n as int && pos + 3 + n as int <= pos + rem)
  {
    hide U16At, SslLoop, Crc.Checksum;
  }

  /** The loop. A turn that moves on by 0 bytes is repeated for ever. */
  function Walk(buf: seq<uint8>, pos: nat, rem: uint16, info: Info): Parsed
    requires pos + rem <= |buf|
    decreases rem
  {
    if rem <= 3 then
      Parsed(Length(pos + rem), buf, info)
    else
      StepStaysInside(buf, pos, rem, info);
      match TlvStep(buf, pos, rem, info)
      case Next(buf', info', offset) =>
        if offset == 0 then Parsed(Endless, buf', info') else Walk(buf', pos + offset, rem - offset, info')
      case Stop(outcome, buf', info') => Parsed(outcome, buf', info')
  }

  lemma WalkUnfolds(buf: seq<uint8>, pos: nat, rem: uint16, info: Info)
    requires pos + rem <= |buf|
    ensures rem <= 3 ==> Walk(buf, pos, rem, info) == Parsed(Length(pos + rem), buf, info)
    ensures rem > 3 ==>
              match TlvStep(buf, pos, rem, info)
              case Next(buf', info', offset) =>
                && offset <= rem && |buf'| == |buf|
                && Walk(buf, pos, rem, info) ==
                   if offset == 0 then Parsed(Endless, buf', info') else Walk(buf', pos + offset, rem - offset, info')
              case Stop(outcome, buf', info') => Walk(buf, pos, rem, info) == Parsed(outcome, buf', info')
  {
    hide TlvStep;
    if rem > 3 {
      StepStaysInside(buf, pos, rem, info);
    }
  }

  // ---------- the fixed part (lines 813-934) ----------

  /** The address block: where the vectors start and how many bytes they have, or an error. */
  datatype Addressed =
    | Vectors(info: Info, pos: nat, rem: uint16)
    | Refused(code: int, info: Info)

  function InetAddresses(src: Option<seq<uint8>>, dst: Option<seq<uint8>>, ports: seq<uint8>, info: Info, pos: nat,
          rem: uint16, srcError: int, dstError: int): Addressed
    requires |ports| == 4
  {
    if src.None? then
      Refused(-srcError, info)
    else if dst.None? then
      Refused(-dstError, info.(src := src.value))
    else
      Vectors(info.(src := src.value, dst := dst.value, srcPort := U16At(ports, 0), dstPort := U16At(ports, 2)), pos,
            rem)
  }

  function Addresses(inet: Inet, buf: seq<uint8>, len: uint16, info: Info): Addressed
    requires 16 + len <= |buf|
  {
    if info.family == ADDR_FAMILY_UNSPEC then
      Vectors(info, 16, len)
    else if info.family == ADDR_FAMILY_INET && len >= 12 then
      InetAddresses(inet.ntop4(buf[16..20]), inet.ntop4(buf[20..24]), buf[24..28], info, 28, len - 12,
                    ERR_PP2_IPV4_SRC_IP, ERR_PP2_IPV4_DST_IP)
    else if info.family == ADDR_FAMILY_INET6 && len >= 36 then
      InetAddresses(inet.ntop6(buf[16..32]), inet.ntop6(buf[32..48]), buf[48..52], info, 52, len - 36,
                    ERR_PP2_IPV6_SRC_IP, ERR_PP2_IPV6_DST_IP)
    else if info.family == ADDR_FAMILY_UNIX && len >= 216 then
      // The vectors behind these addresses are never looked at.
      Vectors(info.(src := buf[16..124], dst := buf[124..232]), 16 + len, 0)
    else
      Refused(-ERR_PP2_LENGTH, info)
  }

  /** Version, command, family and transport. */
  datatype Fixed =
    | Accepted(info: Info)
    | Rejected(code: int, info: Info)

  function FixedBytes(buf: seq<uint8>, info: Info): Fixed
    requires |buf| >= 16
  {
    if buf[12] / 16 != 2 then
      Rejected(-ERR_PP2_VERSION, info)
    else if buf[12] % 16 > 1 then
      Rejected(-ERR_PP2_CMD, info)
    else
      var info1 := info.(local := buf[12] % 16 == 0, family := buf[13] / 16);
      var info2 := info1.(transport := buf[13] % 16);
      if info1.family > ADDR_FAMILY_UNIX then
        Rejected(-ERR_PP2_ADDR_FAMILY, info1)
      else if info2.transport > TRANSPORT_PROTOCOL_DGRAM then
        Rejected(-ERR_PP2_TRANSPORT_PROTOCOL, info2)
      else
        Accepted(info2)
  }

  function ParseRest(inet: Inet, buf: seq<uint8>, info: Info): Parsed
    requires |buf| >= 16
  {
    var len := U16At(buf, 14);
    if |buf| < 16 + len then
      Parsed(Error(-ERR_PP2_LENGTH), buf, info)
    else
      match Addresses(inet, buf, len, info)
      case Refused(code, info') => Parsed(Error(code), buf, info')
      case Vectors(info', pos, rem) => Walk(buf, pos, rem, info')
  }

  /** What `pp2_parse_hdr` does with a buffer and a structure. */
  function Parse(inet: Inet, buf: seq<uint8>, info: Info): Parsed
    requires |buf| >= 16
  {
    match FixedBytes(buf, info)
    case Rejected(code, info') => Parsed(Error(code), buf, info')
    case Accepted(info') => ParseRest(inet, buf, info')
  }

  // ---------- the function itself ----------

  /** What one call, or one turn, may change: the structure and a TLV array that is its own. */
  twostate predicate Kept(info: PpInfo)
    reads info, info.tlvArray
  {
    info.Valid() && (info.tlvArray.tlvs == old(info.tlvArray.tlvs) || fresh(info.tlvArray.tlvs))
  }

  /** `tlv_array_append_tlv_new_usascii` on a value inside the buffer. */
  method AppendAscii(buffer: array<uint8>, kind: uint8, at: nat, n: uint16, info: PpInfo)
        returns (failed: Option<Outcome>)
    requires info.Valid()
    modifies info.tlvArray, info.tlvArray.tlvs
    ensures Kept(info)
    ensures match CopyAscii(buffer[..], at, n)
            case Failed(o) => failed == Some(o) && info.Value() == old(info.Value())
            case Copied(value) => failed == None && info.Value() == Append(old(info.Value()), kind, value)
  {
    if n == 0xFFFF {
      return Some(Overrun);
    }
    if at + n >= buffer.Length {
      return Some(Overread);
    }
    info.AppendNew(kind, buffer[at..at + n] + [0]);
    failed := None;
  }

  /** `tlv_array_append_tlv_new` on a value inside the buffer. */
  method AppendValue(buffer: array<uint8>, kind: uint8, at: nat, n: uint16, info: PpInfo)
        returns (failed: Option<Outcome>)
    requires info.Valid()
    modifies info.tlvArray, info.tlvArray.tlvs
    ensures Kept(info)
    ensures match StoreStep(buffer[..], kind, at, n, old(info.Value()))
            case Next(_, value, _) => failed == None && info.Value() == value
            case Stop(o, _, value) => failed == Some(o) && info.Value() == value
  {
    if at + n > buffer.Length {
      return Some(Overread);
    }
    info.AppendNew(kind, buffer[at..at + n]);
    failed := None;
  }

  method ReadLength(buffer: array<uint8>, i: nat) returns (n: uint16)
    requires i + 2 <= buffer.Length
    ensures n == U16At(buffer[..], i)
  {
    var high: int := buffer[i];
    n := high * 256 + buffer[i + 1];
  }

  /** Lines 1014-1034: the sub-vector by its type. */
  method ParseSubKind(buffer: array<uint8>, kind: uint8, at: nat, n: uint16, info: PpInfo)
      returns (outcome: Option<Outcome>, isVersion: bool)
    requires info.Valid()
    modifies info.tlvArray, info.tlvArray.tlvs
    ensures Kept(info)
    ensures match SubKindStep(buffer[..], kind, at, n, 0, old(info.Value()))
            case SubNext(value, _, v) => outcome == None && info.Value() == value && isVersion == v
            case SubStop(o) => outcome == Some(o) && info.Value() == old(info.Value())
  {
    hide CopyAscii;
    outcome, isVersion := None, false;
    if IsAsciiSubtype(kind) {
      isVersion := kind == SUBTYPE_SSL_VERSION;
      outcome := AppendAscii(buffer, kind, at, n, info);
    } else if kind == SUBTYPE_SSL_CN {
      outcome := AppendValue(buffer, kind, at, n, info);
    } else {
      outcome := Some(Error(-ERR_PP2_TYPE_SSL));
    }
  }

  lemma NextDoesNotMatter(buf: seq<uint8>, kind: uint8, at: nat, n: uint16, next: uint16, info: Info)
    ensures match SubKindStep(buf, kind, at, n, 0, info)
            case SubNext(value, _, v) => SubKindStep(buf, kind, at, n, next, info) == SubNext(value, next, v)
            case SubStop(o) => SubKindStep(buf, kind, at, n, next, info) == SubStop(o)
  {
  }

  /** Lines 1012-1036: one turn of the inner loop. */
  method ParseSubTlv(buffer: array<uint8>, base: nat, offset: uint16, info: PpInfo)
      returns (outcome: Option<Outcome>, offset': uint16, isVersion: bool)
    requires info.Valid()
    modifies info.tlvArray, info.tlvArray.tlvs
    ensures Kept(info)
    ensures match SubTlvStep(buffer[..], base, offset, old(info.Value()))
            case SubNext(value, o, v) => outcome == None && info.Value() == value && offset' == o && isVersion == v
            case SubStop(o) => outcome == Some(o) && info.Value() == old(info.Value())
  {
    hide SubKindStep, U16At, U16;
    if base + offset as int + 3 > buffer.Length {
      return Some(Overread), 0, false;
    }
    var start: int := base + offset;
    var n := ReadLength(buffer, start + 1);
    offset' := U16(offset as int + 3 + n as int);
    NextDoesNotMatter(buffer[..], buffer[start], start + 3, n, offset', info.Value());
    outcome, isVersion := ParseSubKind(buffer, buffer[start], start + 3, n, info);
  }

  /** Lines 1007-1041: the inner loop and the test behind it. Where the source loops for ever, this
      method returns `Endless` at the first offset it sees again. */
  method ParseSsl(buffer: array<uint8>, base: nat, len: uint16, info: PpInfo) returns (outcome: Option<Outcome>)
    requires info.Valid()
    modifies info.tlvArray, info.tlvArray.tlvs
    ensures Kept(info)
    ensures (outcome, info.Value()) == SslLoop(buffer[..], base, 0, len, old(info.Value()), false, {})
  {
    hide SubTlvStep;
    var versionFound := false;
    var offset: uint16 := 0;
    var seen: set<nat> := {};
    while offset < len
      invariant Kept(info)
      invariant SslLoop(buffer[..], base, offset, len, info.Value(), versionFound, seen) ==
                SslLoop(buffer[..], base, 0, len, old(info.Value()), false, {})
      decreases Unseen(seen)
    {
      if offset in seen {
        return Some(Endless);
      }
      var stop, offset', isVersion := ParseSubTlv(buffer, base, offset, info);
      if stop.Some? {
        return stop;
      }
      UnseenShrinks(seen, offset);
      seen := seen + {offset as nat};
      offset, versionFound := offset', versionFound || isVersion;
    }
    if offset > len || (info.ssl.ssl && !versionFound) {
      outcome := Some(Error(-ERR_PP2_TYPE_SSL));
    } else {
      outcome := None;
    }
  }

  /** Lines 997-1043. */
  method ParseSslTlv(buffer: array<uint8>, at: nat, n: uint16, info: PpInfo) returns (outcome: Option<Outcome>)
    requires info.Valid()
    modifies info, info.tlvArray, info.tlvArray.tlvs
    ensures Kept(info)
    ensures match SslStep(buffer[..], at, n, old(info.Value()))
            case Next(buf, value, offset) =>
              outcome == None && buffer[..] == buf && info.Value() == value && offset == U16(3 + n as int)
            case Stop(o, buf, value) => outcome == Some(o) && buffer[..] == buf && info.Value() == value
  {
    hide SslLoop;
    if at + 5 > buffer.Length {
      return Some(Overread);
    }
    info.ssl := FlagsOf(buffer[at], buffer[at + 1..at + 5]);
    outcome := ParseSsl(buffer, at + 5, U16(n - 5), info);
  }

  /** Line 969: the four checksum bytes become zero. */
  method ZeroChecksum(buffer: array<uint8>, at: nat)
    requires at + 4 <= buffer.Length
    modifies buffer
    ensures buffer[..] == ZeroFour(old(buffer[..]), at)
  {
    Memcpy(buffer, at, [0, 0, 0, 0]);
    assert buffer[..] == buffer[..at + 4] + buffer[at + 4..];
  }

  /** Lines 957-984. */
  method ParseCrc(buffer: array<uint8>, at: nat, n: uint16, end: nat, info: PpInfo) returns (outcome: Option<Outcome>)
    requires info.Valid() && end <= buffer.Length && (n == 4 ==> at + 4 <= end)
    modifies buffer, info, info.tlvArray, info.tlvArray.tlvs
    ensures Kept(info)
    ensures match CrcStep(old(buffer[..]), at, n, end, old(info.Value()))
            case Next(buf, value, offset) =>
              outcome == None && buffer[..] == buf && info.Value() == value && offset == U16(3 + n as int)
            case Stop(o, buf, value) => outcome == Some(o) && buffer[..] == buf && info.Value() == value
  {
    hide ZeroFour, Crc.Serial, Crc.Octets;
    if n != 4 {
      return Some(Error(-ERR_PP2_TYPE_CRC32C));
    }
    var received := buffer[at..at + 4];
    assert received == old(buffer[..])[at..at + 4];
    ZeroChecksum(buffer, at);
    var crc := Crc.Crc32c(buffer, end);
    assert buffer[..end] == buffer[..][..end];
    if received != Crc.Octets(crc) {
      return Some(Error(-ERR_PP2_TYPE_CRC32C));
    }
    info.AppendNew(TYPE_CRC32C, received);
    info.crc32c := true;
    outcome := None;
  }

  /** Lines 948-1088: the `switch`. */
  method ParseKind(buffer: array<uint8>, kind: uint8, at: nat, n: uint16, end: nat, info: PpInfo)
      returns (outcome: Option<Outcome>)
    requires info.Valid() && at < end <= buffer.Length && (n == 4 ==> at + 4 <= end)
    modifies buffer, info, info.tlvArray, info.tlvArray.tlvs
    ensures Kept(info)
    ensures match KindStep(old(buffer[..]), kind, at, n, end, old(info.Value()))
            case Next(buf, value, o) =>
              outcome == None && buffer[..] == buf && info.Value() == value && o == U16(3 + n as int)
            case Stop(o, buf, value) => outcome == Some(o) && buffer[..] == buf && info.Value() == value
  {
    hide CrcStep, SslStep, CopyAscii;
    outcome := None;
    if kind == TYPE_ALPN || kind == TYPE_AUTHORITY {
      outcome := AppendValue(buffer, kind, at, n, info);
    } else if kind == TYPE_CRC32C {
      outcome := ParseCrc(buffer, at, n, end, info);
    } else if kind == TYPE_UNIQUE_ID {
      if n > 128 {
        return Some(Error(-ERR_PP2_TYPE_UNIQUE_ID));
      }
      outcome := AppendValue(buffer, kind, at, n, info);
    } else if kind == TYPE_SSL {
      outcome := ParseSslTlv(buffer, at, n, info);
    } else if kind == TYPE_NETNS {
      outcome := AppendAscii(buffer, kind, at, n, info);
    } else if kind == TYPE_AWS {
      if n < 2 {
        return Some(Error(-ERR_PP2_TYPE_AWS));
      }
      if buffer[at] == 0x01 {
        outcome := AppendAscii(buffer, kind, at, n, info);
      }
    } else if kind == TYPE_AZURE {
      if n < 5 {
        return Some(Error(-ERR_PP2_TYPE_AZURE));
      }
      if buffer[at] == 0x01 {
        outcome := AppendValue(buffer, kind, at, n, info);
      }
    }
  }

  /** Lines 940-1089: one turn of the TLV loop; `None` when the loop goes on. */
  method ParseTlv(buffer: array<uint8>, pos: nat, rem: uint16, info: PpInfo)
      returns (outcome: Option<Outcome>, offset: uint16)
    requires info.Valid() && rem > 3 && pos + rem <= buffer.Length
    modifies buffer, info, info.tlvArray, info.tlvArray.tlvs
    ensures Kept(info)
    ensures match TlvStep(old(buffer[..]), pos, rem, old(info.Value()))
            case Next(buf, value, o) => outcome == None && buffer[..] == buf && info.Value() == value && offset == o
            case Stop(o, buf, value) => outcome == Some(o) && buffer[..] == buf && info.Value() == value
  {
    hide KindStep, U16At;
    StepStaysInside(buffer[..], pos, rem, info.Value());
    var n := ReadLength(buffer, pos + 1);
    offset := U16(3 + n as int);
    if offset > rem {
      return Some(Error(-ERR_PP2_TLV_LENGTH)), 0;
    }
    outcome := ParseKind(buffer, buffer[pos], pos + 3, n, pos + rem, info);
  }

  /** Lines 938-1093. Where the source loops for ever, this method returns `Endless`. */
  method ParseTlvs(buffer: array<uint8>, start: nat, len: uint16, info: PpInfo) returns (outcome: Outcome)
    requires info.Valid() && start + len <= buffer.Length
    modifies buffer, info, info.tlvArray, info.tlvArray.tlvs
    ensures Kept(info)
    ensures Parsed(outcome, buffer[..], info.Value()) == Walk(old(buffer[..]), start, len, old(info.Value()))
  {
    hide TlvStep;
    var pos: int, rem: int := start, len;
    while rem > 3
      invariant Kept(info) && pos + rem == start + len && 0 <= rem <= len
      invariant Walk(buffer[..], pos, rem, info.Value()) == Walk(old(buffer[..]), start, len, old(info.Value()))
      decreases rem
    {
      StepStaysInside(buffer[..], pos, rem, info.Value());
      var stop, offset := ParseTlv(buffer, pos, rem, info);
      if stop.Some? {
        return stop.value;
      }
      if offset == 0 {
        return Endless;
      }
      pos, rem := pos + offset, rem - offset;
    }
    outcome := Length(pos + rem);
  }

  /** Lines 813-867. */
  method ParseFixed(buffer: array<uint8>, info: PpInfo) returns (rejected: Option<int>)
    requires info.Valid() && buffer.Length >= 16
    modifies info
    ensures info.Valid()
    ensures match FixedBytes(buffer[..], old(info.Value()))
            case Accepted(value) => rejected == None && info.Value() == value
            case Rejected(code, value) => rejected == Some(code) && info.Value() == value
  {
    if buffer[12] / 16 != 2 {
      return Some(-ERR_PP2_VERSION);
    }
    if buffer[12] % 16 > 1 {
      return Some(-ERR_PP2_CMD);
    }
    info.local := buffer[12] % 16 == 0;
    info.family := buffer[13] / 16;
    if info.family > ADDR_FAMILY_UNIX {
      return Some(-ERR_PP2_ADDR_FAMILY);
    }
    info.transport := buffer[13] % 16;
    if info.transport > TRANSPORT_PROTOCOL_DGRAM {
      return Some(-ERR_PP2_TRANSPORT_PROTOCOL);
    }
    rejected := None;
  }

  method ParseInet(src: Option<seq<uint8>>, dst: Option<seq<uint8>>, ports: seq<uint8>, info: PpInfo, srcError: int,
          dstError: int)
      returns (refused: Option<int>)
    requires info.Valid() && |ports| == 4
    modifies info
    ensures info.Valid()
    ensures match InetAddresses(src, dst, ports, old(info.Value()), 0, 0, srcError, dstError)
            case Vectors(value, _, _) => refused == None && info.Value() == value
            case Refused(code, value) => refused == Some(code) && info.Value() == value
  {
    if src.None? {
      return Some(-srcError);
    }
    info.src := src.value;
    if dst.None? {
      return Some(-dstError);
    }
    info.dst := dst.value;
    info.srcPort, info.dstPort := U16At(ports, 0), U16At(ports, 2);
    refused := None;
  }

  /** Lines 885-934. */
  method ParseAddresses(inet: Inet, buffer: array<uint8>, len: uint16, info: PpInfo) returns (refused: Option<int>,
          pos: nat, rem: uint16)
    requires info.Valid() && 16 + len as int <= buffer.Length
    modifies info
    ensures info.Valid()
    ensures match Addresses(inet, buffer[..], len, old(info.Value()))
            case Vectors(value, p, r) => refused == None && info.Value() == value && pos == p && rem == r
            case Refused(code, value) => refused == Some(code) && info.Value() == value
    ensures refused == None ==> pos + rem as int == 16 + len as int
  {
    hide U16At;
    refused, pos, rem := None, 16, len;
    var b := buffer[..];
    if info.family == ADDR_FAMILY_UNSPEC {
    } else if info.family == ADDR_FAMILY_INET && len >= 12 {
      refused := ParseInet(inet.ntop4(b[16..20]), inet.ntop4(b[20..24]), b[24..28], info, ERR_PP2_IPV4_SRC_IP,
            ERR_PP2_IPV4_DST_IP);
      pos, rem := 28, len - 12;
    } else if info.family == ADDR_FAMILY_INET6 && len >= 36 {
      refused := ParseInet(inet.ntop6(b[16..32]), inet.ntop6(b[32..48]), b[48..52], info, ERR_PP2_IPV6_SRC_IP,
            ERR_PP2_IPV6_DST_IP);
      pos, rem := 52, len - 36;
    } else if info.family == ADDR_FAMILY_UNIX && len >= 216 {
      info.src, info.dst := b[16..124], b[124..232];
      pos, rem := 16 + len as int, 0;
    } else {
      refused := Some(-ERR_PP2_LENGTH);
    }
  }

  /** `pp2_parse_hdr`. */
  method ParseHdr(inet: Inet, buffer: array<uint8>, info: PpInfo) returns (outcome: Outcome)
    requires info.Valid() && buffer.Length >= 16
    modifies buffer, info, info.tlvArray, info.tlvArray.tlvs
    ensures info.Valid()
    ensures Parsed(outcome, buffer[..], info.Value()) == Parse(inet, old(buffer[..]), old(info.Value()))
  {
    hide FixedBytes, Walk, Addresses, U16At;
    var rejected := ParseFixed(buffer, info);
    if rejected.Some? {
      return Error(rejected.value);
    }
    var len := ReadLength(buffer, 14);
    if buffer.Length < 16 + len as int {
      return Error(-ERR_PP2_LENGTH);
    }
    var refused, pos, rem := ParseAddresses(inet, buffer, len, info);
    if refused.Some? {
      return Error(refused.value);
    }
    outcome := ParseTlvs(buffer, pos, rem, info);
  }
}
