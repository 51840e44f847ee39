/** Which version 2 headers are created, and in which bytes (asio_server/proxy_protocol.cpp:275-368, 577-725).
    The format is that of section 2.2 of the HAProxy PROXY protocol specification. */
module ProxyV2Wire {
  import opened MachineTypes
  import opened Wrappers
  import opened Blocks
  import opened CStrings
  import opened ProxyInfo
  import opened ProxyVectors
  import opened ProxyV2Create
  import opened ProxyV2Theorems
  import Crc = Crc32c

  // ---------- when ----------

  /** What a sender must have set: a known transport, and addresses the system accepts for a known family,
      or no family for a local connection. */
  predicate Acceptable(inet: Inet, info: Info) {
    && info.transport <= 2
    && (|| (info.family == 0 && info.local)
        || (info.family == 1 && inet.pton4(CString(info.src)).Some? && inet.pton4(CString(info.dst)).Some?)
        || (info.family == 2 && inet.pton6(CString(info.src)).Some? && inet.pton6(CString(info.dst)).Some?)
        || info.family == 3)
  }

  /** A header is refused exactly when this is not so, and with the error of the first thing amiss. */
  lemma RejectedExactly(inet: Inet, info: Info)
    requires inet.Valid()
    ensures !Create(inet, info).Rejected? <==> Acceptable(inet, info)
    ensures Create(inet, info).Rejected? ==>
              Create(inet, info).error ==
              if info.family > 3 then ERR_PP2_ADDR_FAMILY
              else if info.family == 0 && !info.local then ERR_PP2_CMD
              else if info.family == 1 && inet.pton4(CString(info.src)).None? then ERR_PP2_IPV4_SRC_IP
              else if info.family == 1 && inet.pton4(CString(info.dst)).None? then ERR_PP2_IPV4_DST_IP
              else if info.family == 2 && inet.pton6(CString(info.src)).None? then ERR_PP2_IPV6_SRC_IP
              else if info.family == 2 && inet.pton6(CString(info.dst)).None? then ERR_PP2_IPV6_DST_IP
              else ERR_PP2_TRANSPORT_PROTOCOL
  {
    hide RoomFor, Written;
  }

  /** So these are the structures the theorems about created headers speak of. */
  lemma AcceptableExactly(inet: Inet, info: Info)
    ensures AddressBlock(inet, info).Success? <==> Acceptable(inet, info)
  {
  }

  // ---------- in which bytes ----------

  function BigEndian(n: nat): seq<uint8>
    requires n < 0x1_0000
  {
    [n / 256, n % 256]
  }

  lemma HeadBytes(t: TlvVector)
    ensures TlvBytes(t) == [t.kind] + BigEndian(|t.value|) + t.value
  {
  }

  /** A vector of each kind. */
  lemma VectorBytes(v: Vector)
    requires Addable(v) && !v.Ssl?
    ensures TlvBytes(Added(v)) ==
            match v
            case Alpn(b) => [0x01] + BigEndian(|b|) + b
            case Authority(b) => [0x02] + BigEndian(|b|) + b
            case UniqueId(b) => [0x05] + BigEndian(|b|) + b
            case Netns(b) => [0x30] + BigEndian(|b|) + b
            case AwsVpce(b) => [0xEA] + BigEndian(1 + |b|) + ([0x01] + b)
            case AzureLink(b) => [0xEE] + BigEndian(1 + |b|) + ([0x01] + b)
  {
    hide TlvBytes;
    HeadBytes(Added(v));
  }

  function Sub(kind: uint8, value: seq<uint8>): seq<uint8>
    requires |value| < 0x1_0000
  {
    [kind] + BigEndian(|value|) + value
  }

  /** A complete SSL vector: client byte, verify word, and the five sub-vectors. */
  lemma SslBytes(v: Vector)
    requires Addable(v) && v.Ssl? && IsComplete(v)
    ensures TlvBytes(Added(v)) ==
            [0x20] + BigEndian(20 + |v.version| + |v.cipher| + |v.sigAlg| + |v.keyAlg| + |v.cn|) +
            ([ClientBits(v.flags), if v.flags.certVerified then 0 else 1, 0, 0, 0] +
             Sub(0x21, v.version) + Sub(0x23, v.cipher) + Sub(0x24, v.sigAlg) + Sub(0x25, v.keyAlg) + Sub(0x22, v.cn))
  {
    hide TlvBytes, SslWritten, SubVector, Sub, ClientBits, ClientByte;
    SslWrittenLength(v.flags, v.version, v.cipher, v.sigAlg, v.keyAlg, v.cn);
    PpInfo.WrittenInParts(v.flags, v.version, v.cipher, v.sigAlg, v.keyAlg, v.cn);
    SubBytes(0x21, v.version);
    SubBytes(0x23, v.cipher);
    SubBytes(0x24, v.sigAlg);
    SubBytes(0x25, v.keyAlg);
    SubBytes(0x22, v.cn);
    ClientBitsWritten(v.flags);
    HeadBytes(Added(v));
  }

  lemma SubBytes(kind: uint8, value: seq<uint8>)
    requires value != [] && |value| < 0x1_0000
    ensures SubVector(kind, value) == Sub(kind, value)
  {
  }

  lemma ClientBitsWritten(flags: SslInfo)
    ensures ClientByte(flags) == ClientBits(flags)
  {
  }

  /** The connection bit, and both certificate bits for a certificate in the connection. */
  function ClientBits(flags: SslInfo): uint8 {
    if flags.ssl then if flags.certInConnection then 7 else 1
    else if flags.certInConnection then 6 else 0
  }

  /** The address block of a header that is made, in its place. */
  predicate AddressesAt(inet: Inet, info: Info, h: seq<uint8>) {
    match info.family
    case 0 => true
    case 1 =>
      && |h| >= 28
      && Some(h[16..20]) == inet.pton4(CString(info.src)) && Some(h[20..24]) == inet.pton4(CString(info.dst))
      && h[24..28] == BigEndian(info.srcPort) + BigEndian(info.dstPort)
    case 2 =>
      && |h| >= 52
      && Some(h[16..32]) == inet.pton6(CString(info.src)) && Some(h[32..48]) == inet.pton6(CString(info.dst))
      && h[48..52] == BigEndian(info.srcPort) + BigEndian(info.dstPort)
    case _ =>
      |h| >= 232 && IsPadded(h[16..124], info.src) && IsPadded(h[124..232], info.dst)
  }

  /** The text, cut off or filled up with zeros. */
  predicate IsPadded(field: seq<uint8>, text: seq<uint8>) {
    forall k :: 0 <= k < |field| ==> field[k] == if k < |text| then text[k] else 0
  }

  lemma Field108IsPadded(text: seq<uint8>)
    ensures IsPadded(Field108(text), text)
  {
  }

  /** What is made of acceptable addresses. */
  lemma BlockAt(inet: Inet, info: Info, h: seq<uint8>)
    requires inet.Valid() && AddressBlock(inet, info).Success?
    requires Starts(h, 16, AddressBlock(inet, info).value)
    ensures AddressesAt(inet, info, h)
  {
    hide Field108, Port, IsPadded;
    PortBytes(info.srcPort);
    PortBytes(info.dstPort);
    var ports := Port(info.srcPort) + Port(info.dstPort);
    if info.family == 1 {
      AddressParts(h, 16, inet.pton4(CString(info.src)).value, inet.pton4(CString(info.dst)).value, ports);
    } else if info.family == 2 {
      AddressParts(h, 16, inet.pton6(CString(info.src)).value, inet.pton6(CString(info.dst)).value, ports);
    } else if info.family == 3 {
      StartsSplit(h, 16, Field108(info.src), Field108(info.dst));
      Field108IsPadded(info.src);
      Field108IsPadded(info.dst);
    }
  }

  lemma PortBytes(port: uint16)
    ensures Port(port) == BigEndian(port)
  {
  }

  lemma FixedPartBytes(family: uint8, transport: uint8, len: uint16)
    requires family <= 3 && transport <= 2
    ensures FixedPart(family, transport, len) ==
            [0x0D, 0x0A, 0x0D, 0x0A, 0x00, 0x0D, 0x0A, 0x51, 0x55, 0x49, 0x54, 0x0A,
             if family == 0 then 0x20 else 0x21, 16 * family as int + transport as int] + BigEndian(len)
  {
  }

  lemma WrittenParts(addr: seq<uint8>, info: Info)
    requires info.family <= 3 && info.transport <= 2 && |addr| <= 216
    ensures var h, l := Written(addr, info), LayoutOf(|addr|, info.tlvs, info.crc32c, info.alignmentPower);
            && Starts(h, 0, FixedPart(info.family, info.transport, l.len)) && Starts(h, 16, addr)
            && Starts(h, 16 + |addr|, CopiedBytes(info.tlvs))
            && |h| == Copied(|addr|, info)
  {
    hide LayoutOf, CopiedBytes, TlvBytes, Crc.Checksum, FixedPart, Starts, Copied;
    var h, l := Written(addr, info), LayoutOf(|addr|, info.tlvs, info.crc32c, info.alignmentPower);
    var noop := if info.alignmentPower > 1 then TlvBytes(Tlv(TYPE_NOOP, Zeros(l.padding))) else [];
    var body := WrittenBody(addr, info, l);
    WrittenSize(addr, info);
    BodyParts(FixedPart(info.family, info.transport, l.len), addr, CopiedBytes(info.tlvs), noop, h[|body|..]);
    assert h == body + h[|body|..];
  }

  lemma MadeFrom(inet: Inet, info: Info) returns (addr: seq<uint8>)
    requires inet.Valid() && Create(inet, info).Made?
    ensures AddressBlock(inet, info) == Success(addr) && info.family <= 3 && info.transport <= 2 && |addr| <= 216
    ensures 16 + |addr| ==
            if info.family == 0 then 16 else if info.family == 1 then 28 else if info.family == 2 then 52 else 232
    ensures info.alignmentPower <= 15 && RoomFor(CopiedRaw(|addr|, info), info.alignmentPower)
    ensures Create(inet, info) == Made(Written(addr, info))
  {
    hide AddressBlock, Written, RoomFor;
    AddressBlockKnown(inet, info);
    BlockSize(inet, info);
    addr := AddressBlock(inet, info).value;
  }

  /** Every header that is made: signature, version and command, family and transport, the length behind
      these 16 bytes, the addresses, and what is copied of the vectors. */
  lemma MadeBytes(inet: Inet, info: Info)
    requires inet.Valid() && Create(inet, info).Made?
    ensures var h := Create(inet, info).hdr;
            && 16 <= |h| <= 0xFFFF
            && h[..16] == [0x0D, 0x0A, 0x0D, 0x0A, 0x00, 0x0D, 0x0A, 0x51, 0x55, 0x49, 0x54, 0x0A,
                           if info.family == 0 then 0x20 else 0x21, 16 * info.family as int + info.transport as int]
                          + BigEndian(|h| - 16)
            && AddressesAt(inet, info, h)
            && Starts(h, if info.family == 0 then 16 else if info.family == 1 then 28 else if info.family == 2 then 52
                         else 232, CopiedBytes(info.tlvs))
  {
    hide Create, Written, LayoutOf, FixedPart, AddressesAt, CopiedBytes, RoomFor, Padding, AddressBlock, Copied;
    var addr := MadeFrom(inet, info);
    var h, l := Written(addr, info), LayoutOf(|addr|, info.tlvs, info.crc32c, info.alignmentPower);
    BlockIsFilledExactly(|addr|, info);
    LayoutIsIntended(|addr|, info);
    WrittenParts(addr, info);
    BlockAt(inet, info, h);
    FixedPartBytes(info.family, info.transport, l.len);
    hide Starts, BigEndian;
    FirstSixteen(h, FixedPart(info.family, info.transport, l.len));
  }

  lemma FirstSixteen(h: seq<uint8>, fixed: seq<uint8>)
    requires |fixed| == 16 && Starts(h, 0, fixed)
    ensures |h| >= 16 && h[..16] == fixed
  {
  }

  /** Behind the vectors: padding of at least three bytes in a vector of zeros, and the checksum of the whole
      header with zeros in its own place. */
  lemma MadeTail(inet: Inet, info: Info)
    requires inet.Valid() && Create(inet, info).Made?
    ensures var h := Create(inet, info).hdr;
            var at := (if info.family == 0 then 16 else if info.family == 1 then 28 else if info.family == 2 then 52
                       else 232) + |CopiedBytes(info.tlvs)|;
            var end := |h| - if info.crc32c then 7 else 0;
            && at <= end
            && (info.alignmentPower <= 1 ==> at == end)
            && (info.alignmentPower > 1 ==>
                  && at + 3 <= end <= at + 0xFFFF && h[at..at + 3] == [0x04] + BigEndian(end - at - 3)
                  && forall k :: at + 3 <= k < end ==> h[k] == 0)
            && (info.crc32c ==>
                  && h[end..end + 3] == [0x03, 0x00, 0x04]
                  && h[end + 3..] == Crc.Checksum(h[..end + 3] + [0, 0, 0, 0]))
  {
    hide Create, Written, LayoutOf, FixedPart, CopiedBytes, RoomFor, Padding, AddressBlock, Copied, Crc.Checksum;
    var addr := MadeFrom(inet, info);
    LayoutIsIntended(|addr|, info);
    WrittenTail(addr, info);
  }

  lemma WrittenTail(addr: seq<uint8>, info: Info)
    requires info.family <= 3 && info.transport <= 2 && |addr| <= 216
    ensures var h, l := Written(addr, info), LayoutOf(|addr|, info.tlvs, info.crc32c, info.alignmentPower);
            var at := 16 + |addr| + |CopiedBytes(info.tlvs)|;
            var end := |h| - if info.crc32c then 7 else 0;
            && end == at + (if info.alignmentPower > 1 then 3 + l.padding as int else 0)
            && (info.alignmentPower > 1 ==>
                  h[at..at + 3] == [0x04] + BigEndian(l.padding) && forall k :: at + 3 <= k < end ==> h[k] == 0)
            && (info.crc32c ==>
                  && h[end..end + 3] == [0x03, 0x00, 0x04]
                  && h[end + 3..] == Crc.Checksum(h[..end + 3] + [0, 0, 0, 0]))
  {
    hide LayoutOf, CopiedBytes, Crc.Checksum, FixedPart, TlvBytes;
    var h, l := Written(addr, info), LayoutOf(|addr|, info.tlvs, info.crc32c, info.alignmentPower);
    var front := FixedPart(info.family, info.transport, l.len) + addr + CopiedBytes(info.tlvs);
    var body := WrittenBody(addr, info, l);
    if info.alignmentPower > 1 {
      var noop := TlvBytes(Tlv(TYPE_NOOP, Zeros(l.padding)));
      NoopIs(l.padding);
      assert body == front + noop;
      TailAt(front, noop, h[|body|..]);
      assert h == body + h[|body|..];
    }
    if info.crc32c {
      var start := body + CRC_HEADER;
      assert h[..|body| + 3] == start && h[|body|..|body| + 3] == CRC_HEADER;
    }
  }

  lemma NoopIs(padding: uint16)
    ensures var noop := TlvBytes(Tlv(TYPE_NOOP, Zeros(padding)));
            |noop| == 3 + padding && noop[..3] == [0x04] + BigEndian(padding) &&
            forall k :: 3 <= k < |noop| ==> noop[k] == 0
  {
  }

  lemma TailAt(front: seq<uint8>, noop: seq<uint8>, rest: seq<uint8>)
    requires |noop| >= 3 && forall k :: 3 <= k < |noop| ==> noop[k] == 0
    ensures var h, at := front + noop + rest, |front|;
            h[at..at + 3] == noop[..3] && forall k :: at + 3 <= k < at + |noop| ==> h[k] == 0
  {
    var h := front + noop + rest;
    forall k | |front| <= k < |front| + |noop|
      ensures h[k] == noop[k - |front|]
    {
    }
  }

  lemma BlockSize(inet: Inet, info: Info)
    requires inet.Valid() && AddressBlock(inet, info).Success?
    ensures 16 + |AddressBlock(inet, info).value| ==
            if info.family == 0 then 16 else if info.family == 1 then 28 else if info.family == 2 then 52 else 232
  {
  }
}
