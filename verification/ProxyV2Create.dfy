/** Creating a version 2 header (asio_server/proxy_protocol.cpp:577-725): what it should look like,
    the 16-bit arithmetic of the source, and when the two meet. */
module ProxyV2Create {
  import opened MachineTypes
  import opened Wrappers
  import opened Memory
  import opened Multiples
  import opened CStrings
  import opened ProxyInfo
  import opened ProxyVectors
  import Crc = Crc32c

  // 0D 0A 0D 0A 00 0D 0A 51 55 49 54 0A
  const PP2_SIG: seq<uint8> := [0x0D, 0x0A, 0x0D, 0x0A, 0x00, 0x0D, 0x0A, 0x51, 0x55, 0x49, 0x54, 0x0A]

  function Port(p: uint16): seq<uint8> {
    [p / 256, p % 256]
  }

  function Zeros(n: nat): (s: seq<uint8>)
    ensures |s| == n
  {
    seq(n, _ => 0)
  }

  /** A 108-byte address field. */
  function Field108(s: seq<uint8>): (f: seq<uint8>)
    ensures |f| == 108
  {
    if |s| >= 108 then s[..108] else s + Zeros(108 - |s|)
  }

  /** The address block, or the error of lines 585-643 in the order the source looks for them. */
  function AddressBlock(inet: Inet, info: Info): Result<seq<uint8>> {
    AddressBlockOf(inet, info.family, info.transport, info.local, info.src, info.dst, Port(info.srcPort)
          + Port(info.dstPort))
  }

  function AddressBlockOf(inet: Inet, family: uint8, transport: uint8, local: bool, src: seq<uint8>, dst: seq<uint8>,
          ports: seq<uint8>): Result<seq<uint8>> {
    var block :=
      if family == ADDR_FAMILY_UNSPEC then
        if !local then Failure(ERR_PP2_CMD) else Success([])
      else if family == ADDR_FAMILY_INET then
        InetBlock(inet.pton4(CString(src)), inet.pton4(CString(dst)), ports, ERR_PP2_IPV4_SRC_IP, ERR_PP2_IPV4_DST_IP)
      else if family == ADDR_FAMILY_INET6 then
        InetBlock(inet.pton6(CString(src)), inet.pton6(CString(dst)), ports, ERR_PP2_IPV6_SRC_IP, ERR_PP2_IPV6_DST_IP)
      else if family == ADDR_FAMILY_UNIX then
        Success(Field108(src) + Field108(dst))
      else
        Failure(ERR_PP2_ADDR_FAMILY);
    if block.Success? && transport > TRANSPORT_PROTOCOL_DGRAM then
      Failure(ERR_PP2_TRANSPORT_PROTOCOL)
    else
      block
  }

  function InetBlock(src: Option<seq<uint8>>, dst: Option<seq<uint8>>, ports: seq<uint8>, srcError: int,
          dstError: int): Result<seq<uint8>> {
    if src.None? then Failure(srcError)
    else if dst.None? then Failure(dstError)
    else Success(src.value + dst.value + ports)
  }

  // ---------- the header as it is meant ----------

  function TlvsBytes(ts: seq<TlvVector>): seq<uint8> {
    if ts == [] then [] else TlvBytes(ts[0]) + TlvsBytes(ts[1..])
  }

  function CrcSize(crc32c: bool): nat {
    if crc32c then 7 else 0
  }

  /** The length before any padding. */
  function RawLength(addr: seq<uint8>, info: Info): nat {
    16 + |addr| + |TlvsBytes(info.tlvs)| + CrcSize(info.crc32c)
  }

  function Pow2(n: nat): (p: nat)
    ensures p >= 1 && (n >= 2 ==> p >= 4 && p % 4 == 0)
  {
    if n == 0 then 1 else 2 * Pow2(n - 1)
  }

  /** The bytes of padding that make `raw` a multiple of `alignment`: a NOOP vector, so at least 3. */
  function Gap(raw: nat, alignment: nat): nat
    requires alignment >= 4
  {
    var g := alignment - raw % alignment;
    if g < 3 then g + alignment else g
  }

  function Padding(info: Info, raw: nat): nat {
    if info.alignmentPower > 1 then Gap(raw, Pow2(info.alignmentPower)) else 0
  }

  function Noop(gap: nat): seq<uint8>
    requires gap == 0 || 3 <= gap < 0x1_0000
  {
    if gap == 0 then [] else TlvBytes(Tlv(TYPE_NOOP, Zeros(gap - 3)))
  }

  /** What the caller must see to: everything fits 16 bits, the power is one `1 << power` can hold,
      and a header to be padded is not already aligned. */
  ghost predicate Fits(addr: seq<uint8>, info: Info) {
    && info.alignmentPower <= 15
    && (forall t :: t in info.tlvs ==> |t.value| <= 0xFFFC)
    && (info.alignmentPower > 1 ==> RawLength(addr, info) % Pow2(info.alignmentPower) != 0)
    && RawLength(addr, info) + Padding(info, RawLength(addr, info)) <= 0xFFFF
  }

  function TotalLength(addr: seq<uint8>, info: Info): nat {
    RawLength(addr, info) + Padding(info, RawLength(addr, info))
  }

  /** `proxy_hdr_v2_t`: signature, version and command, family and transport, length. */
  function FixedPart(family: uint8, transport: uint8, len: uint16): (s: seq<uint8>)
    requires family <= 3 && transport <= 2
    ensures |s| == 16
  {
    PP2_SIG + [if family == ADDR_FAMILY_UNSPEC then 0x20 else 0x21, family * 16 + transport, len / 256, len % 256]
  }

  /** Everything in front of the checksum vector. */
  ghost function Body(addr: seq<uint8>, info: Info): seq<uint8>
    requires info.family <= 3 && info.transport <= 2 && Fits(addr, info)
  {
    FixedPart(info.family, info.transport, TotalLength(addr, info) - 16) + addr + TlvsBytes(info.tlvs)
          + Noop(Padding(info, RawLength(addr, info)))
  }

  const CRC_HEADER: seq<uint8> := [0x03, 0, 4]

  ghost function WithChecksum(body: seq<uint8>, crc32c: bool): seq<uint8> {
    if crc32c then body + CRC_HEADER + Crc.Checksum(body + CRC_HEADER + [0, 0, 0, 0]) else body
  }

  ghost function Header(addr: seq<uint8>, info: Info): seq<uint8>
    requires info.family <= 3 && info.transport <= 2 && Fits(addr, info)
  {
    WithChecksum(Body(addr, info), info.crc32c)
  }

  lemma RoundUp(raw: nat, n: nat, k: nat)
    requires n >= 1 && k <= 2
    ensures raw - raw % n + k * n == (raw / n + k) * n
    ensures (raw - raw % n + k * n) % n == 0
  {
    Euclid(raw, n);
    assert (raw / n + k) * n == (raw / n) * n + k * n;
    DivModIs((raw / n + k) * n, n, raw / n + k, 0);
  }

  lemma NoMultipleBetween(raw: nat, n: nat, g: nat)
    requires n >= 1 && g > 0 && (raw + g) % n == 0
    ensures g >= n - raw % n
    ensures g > n - raw % n ==> g >= 2 * n - raw % n
  {
    Euclid(raw, n);
    Euclid(raw + g, n);
    var q, m := raw / n, (raw + g) / n;
    if m < q {
      Apart(q, m, n);
    } else if m > q {
      assert (q + 1) * n == q * n + n;
      if m > q + 1 {
        Apart(m, q + 1, n);
      }
    }
  }

  /** The padding is the least that is at least 3 and reaches a multiple of the alignment. */
  lemma GapIsLeast(raw: nat, alignment: nat, g: nat)
    requires alignment >= 4
    ensures 3 <= Gap(raw, alignment) <= alignment + 2
    ensures (raw + Gap(raw, alignment)) % alignment == 0
    ensures 3 <= g && (raw + g) % alignment == 0 ==> Gap(raw, alignment) <= g
  {
    Euclid(raw, alignment);
    RoundUp(raw, alignment, if alignment - raw % alignment < 3 then 2 else 1);
    if 3 <= g && (raw + g) % alignment == 0 {
      NoMultipleBetween(raw, alignment, g);
    }
  }

  // ---------- the arithmetic of the source ----------

  /** `tlv_len` of lines 654 and 697. */
  function TlvLen(t: TlvVector): uint16 {
    U16(3 + |t.value|)
  }

  function SumTlvLens(len: uint16, ts: seq<TlvVector>): uint16 {
    if ts == [] then len else U16(SumTlvLens(len, ts[..|ts| - 1]) + TlvLen(ts[|ts| - 1]))
  }

  datatype Layout = Layout(len: uint16, hdrLen: uint16, padding: uint16)

  /** Lines 647-679. */
  function LayoutOf(addrLen: uint16, ts: seq<TlvVector>, crc32c: bool, alignmentPower: nat): Layout {
    var len: int := U16(SumTlvLens(addrLen, ts) + CrcSize(crc32c));
    Aligned(len, U16(len + 16), alignmentPower)
  }

  function Aligned(len: uint16, hdrLen: uint16, alignmentPower: nat): Layout {
    var alignment := Pow2(alignmentPower);
    if alignmentPower > 1 && hdrLen % alignment != 0 then
      PadTo(len, hdrLen, (hdrLen / alignment + 1) * alignment, alignment)
    else
      Layout(len, hdrLen, 0)
  }

  function PadTo(len: uint16, hdrLen: uint16, next: nat, alignment: nat): Layout {
    var once := U16(next);
    var padded := if once - hdrLen < 3 then U16(once + alignment) else once;
    Layout(U16(padded - 16), padded, U16(padded - 16 - len - 3))
  }

  /** What line 698 copies of a vector. */
  function CopiedTlv(t: TlvVector): (s: seq<uint8>)
    ensures |s| == TlvLen(t)
  {
    TlvBytes(t)[..TlvLen(t)]
  }

  /** What the copying loop writes. */
  function CopiedBytes(ts: seq<TlvVector>): seq<uint8> {
    if ts == [] then [] else CopiedBytes(ts[..|ts| - 1]) + CopiedTlv(ts[|ts| - 1])
  }

  function CopiedRaw(addrLen: nat, info: Info): nat {
    16 + addrLen + |CopiedBytes(info.tlvs)| + CrcSize(info.crc32c)
  }

  /** All the bytes that lines 688-721 write, one block after another. */
  function Copied(addrLen: uint16, info: Info): nat {
    CopiedRaw(addrLen, info) +
    if info.alignmentPower > 1 then
      3 + LayoutOf(addrLen, info.tlvs, info.crc32c, info.alignmentPower).padding
    else
      0
  }

  lemma {:induction false} SumWraps(len: uint16, ts: seq<TlvVector>)
    ensures SumTlvLens(len, ts) == U16(len + |CopiedBytes(ts)|)
  {
    hide TlvLen, CopiedTlv, U16;
    if ts == [] {
      U16Is(len, len, 0);
    } else {
      var front := ts[..|ts| - 1];
      SumWraps(len, front);
      U16Add(len + |CopiedBytes(front)|, TlvLen(ts[|ts| - 1]));
    }
  }

  lemma PowBound(power: nat)
    requires power <= 15
    ensures Pow2(power) <= 0x8000
  {
    assert Pow2(4) == 0x10;
    assert Pow2(8) == 0x100;
    assert Pow2(12) == 0x1000;
    assert Pow2(15) == 0x8000;
    PowMonotone(power, 15);
  }

  lemma {:induction false} PowMonotone(m: nat, n: nat)
    requires m <= n
    ensures Pow2(m) <= Pow2(n)
  {
    if m < n {
      PowMonotone(m, n - 1);
    }
  }

  lemma RawWraps(addrLen: uint16, info: Info)
    requires addrLen <= 216
    ensures U16(U16(SumTlvLens(addrLen, info.tlvs) + CrcSize(info.crc32c)) + 16) == U16(CopiedRaw(addrLen, info))
  {
    hide U16, SumTlvLens, CopiedBytes;
    var sum := addrLen + |CopiedBytes(info.tlvs)|;
    SumWraps(addrLen, info.tlvs);
    U16Add(sum, CrcSize(info.crc32c));
    U16Add(sum + CrcSize(info.crc32c), 16);
  }

  lemma PadToIs(len: uint16, hdrLen: uint16, n: nat, r: nat)
    requires hdrLen == U16(len + 16) && 0 < r < n <= 0x8000 && 4 <= n && r <= hdrLen
    ensures var gap := if n - r < 3 then n - r + n else n - r;
            var l := PadTo(len, hdrLen, hdrLen - r + n, n);
            if hdrLen + gap <= 0xFFFF then
              l == Layout(U16(hdrLen + gap - 16), hdrLen + gap, gap - 3)
            else
              hdrLen + l.padding + 3 > 0xFFFF
  {
    hide U16;
    var next: int := hdrLen - r + n;
    U16Once(len + 16);
    U16Once(next);
    var gap := if next > 0xFFFF || n - r < 3 then n - r + n else n - r;
    var padded: int := if hdrLen + gap > 0xFFFF then hdrLen + gap - 0x1_0000 else hdrLen + gap;
    if gap != n - r {
      U16Once(U16(next) + n);
    }
    var wraps: int := (if hdrLen == len + 16 then 0 else -1) + (if padded == hdrLen + gap then 0 else -1);
    U16Is(padded - 16 - len - 3, gap - 3, wraps);
  }

  lemma NextMultiple(x: nat, n: nat)
    requires n >= 1
    ensures (x / n + 1) * n == x - x % n + n && x % n <= x && x % n < n
  {
    RoundUp(x, n, 1);
    Euclid(x, n);
    assert (x / n) * n >= 0;
  }

  lemma AlignedIsPadTo(len: uint16, hdrLen: uint16, power: nat)
    requires power >= 2 && hdrLen % Pow2(power) != 0
    ensures var n, r := Pow2(power), hdrLen % Pow2(power);
            && 4 <= n && 0 < r < n && r <= hdrLen
            && Aligned(len, hdrLen, power) == PadTo(len, hdrLen, hdrLen - r + n, n)
  {
    hide PadTo, U16;
    NextMultiple(hdrLen, Pow2(power));
  }

  lemma GapOf(raw: nat, n: nat, r: nat)
    requires 4 <= n && r == raw % n
    ensures Gap(raw, n) == if n - r < 3 then n - r + n else n - r
  {
  }

  /** `Aligned` in one formula: either the gap is added, or 2^16 is passed. */
  lemma AlignedIs(len: uint16, hdrLen: uint16, power: nat)
    requires 2 <= power <= 15 && hdrLen == U16(len + 16) && hdrLen % Pow2(power) != 0
    ensures var gap := Gap(hdrLen, Pow2(power));
            var l := Aligned(len, hdrLen, power);
            if hdrLen + gap <= 0xFFFF then
              l == Layout(U16(hdrLen + gap - 16), hdrLen + gap, gap - 3)
            else
              hdrLen + l.padding + 3 > 0xFFFF
  {
    hide PadTo, U16, Pow2, Gap, Aligned;
    var n, r := Pow2(power), hdrLen % Pow2(power);
    PowBound(power);
    AlignedIsPadTo(len, hdrLen, power);
    GapOf(hdrLen, n, r);
    PadToIs(len, hdrLen, n, r);
  }

  lemma PlainBlock(raw: nat)
    ensures U16(raw) <= raw && (raw == U16(raw) <==> raw <= 0xFFFF)
  {
  }

  /** The header ends within 16 bits, and one to be padded is not already aligned. */
  ghost predicate RoomFor(raw: nat, power: nat) {
    if power > 1 then raw + Gap(raw, Pow2(power)) <= 0xFFFF && raw % Pow2(power) != 0 else raw <= 0xFFFF
  }

  lemma PaddedBlock(raw: nat, len: uint16, hdrLen: uint16, power: nat)
    requires 2 <= power <= 15 && hdrLen == U16(len + 16) && hdrLen == U16(raw)
    ensures var l := Aligned(len, hdrLen, power);
            && raw + 3 + l.padding >= l.hdrLen
            && (raw + 3 + l.padding == l.hdrLen <==> RoomFor(raw, power))
  {
    hide Gap, Aligned, Pow2;
    PlainBlock(raw);
    AlreadyAligned(len, hdrLen, power);
    if hdrLen % Pow2(power) != 0 {
      AlignedIs(len, hdrLen, power);
    }
    AtLeastFour(power);
    GapIsLeast(raw, Pow2(power), 0);
  }

  lemma AtLeastFour(power: nat)
    ensures power >= 2 ==> Pow2(power) >= 4
  {
  }

  lemma AlreadyAligned(len: uint16, hdrLen: uint16, power: nat)
    ensures hdrLen % Pow2(power) == 0 ==> Aligned(len, hdrLen, power) == Layout(len, hdrLen, 0)
  {
  }

  lemma LengthOf(addrLen: uint16, info: Info)
    requires addrLen <= 216
    ensures var len := U16(SumTlvLens(addrLen, info.tlvs) + CrcSize(info.crc32c));
            LayoutOf(addrLen, info.tlvs, info.crc32c, info.alignmentPower) ==
            Aligned(len, U16(CopiedRaw(addrLen, info)), info.alignmentPower)
  {
    RawWraps(addrLen, info);
  }

  /** The bytes written fill the allocated block exactly when nothing wraps and a header to be padded is
      not already aligned; otherwise there are more of them, and the block is overrun. */
  lemma BlockIsFilledExactly(addrLen: uint16, info: Info)
    requires addrLen <= 216 && info.alignmentPower <= 15
    ensures var copied := Copied(addrLen, info);
            var block := LayoutOf(addrLen, info.tlvs, info.crc32c, info.alignmentPower).hdrLen;
            && copied >= block
            && (copied == block <==> RoomFor(CopiedRaw(addrLen, info), info.alignmentPower))
  {
    hide Aligned, SumTlvLens, Gap;
    var raw := CopiedRaw(addrLen, info);
    var len := U16(SumTlvLens(addrLen, info.tlvs) + CrcSize(info.crc32c));
    LengthOf(addrLen, info);
    RawWraps(addrLen, info);
    if info.alignmentPower > 1 {
      PaddedBlock(raw, len, U16(raw), info.alignmentPower);
    } else {
      PlainLayout(len, U16(raw), info.alignmentPower);
      PlainBlock(raw);
    }
  }

  lemma PlainLayout(len: uint16, hdrLen: uint16, power: nat)
    requires power <= 1
    ensures Aligned(len, hdrLen, power) == Layout(len, hdrLen, 0)
  {
  }

  /** Padding to a multiple of 4 with IPv4 addresses and no vectors: the 28 bytes are aligned, so no room
      is made for the NOOP vector, whose three bytes are written all the same. */
  lemma AlignedHeaderOverruns(info: Info)
    requires info.tlvs == [] && !info.crc32c && info.alignmentPower == 2
    ensures LayoutOf(12, info.tlvs, info.crc32c, info.alignmentPower).hdrLen == 28 && Copied(12, info) == 31
  {
    hide Pow2, U16, Aligned, SumTlvLens, CopiedBytes;
    FourIsPower();
    NothingToCopy();
    U16Is(12, 12, 0);
    U16Is(28, 28, 0);
    AlreadyAligned(12, 28, 2);
  }

  lemma FourIsPower()
    ensures Pow2(2) == 4
  {
  }

  lemma NothingToCopy()
    ensures SumTlvLens(12, []) == 12 && CopiedBytes([]) == []
  {
  }

  // ---------- the two agree ----------

  lemma {:induction false} TlvsBytesAppend(ts: seq<TlvVector>, us: seq<TlvVector>)
    ensures TlvsBytes(ts + us) == TlvsBytes(ts) + TlvsBytes(us)
  {
    if ts == [] {
      assert ts + us == us;
    } else {
      assert (ts + us)[1..] == ts[1..] + us;
      TlvsBytesAppend(ts[1..], us);
    }
  }

  lemma TlvsBytesSnoc(ts: seq<TlvVector>, i: nat)
    requires i < |ts|
    ensures TlvsBytes(ts[..i + 1]) == TlvsBytes(ts[..i]) + TlvBytes(ts[i])
  {
    assert ts[..i + 1] == ts[..i] + [ts[i]];
    assert TlvsBytes([ts[i]]) == TlvBytes(ts[i]) + TlvsBytes([]);
    TlvsBytesAppend(ts[..i], [ts[i]]);
  }

  /** Vectors of at most 65532 bytes are copied whole. */
  lemma {:induction false} CopiedIsEncoded(ts: seq<TlvVector>)
    requires forall t :: t in ts ==> |t.value| <= 0xFFFC
    ensures CopiedBytes(ts) == TlvsBytes(ts)
  {
    hide CopiedTlv, TlvBytes;
    if ts != [] {
      var n := |ts| - 1;
      assert ts[n] in ts;
      CopiedIsEncoded(ts[..n]);
      TlvsBytesSnoc(ts, n);
      assert ts[..n + 1] == ts;
      CopiedWhole(ts[n]);
    }
  }

  lemma CopiedWhole(t: TlvVector)
    requires |t.value| <= 0xFFFC
    ensures CopiedTlv(t) == TlvBytes(t)
  {
    U16Is(3 + |t.value|, 3 + |t.value|, 0);
  }

  lemma PaddedLayout(len: uint16, raw: nat, power: nat)
    requires 2 <= power <= 15 && U16(len + 16) == raw && raw % Pow2(power) != 0
    requires 16 <= raw + Gap(raw, Pow2(power)) <= 0xFFFF
    ensures var total := raw + Gap(raw, Pow2(power));
            Aligned(len, raw, power) == Layout(total - 16, total, Gap(raw, Pow2(power)) - 3)
  {
    AlignedIs(len, raw, power);
    GapIsLeast(raw, Pow2(power), 0);
    var total := raw + Gap(raw, Pow2(power));
    U16Is(total - 16, total - 16, 0);
  }

  /** Where there is room, the 16-bit arithmetic finds the intended lengths. */
  lemma LayoutIsIntended(addrLen: uint16, info: Info)
    requires addrLen <= 216 && info.alignmentPower <= 15
    requires RoomFor(CopiedRaw(addrLen, info), info.alignmentPower)
    ensures var raw := CopiedRaw(addrLen, info);
            var total := raw + Padding(info, raw);
            16 <= total <= 0xFFFF &&
            LayoutOf(addrLen, info.tlvs, info.crc32c, info.alignmentPower) ==
            Layout(total - 16, total, if info.alignmentPower > 1 then Padding(info, raw) - 3 else 0)
  {
    hide Gap, SumTlvLens, CopiedBytes, Aligned, Pow2;
    var raw := CopiedRaw(addrLen, info);
    var len: int := U16(SumTlvLens(addrLen, info.tlvs) + CrcSize(info.crc32c));
    LengthOf(addrLen, info);
    RawWraps(addrLen, info);
    U16Is(raw, raw, 0);
    if info.alignmentPower > 1 {
      PaddedLayout(len, raw, info.alignmentPower);
    } else {
      PlainLayout(len, raw, info.alignmentPower);
      SmallLen(len, raw);
    }
  }

  lemma SmallLen(len: uint16, raw: nat)
    requires 16 <= raw <= 0xFFFF && U16(len + 16) == raw
    ensures len == raw - 16
  {
  }

  lemma HeaderLength(addr: seq<uint8>, info: Info)
    requires info.family <= 3 && info.transport <= 2 && Fits(addr, info)
    ensures |Header(addr, info)| == TotalLength(addr, info)
  {
  }

  /** A padded header ends on the least multiple of 2^power that leaves room for the NOOP vector. */
  lemma HeaderIsAligned(addr: seq<uint8>, info: Info, m: nat)
    requires info.family <= 3 && info.transport <= 2 && Fits(addr, info) && info.alignmentPower > 1
    ensures var raw, n, len := RawLength(addr, info), Pow2(info.alignmentPower), |Header(addr, info)|;
            && len % n == 0 && raw + 3 <= len <= raw + n + 2
            && (m % n == 0 && raw + 3 <= m ==> len <= m)
  {
    HeaderLength(addr, info);
    var raw := RawLength(addr, info);
    GapIsLeast(raw, Pow2(info.alignmentPower), if m >= raw then m - raw else 0);
  }

  // ---------- the header as it is written ----------

  /** What lines 688-712 write: everything in front of the checksum vector. */
  ghost function WrittenBody(addr: seq<uint8>, info: Info, l: Layout): seq<uint8>
    requires info.family <= 3 && info.transport <= 2
  {
    FixedPart(info.family, info.transport, l.len) + addr + CopiedBytes(info.tlvs)
    + if info.alignmentPower > 1 then TlvBytes(Tlv(TYPE_NOOP, Zeros(l.padding))) else []
  }

  ghost function Written(addr: seq<uint8>, info: Info): seq<uint8>
    requires info.family <= 3 && info.transport <= 2 && |addr| <= 216
  {
    WithChecksum(WrittenBody(addr, info, LayoutOf(|addr|, info.tlvs, info.crc32c, info.alignmentPower)), info.crc32c)
  }

  /** A header fits exactly when there is room for it and every vector is copied whole. */
  lemma FitsExactly(addr: seq<uint8>, info: Info)
    requires |addr| <= 216
    ensures Fits(addr, info) <==>
            && info.alignmentPower <= 15
            && RoomFor(CopiedRaw(|addr|, info), info.alignmentPower)
            && forall t :: t in info.tlvs ==> |t.value| <= 0xFFFC
  {
    hide Gap, Pow2, CopiedBytes, TlvsBytes;
    if forall t :: t in info.tlvs ==> |t.value| <= 0xFFFC {
      CopiedIsEncoded(info.tlvs);
    }
  }

  /** A header that fits is written as it is meant. */
  lemma WrittenAsMeant(addr: seq<uint8>, info: Info)
    requires info.family <= 3 && info.transport <= 2 && |addr| <= 216 && Fits(addr, info)
    ensures Written(addr, info) == Header(addr, info)
  {
    hide LayoutOf, Pow2, CopiedBytes, TlvsBytes, TlvBytes, FixedPart, WithChecksum, Padding, RoomFor;
    FitsExactly(addr, info);
    CopiedIsEncoded(info.tlvs);
    LayoutIsIntended(|addr|, info);
    GapRange(addr, info);
  }

  lemma GapRange(addr: seq<uint8>, info: Info)
    requires Fits(addr, info)
    ensures var gap := Padding(info, RawLength(addr, info));
            gap < 0x1_0000 && if info.alignmentPower > 1 then gap >= 3 else gap == 0
  {
    if info.alignmentPower > 1 {
      GapIsLeast(RawLength(addr, info), Pow2(info.alignmentPower), 0);
    }
  }

  lemma WrittenSize(addr: seq<uint8>, info: Info)
    requires info.family <= 3 && info.transport <= 2 && |addr| <= 216
    ensures var l := LayoutOf(|addr|, info.tlvs, info.crc32c, info.alignmentPower);
            |WrittenBody(addr, info, l)| == Copied(|addr|, info) - CrcSize(info.crc32c)
  {
    hide LayoutOf, CopiedBytes;
  }

  lemma WrittenStart(addr: seq<uint8>, info: Info)
    requires info.family <= 3 && info.transport <= 2 && |addr| <= 216
    ensures |Written(addr, info)| >= 16 && Written(addr, info)[..12] == PP2_SIG
  {
    hide LayoutOf, CopiedBytes, TlvBytes, Crc.Checksum, FixedPart;
    var l := LayoutOf(|addr|, info.tlvs, info.crc32c, info.alignmentPower);
    SigFirst(info.family, info.transport, l.len);
    var h := Written(addr, info);
    assert h[..16] == FixedPart(info.family, info.transport, l.len);
    assert h[..12] == h[..16][..12];
  }

  lemma SigFirst(family: uint8, transport: uint8, len: uint16)
    requires family <= 3 && transport <= 2
    ensures FixedPart(family, transport, len)[..12] == PP2_SIG
  {
  }

  // ---------- the function itself ----------

  /** The address conversion only lets known families and transports through. */
  lemma AddressBlockKnown(inet: Inet, info: Info)
    requires inet.Valid() && AddressBlock(inet, info).Success?
    ensures info.family <= 3 && info.transport <= 2 && |AddressBlock(inet, info).value| in {0, 12, 36, 216}
  {
  }

  lemma NextSum(len: uint16, ts: seq<TlvVector>, i: nat)
    requires i < |ts|
    ensures SumTlvLens(len, ts[..i + 1]) == U16(SumTlvLens(len, ts[..i]) + TlvLen(ts[i]))
  {
    hide TlvLen, U16;
    assert ts[..i + 1][..i] == ts[..i];
  }

  lemma NothingSummed(len: uint16, ts: seq<TlvVector>)
    ensures SumTlvLens(len, ts[..0]) == len
  {
  }

  /** Lines 647-661: the loop over the vectors. */
  method ComputeLength(addrLen: uint16, info: PpInfo) returns (len: uint16)
    requires info.Valid()
    ensures len == U16(SumTlvLens(addrLen, info.Value().tlvs) + CrcSize(info.crc32c))
  {
    hide SumTlvLens, U16;
    ghost var ts := info.Value().tlvs;
    len := addrLen;
    var i := 0;
    NothingSummed(addrLen, ts);
    while i < info.tlvArray.len
      invariant 0 <= i <= |ts| == info.tlvArray.len
      invariant len == SumTlvLens(addrLen, ts[..i])
    {
      NextSum(addrLen, ts, i);
      var tlvLen := U16(3 + |info.tlvArray.tlvs[i].value|);
      len := U16(len + tlvLen);
      i := i + 1;
    }
    assert ts[..i] == ts;
    if info.crc32c {
      len := U16(len as int + 7);
    } else {
      U16Is(len, len, 0);
    }
  }

  /** Lines 647-679. */
  method ComputeLayout(addrLen: uint16, info: PpInfo) returns (l: Layout)
    requires info.Valid() && info.alignmentPower <= 15
    ensures l == LayoutOf(addrLen, info.Value().tlvs, info.crc32c, info.alignmentPower)
  {
    hide SumTlvLens, U16, Pow2;
    var len := ComputeLength(addrLen, info);
    var hdrLen, padding := U16(len as int + 16), 0;
    if info.alignmentPower > 1 {
      var alignment := Pow2(info.alignmentPower);
      if hdrLen % alignment != 0 {
        var padded := U16((hdrLen / alignment + 1) * alignment);
        if padded as int - hdrLen as int < 3 {
          padded := U16(padded + alignment);
        }
        padding := U16(padded as int - 16 - len as int - 3);
        hdrLen := padded;
        len := U16(padded as int - 16);
      }
    }
    l := Layout(len, hdrLen, padding);
  }

  lemma NextTlv(ts: seq<TlvVector>, i: nat)
    requires i < |ts|
    ensures CopiedBytes(ts[..i + 1]) == CopiedBytes(ts[..i]) + CopiedTlv(ts[i])
  {
    assert ts[..i + 1][..i] == ts[..i];
  }

  lemma {:induction false} CopiedGrows(ts: seq<TlvVector>, i: nat)
    requires i <= |ts|
    ensures |CopiedBytes(ts[..i])| <= |CopiedBytes(ts)|
  {
    if i < |ts| {
      assert ts[..|ts| - 1][..i] == ts[..i];
      CopiedGrows(ts[..|ts| - 1], i);
    } else {
      assert ts[..i] == ts;
    }
  }

  /** `memcpy` to the end of what has been written, if the block has room for it. */
  method Put(hdr: array<uint8>, at: nat, bytes: seq<uint8>) returns (index: nat, ok: bool)
    requires at <= hdr.Length
    modifies hdr
    ensures ok <==> at + |bytes| <= hdr.Length
    ensures ok ==> index == at + |bytes| && hdr[..index] == old(hdr[..at]) + bytes
  {
    index, ok := at, at + |bytes| <= hdr.Length;
    if ok {
      Memcpy(hdr, at, bytes);
      index := at + |bytes|;
    }
  }

  /** Lines 694-700: appends the vectors from `at` on. */
  method WriteTlvs(hdr: array<uint8>, at: nat, info: PpInfo) returns (index: nat, ok: bool)
    requires info.Valid() && at <= hdr.Length
    modifies hdr
    ensures ok <==> at + |CopiedBytes(old(info.Value()).tlvs)| <= hdr.Length
    ensures ok ==>
              && index == at + |CopiedBytes(old(info.Value()).tlvs)|
              && hdr[..index] == old(hdr[..at]) + CopiedBytes(old(info.Value()).tlvs)
  {
    hide CopiedBytes, CopiedTlv;
    ghost var ts := info.Value().tlvs;
    index, ok := at, true;
    var i := 0;
    NoBytesYet(ts);
    while i < info.tlvArray.len
      invariant 0 <= i <= |ts| == info.tlvArray.len
      invariant info.Value().tlvs == ts
      invariant index == at + |CopiedBytes(ts[..i])| <= hdr.Length
      invariant hdr[..index] == old(hdr[..at]) + CopiedBytes(ts[..i])
      invariant ok
    {
      NextTlv(ts, i);
      index, ok := Put(hdr, index, CopiedTlv(info.tlvArray.tlvs[i]));
      if !ok {
        CopiedGrows(ts, i + 1);
        return;
      }
      i := i + 1;
    }
    assert ts[..i] == ts;
  }

  lemma NoBytesYet(ts: seq<TlvVector>)
    ensures CopiedBytes(ts[..0]) == []
  {
  }

  /** Lines 701-712: the NOOP vector. */
  method WritePadding(hdr: array<uint8>, at: nat, padding: uint16) returns (index: nat, ok: bool)
    requires at <= hdr.Length
    modifies hdr
    ensures ok <==> at + 3 + padding <= hdr.Length
    ensures ok ==>
              index == at + 3 + padding && hdr[..index] == old(hdr[..at]) + TlvBytes(Tlv(TYPE_NOOP, Zeros(padding)))
  {
    index, ok := Put(hdr, at, [TYPE_NOOP, padding / 256, padding % 256]);
    if ok {
      index, ok := Put(hdr, index, Zeros(padding));
    }
  }

  /** Lines 713-721: the checksum over the whole header with its own four bytes zero. */
  method WriteChecksum(hdr: array<uint8>, at: nat)
    requires at + 7 == hdr.Length
    modifies hdr
    ensures hdr[..] == old(hdr[..at]) + CRC_HEADER + Crc.Checksum(old(hdr[..at]) + CRC_HEADER + [0, 0, 0, 0])
  {
    Memcpy(hdr, at, CRC_HEADER);
    Memcpy(hdr, at + 3, [0, 0, 0, 0]);
    assert hdr[..hdr.Length] == old(hdr[..at]) + CRC_HEADER + [0, 0, 0, 0];
    var crc := Crc.Crc32c(hdr, hdr.Length);
    Memcpy(hdr, at + 3, Crc.Octets(crc));
    assert hdr[..] == hdr[..at + 3] + hdr[at + 3..];
  }

  /** Lines 583-643: the address block. */
  method MakeAddressBlock(inet: Inet, info: PpInfo) returns (r: Result<seq<uint8>>)
    requires info.Valid()
    ensures r == AddressBlock(inet, info.Value())
  {
    var addr: seq<uint8> := [];
    if info.family == ADDR_FAMILY_UNSPEC {
      if !info.local {
        return Failure(ERR_PP2_CMD);
      }
    } else if info.family == ADDR_FAMILY_INET {
      var src := inet.pton4(CString(info.src));
      if src.None? {
        return Failure(ERR_PP2_IPV4_SRC_IP);
      }
      var dst := inet.pton4(CString(info.dst));
      if dst.None? {
        return Failure(ERR_PP2_IPV4_DST_IP);
      }
      addr := src.value + dst.value + (Port(info.srcPort) + Port(info.dstPort));
    } else if info.family == ADDR_FAMILY_INET6 {
      var src := inet.pton6(CString(info.src));
      if src.None? {
        return Failure(ERR_PP2_IPV6_SRC_IP);
      }
      var dst := inet.pton6(CString(info.dst));
      if dst.None? {
        return Failure(ERR_PP2_IPV6_DST_IP);
      }
      addr := src.value + dst.value + (Port(info.srcPort) + Port(info.dstPort));
    } else if info.family == ADDR_FAMILY_UNIX {
      addr := Field108(info.src) + Field108(info.dst);
    } else {
      return Failure(ERR_PP2_ADDR_FAMILY);
    }
    if info.transport > TRANSPORT_PROTOCOL_DGRAM {
      return Failure(ERR_PP2_TRANSPORT_PROTOCOL);
    }
    r := Success(addr);
  }

  /** How a call ends. `BlockOverrun`: it writes beyond the block it has allocated. `NoAlignment`: the
      alignment `1 << power` is not a power of two in 16 bits, and line 665 divides by it. */
  datatype Creation =
    | Made(hdr: seq<uint8>)
    | Rejected(error: int)
    | BlockOverrun
    | NoAlignment

  ghost function Create(inet: Inet, info: Info): Creation
    requires inet.Valid()
  {
    match AddressBlock(inet, info)
    case Failure(error) => Rejected(error)
    case Success(addr) =>
      AddressBlockKnown(inet, info);
      if info.alignmentPower > 15 then NoAlignment
      else if !RoomFor(CopiedRaw(|addr|, info), info.alignmentPower) then BlockOverrun
      else Made(Written(addr, info))
  }

  /** `pp2_create_hdr`. */
  method CreateHdr(inet: Inet, info: PpInfo) returns (r: Creation)
    requires inet.Valid() && info.Valid()
    ensures r == Create(inet, info.Value())
  {
    hide AddressBlock, Written, RoomFor;
    var block := MakeAddressBlock(inet, info);
    if block.Failure? {
      return Rejected(block.error);
    }
    AddressBlockKnown(inet, info.Value());
    if info.alignmentPower > 15 {
      return NoAlignment;
    }
    var hdr, ok := CreateBlock(info, block.value);
    r := if ok then Made(hdr[..]) else BlockOverrun;
  }

  /** A header fits exactly when one is made and each vector is copied whole, and then it is the intended
      one. */
  lemma MadeAsMeant(inet: Inet, info: Info)
    requires inet.Valid() && AddressBlock(inet, info).Success?
    ensures var addr := AddressBlock(inet, info).value;
            && (Fits(addr, info) ==>
                  info.family <= 3 && info.transport <= 2 && Create(inet, info) == Made(Header(addr, info)))
            && (Fits(addr, info) <==> Create(inet, info).Made? && forall t :: t in info.tlvs ==> |t.value| <= 0xFFFC)
  {
    hide AddressBlock, Written, RoomFor, Header, Fits;
    AddressBlockKnown(inet, info);
    var addr := AddressBlock(inet, info).value;
    FitsExactly(addr, info);
    if Fits(addr, info) {
      WrittenAsMeant(addr, info);
    }
  }

  lemma NoopBytes(padding: uint16)
    ensures |TlvBytes(Tlv(TYPE_NOOP, Zeros(padding)))| == 3 + padding
  {
  }

  /** Lines 688-712: everything in front of the checksum vector. */
  method WriteBody(info: PpInfo, addr: seq<uint8>, hdr: array<uint8>, l: Layout) returns (index: nat, ok: bool)
    requires info.Valid() && info.family <= 3 && info.transport <= 2
    modifies hdr
    ensures ok <==> |WrittenBody(addr, old(info.Value()), l)| <= hdr.Length
    ensures ok ==>
              && index == |WrittenBody(addr, old(info.Value()), l)|
              && hdr[..index] == WrittenBody(addr, old(info.Value()), l)
  {
    hide CopiedBytes, FixedPart, TlvBytes;
    index, ok := Put(hdr, 0, FixedPart(info.family, info.transport, l.len));
    if !ok {
      return;
    }
    assert hdr[..index] == FixedPart(info.family, info.transport, l.len);
    index, ok := Put(hdr, index, addr);
    if !ok {
      return;
    }
    index, ok := WriteTlvs(hdr, index, info);
    NoopBytes(l.padding);
    if ok && info.alignmentPower > 1 {
      index, ok := WritePadding(hdr, index, l.padding);
    }
  }

  /** Lines 647-721. */
  method CreateBlock(info: PpInfo, addr: seq<uint8>) returns (hdr: array<uint8>, ok: bool)
    requires info.Valid() && info.family <= 3 && info.transport <= 2 && |addr| <= 216 && info.alignmentPower <= 15
    ensures fresh(hdr) && (ok <==> RoomFor(CopiedRaw(|addr|, info.Value()), info.alignmentPower))
    ensures ok ==> hdr[..] == Written(addr, info.Value())
  {
    hide LayoutOf, WrittenBody, RoomFor, CopiedRaw;
    var l := ComputeLayout(|addr|, info);
    BlockIsFilledExactly(|addr|, info.Value());
    WrittenSize(addr, info.Value());
    hdr := new uint8[l.hdrLen];
    var index;
    index, ok := WriteBody(info, addr, hdr, l);
    if !ok {
      return;
    }
    if info.crc32c {
      ok := index + 7 <= hdr.Length;
      if ok {
        WriteChecksum(hdr, index);
      }
    } else {
      assert hdr[..] == hdr[..index];
    }
  }
}
