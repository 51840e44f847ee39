/** The CRC32c of asio_server/proxy_protocol.cpp: the loop over the lookup table, the bit-serial
    definition it agrees with, and the bursts of errors it is sure to catch. */
module Crc32c {
  import opened MachineTypes
  import opened CrcTable

  // ---------- the bit-serial definition (reflected polynomial 0x82F63B78) ----------

  /** One step of the reflected shift register. */
  function Shift(w: bv32): bv32 {
    if w & 1 == 1 then (w >> 1) ^ 0x82F63B78 else w >> 1
  }

  function ShiftBy(w: bv32, n: nat): bv32
    decreases n
  {
    if n == 0 then w else ShiftBy(Shift(w), n - 1)
  }

  function Bits(b: uint8): bv8 {
    b as bv8
  }

  function FromBits(v: bv8): uint8 {
    v as int
  }

  function Word(b: uint8): bv32 {
    Bits(b) as bv32
  }

  /** A byte enters the register at its low end and is followed by eight shifts. */
  function SerialByte(crc: bv32, b: uint8): bv32 {
    ShiftBy(Xor(crc, Word(b)), 8)
  }

  function Register(crc: bv32, s: seq<uint8>): bv32 {
    if s == [] then crc else SerialByte(Register(crc, s[..|s| - 1]), s[|s| - 1])
  }

  function Serial(s: seq<uint8>): bv32 {
    Xor(Register(0xFFFFFFFF, s), 0xFFFFFFFF)
  }

  // ---------- the register is linear, and no two states meet ----------

  lemma XorShift(x: bv32, y: bv32)
    ensures (x ^ y) >> 1 == (x >> 1) ^ (y >> 1)
    ensures (x ^ y) & 1 == (x & 1) ^ (y & 1)
    ensures x & 1 == 0 || x & 1 == 1
    ensures y & 1 == 0 || y & 1 == 1
  {
  }

  lemma XorRegroup(x: bv32, y: bv32, p: bv32)
    ensures (x ^ p) ^ (y ^ p) == x ^ y
    ensures (x ^ p) ^ y == (x ^ y) ^ p
    ensures x ^ (y ^ p) == (x ^ y) ^ p
  {
  }

  lemma XorCancel(x: bv32, y: bv32, p: bv32)
    requires Xor(x, p) == Xor(y, p) || Xor(p, x) == Xor(p, y)
    ensures x == y
  {
    assert (x ^ p) ^ p == x && (y ^ p) ^ p == y && (p ^ x) ^ p == x && (p ^ y) ^ p == y;
  }

  lemma ShiftLinear(x: bv32, y: bv32)
    ensures Shift(Xor(x, y)) == Xor(Shift(x), Shift(y))
  {
    XorShift(x, y);
    XorRegroup(x >> 1, y >> 1, 0x82F63B78);
  }

  lemma ShiftInjective(x: bv32, y: bv32)
    requires Shift(x) == Shift(y)
    ensures x == y
  {
  }

  lemma {:induction false} ShiftByLinear(x: bv32, y: bv32, n: nat)
    ensures ShiftBy(Xor(x, y), n) == Xor(ShiftBy(x, n), ShiftBy(y, n))
    decreases n
  {
    if n > 0 {
      ShiftLinear(x, y);
      ShiftByLinear(Shift(x), Shift(y), n - 1);
    }
  }

  lemma {:induction false} ShiftByInjective(x: bv32, y: bv32, n: nat)
    requires ShiftBy(x, n) == ShiftBy(y, n)
    ensures x == y
    decreases n
  {
    if n > 0 {
      ShiftByInjective(Shift(x), Shift(y), n - 1);
      ShiftInjective(x, y);
    }
  }

  lemma {:induction false} ShiftByAdd(x: bv32, m: nat, n: nat)
    ensures ShiftBy(x, m + n) == ShiftBy(ShiftBy(x, m), n)
    decreases m
  {
    if m > 0 {
      ShiftByAdd(Shift(x), m - 1, n);
    }
  }

  /** Distinct states stay distinct under any one byte. */
  lemma SerialByteInjective(c: bv32, d: bv32, b: uint8)
    requires SerialByte(c, b) == SerialByte(d, b)
    ensures c == d
  {
    ShiftByInjective(Xor(c, Word(b)), Xor(d, Word(b)), 8);
    XorCancel(c, d, Word(b));
  }

  lemma {:induction false} RegisterInjective(c: bv32, d: bv32, s: seq<uint8>)
    requires Register(c, s) == Register(d, s)
    ensures c == d
  {
    if s != [] {
      var front := s[..|s| - 1];
      SerialByteInjective(Register(c, front), Register(d, front), s[|s| - 1]);
      RegisterInjective(c, d, front);
    }
  }

  lemma {:induction false} RegisterAppend(c: bv32, s: seq<uint8>, t: seq<uint8>)
    ensures Register(c, s + t) == Register(Register(c, s), t)
    decreases |t|
  {
    if t == [] {
      assert s + t == s;
    } else {
      var front := t[..|t| - 1];
      assert (s + t)[..|s + t| - 1] == s + front;
      RegisterAppend(c, s, front);
    }
  }

  // ---------- the table agrees with eight shifts ----------

  lemma BasisEntries()
    ensures ShiftBy(0x00, 8) == 0
    ensures ShiftBy(0x01, 8) == 0xF26B8303 && ShiftBy(0x02, 8) == 0xE13B70F7
    ensures ShiftBy(0x04, 8) == 0xC79A971F && ShiftBy(0x08, 8) == 0x8AD958CF
    ensures ShiftBy(0x10, 8) == 0x105EC76F && ShiftBy(0x20, 8) == 0x20BD8EDE
    ensures ShiftBy(0x40, 8) == 0x417B1DBC && ShiftBy(0x80, 8) == 0x82F63B78
  {
  }

  /** `mask` as a word when the byte has that bit, else 0. */
  function Bit(v: bv8, mask: bv8): bv32 {
    if v & mask != 0 then mask as bv32 else 0
  }

  lemma BitsOfByte(v: bv8)
    ensures v as bv32 == Xor((v & 0x0F) as bv32, (v & 0xF0) as bv32)
    ensures (v & 0x0F) as bv32 == Xor(Xor(Xor(Bit(v, 0x01), Bit(v, 0x02)), Bit(v, 0x04)), Bit(v, 0x08))
    ensures (v & 0xF0) as bv32 == Xor(Xor(Xor(Bit(v, 0x10), Bit(v, 0x20)), Bit(v, 0x40)), Bit(v, 0x80))
  {
  }

  lemma ShiftBit(v: bv8, mask: bv8, entry: bv32)
    requires ShiftBy(mask as bv32, 8) == entry && ShiftBy(0, 8) == 0
    ensures ShiftBy(Bit(v, mask), 8) == Entry(v, mask, entry)
  {
  }

  lemma ShiftFourBits(v: bv8, m0: bv8, e0: bv32, m1: bv8, e1: bv32, m2: bv8, e2: bv32, m3: bv8, e3: bv32)
    requires ShiftBy(0, 8) == 0 && ShiftBy(m0 as bv32, 8) == e0 && ShiftBy(m1 as bv32, 8) == e1
    requires ShiftBy(m2 as bv32, 8) == e2 && ShiftBy(m3 as bv32, 8) == e3
    ensures ShiftBy(Xor(Xor(Xor(Bit(v, m0), Bit(v, m1)), Bit(v, m2)), Bit(v, m3)), 8) ==
            Xor(Xor(Xor(Entry(v, m0, e0), Entry(v, m1, e1)), Entry(v, m2, e2)), Entry(v, m3, e3))
  {
    ShiftBit(v, m0, e0);
    ShiftBit(v, m1, e1);
    ShiftBit(v, m2, e2);
    ShiftBit(v, m3, e3);
    ShiftByLinear(Bit(v, m0), Bit(v, m1), 8);
    ShiftByLinear(Xor(Bit(v, m0), Bit(v, m1)), Bit(v, m2), 8);
    ShiftByLinear(Xor(Xor(Bit(v, m0), Bit(v, m1)), Bit(v, m2)), Bit(v, m3), 8);
  }

  /** The bits of a byte leave exactly the sum of their table entries in the register. */
  lemma EightShiftsSumBits(v: bv8)
    ensures ShiftBy(v as bv32, 8) == SumOfBits(v)
  {
    BasisEntries();
    BitsOfByte(v);
    LowNested(v);
    HighNested(v);
    ShiftFourBits(v, 0x01, 0xF26B8303, 0x02, 0xE13B70F7, 0x04, 0xC79A971F, 0x08, 0x8AD958CF);
    ShiftFourBits(v, 0x10, 0x105EC76F, 0x20, 0x20BD8EDE, 0x40, 0x417B1DBC, 0x80, 0x82F63B78);
    ShiftByLinear((v & 0x0F) as bv32, (v & 0xF0) as bv32, 8);
  }

  /** All 256 entries meet the eight-step definition. */
  lemma TableEntry(v: bv8)
    ensures |CRCTABLE| == 256 && CRCTABLE[v as int] == ShiftBy(v as bv32, 8)
  {
    TableIsLinear(v);
    EightShiftsSumBits(v);
  }

  lemma HalfZero(x: bv32, x': bv32)
    requires x & 0x0F == 0 && x' == x >> 4
    ensures ShiftBy(x, 4) == x'
  {
    var x1, x2, x3 := x >> 1, x >> 2, x >> 3;
    assert Shift(x) == x1 && Shift(x1) == x2 && Shift(x2) == x3 && Shift(x3) == x';
    assert ShiftBy(x, 4) == ShiftBy(x1, 3) == ShiftBy(x2, 2) == ShiftBy(x3, 1) == ShiftBy(x', 0);
  }

  function Down(w: bv32): bv32 {
    w >> 8
  }

  /** Eight zero bits at the low end only move the register down. */
  lemma LowZeros(x: bv32)
    requires x & 0xFF == 0
    ensures ShiftBy(x, 8) == Down(x)
  {
    HalfZero(x, x >> 4);
    HalfZero(x >> 4, x >> 8);
    ShiftByAdd(x, 4, 4);
  }

  function LowByte(w: bv32): bv8 {
    (w & 0xFF) as bv8
  }

  function HighBytes(w: bv32): bv32 {
    w & 0xFFFFFF00
  }

  /** One turn of the loop in the source. */
  function TableByte(crc: bv32, b: uint8): bv32 {
    TableIsLinear(LowByte(Xor(crc, Word(b))));
    Xor(Down(crc), CRCTABLE[LowByte(Xor(crc, Word(b))) as int])
  }

  lemma SplitWord(x: bv32)
    ensures x == Xor(HighBytes(x), LowByte(x) as bv32)
  {
  }

  lemma HighPart(crc: bv32, b: bv8)
    ensures Down(HighBytes(Xor(crc, b as bv32))) == Down(crc)
  {
  }

  lemma HighZeros(x: bv32)
    ensures HighBytes(x) & 0xFF == 0
  {
  }

  lemma TableByteIsSerial(crc: bv32, b: uint8)
    ensures TableByte(crc, b) == SerialByte(crc, b)
  {
    hide ShiftBy, Bits, CRCTABLE;
    var x := Xor(crc, Word(b));
    SplitWord(x);
    HighPart(crc, Bits(b));
    HighZeros(x);
    LowZeros(HighBytes(x));
    TableEntry(LowByte(x));
    ShiftByLinear(HighBytes(x), LowByte(x) as bv32, 8);
  }

  /** `crc32c` (lines 567-575). */
  method Crc32c(buf: array<uint8>, len: nat) returns (crc: bv32)
    requires len <= buf.Length
    ensures crc == Serial(buf[..len])
  {
    crc := 0xFFFFFFFF;
    var i := 0;
    while i < len
      invariant 0 <= i <= len
      invariant crc == Register(0xFFFFFFFF, buf[..i])
    {
      TableByteIsSerial(crc, buf[i]);
      assert buf[..i + 1][..i] == buf[..i];
      crc := TableByte(crc, buf[i]);
      i := i + 1;
    }
    crc := Xor(crc, 0xFFFFFFFF);
  }

  // ---------- what the checksum is sure to catch ----------

  function Up(w: bv32): bv32 {
    w << 8
  }

  lemma UpDown(w: bv32)
    requires w & 0xFF000000 == 0
    ensures Up(w) & 0xFF == 0 && Down(Up(w)) == w
  {
  }

  lemma WordIsLow(b: uint8)
    ensures Word(b) & 0xFFFFFF00 == 0
    ensures Up(Word(b)) & 0xFFFF0000 == 0 && Up(Up(Word(b))) & 0xFF000000 == 0
  {
    var v := Bits(b);
    assert (v as bv32) & 0xFFFFFF00 == 0;
    assert ((v as bv32) << 8) & 0xFFFF0000 == 0;
    assert (((v as bv32) << 8) << 8) & 0xFF000000 == 0;
  }

  /** A byte fed to the register after eight shifts might as well enter eight bits higher before them. */
  lemma EnterEarlier(y: bv32, w: bv32)
    requires w & 0xFF000000 == 0
    ensures Xor(ShiftBy(y, 8), w) == ShiftBy(Xor(y, Up(w)), 8)
  {
    UpDown(w);
    LowZeros(Up(w));
    ShiftByLinear(y, Up(w), 8);
  }

  /** Four bytes added to the register as one word, first byte lowest. */
  function FourBytes(c: bv32, a: bv8, b: bv8, d: bv8, e: bv8): bv32 {
    Xor(Xor(Xor(Xor(c, a as bv32), Up(b as bv32)), Up(Up(d as bv32))), Up(Up(Up(e as bv32))))
  }

  function Shift32(x: bv32): bv32 {
    ShiftBy(ShiftBy(ShiftBy(ShiftBy(x, 8), 8), 8), 8)
  }

  lemma TwoBytes(c: bv32, s: seq<uint8>)
    requires |s| == 2
    ensures Register(c, s) == SerialByte(SerialByte(c, s[0]), s[1])
  {
    assert s[..1][..0] == [];
    assert Register(c, s[..1]) == SerialByte(Register(c, []), s[0]);
  }

  /** Four bytes in a row act on the register like one addition followed by 32 shifts. */
  lemma FourBytesAtOnce(c: bv32, s: seq<uint8>)
    requires |s| == 4
    ensures Register(c, s) ==
            Shift32(FourBytes(c, Bits(s[0]), Bits(s[1]), Bits(s[2]), Bits(s[3])))
  {
    hide ShiftBy, Register, Xor, Up, Bits;
    var y0 := Xor(c, Word(s[0]));
    var y1 := Xor(y0, Up(Word(s[1])));
    var y2 := Xor(y1, Up(Up(Word(s[2]))));
    WordIsLow(s[1]);
    WordIsLow(s[2]);
    WordIsLow(s[3]);
    EnterEarlier(y0, Word(s[1]));
    EnterEarlier(ShiftBy(y1, 8), Word(s[2]));
    EnterEarlier(y1, Up(Word(s[2])));
    EnterEarlier(ShiftBy(ShiftBy(y2, 8), 8), Word(s[3]));
    EnterEarlier(ShiftBy(y2, 8), Up(Word(s[3])));
    EnterEarlier(y2, Up(Up(Word(s[3]))));
    assert s == s[..2] + s[2..];
    RegisterAppend(c, s[..2], s[2..]);
    TwoBytes(c, s[..2]);
    TwoBytes(Register(c, s[..2]), s[2..]);
  }

  function Packed(a: bv8, b: bv8, d: bv8, e: bv8): bv32 {
    (a as bv32) | ((b as bv32) << 8) | ((d as bv32) << 16) | ((e as bv32) << 24)
  }

  lemma PackedInjective(a: bv8, b: bv8, d: bv8, e: bv8)
    ensures LowByte(Packed(a, b, d, e)) == a
    ensures ((Packed(a, b, d, e) >> 8) & 0xFF) as bv8 == b
    ensures ((Packed(a, b, d, e) >> 16) & 0xFF) as bv8 == d
    ensures ((Packed(a, b, d, e) >> 24) & 0xFF) as bv8 == e
  {
  }

  lemma XorAssociative(x: bv32, y: bv32, z: bv32)
    ensures Xor(Xor(x, y), z) == Xor(x, Xor(y, z))
  {
    XorRegroup(x, y, z);
  }

  lemma Packing(a: bv8, b: bv8, d: bv8, e: bv8)
    ensures Xor(Xor(Xor(a as bv32, Up(b as bv32)), Up(Up(d as bv32))), Up(Up(Up(e as bv32)))) == Packed(a, b, d, e)
  {
  }

  lemma FourBytesPacked(c: bv32, a: bv8, b: bv8, d: bv8, e: bv8)
    ensures FourBytes(c, a, b, d, e) == Xor(c, Packed(a, b, d, e))
  {
    Packing(a, b, d, e);
    var u, v, w := Up(b as bv32), Up(Up(d as bv32)), Up(Up(Up(e as bv32)));
    XorAssociative(c, a as bv32, u);
    XorAssociative(c, Xor(a as bv32, u), v);
    XorAssociative(c, Xor(Xor(a as bv32, u), v), w);
  }

  lemma FourBytesInjective(c: bv32, a: bv8, b: bv8, d: bv8, e: bv8, a': bv8, b': bv8, d': bv8, e': bv8)
    requires FourBytes(c, a, b, d, e) == FourBytes(c, a', b', d', e')
    ensures a == a' && b == b' && d == d' && e == e'
  {
    FourBytesPacked(c, a, b, d, e);
    FourBytesPacked(c, a', b', d', e');
    XorCancel(Packed(a, b, d, e), Packed(a', b', d', e'), c);
    PackedInjective(a, b, d, e);
    PackedInjective(a', b', d', e');
  }

  lemma BitsKeepByte(x: uint8)
    ensures FromBits(Bits(x)) == x
  {
    assert x % 256 == x;
  }

  lemma SameByte(x: uint8, y: uint8)
    requires Bits(x) == Bits(y)
    ensures x == y
  {
    BitsKeepByte(x);
    BitsKeepByte(y);
  }

  lemma Shift32Injective(x: bv32, y: bv32)
    requires Shift32(x) == Shift32(y)
    ensures x == y
  {
    ShiftByInjective(ShiftBy(ShiftBy(ShiftBy(x, 8), 8), 8), ShiftBy(ShiftBy(ShiftBy(y, 8), 8), 8), 8);
    ShiftByInjective(ShiftBy(ShiftBy(x, 8), 8), ShiftBy(ShiftBy(y, 8), 8), 8);
    ShiftByInjective(ShiftBy(x, 8), ShiftBy(y, 8), 8);
    ShiftByInjective(x, y, 8);
  }

  lemma FourBytesApart(c: bv32, s: seq<uint8>, t: seq<uint8>)
    requires |s| == |t| == 4 && Register(c, s) == Register(c, t)
    ensures s == t
  {
    FourBytesAtOnce(c, s);
    FourBytesAtOnce(c, t);
    Shift32Injective(FourBytes(c, Bits(s[0]), Bits(s[1]), Bits(s[2]), Bits(s[3])),
                     FourBytes(c, Bits(t[0]), Bits(t[1]), Bits(t[2]), Bits(t[3])));
    SameWords(c, s, t);
  }

  lemma SameWords(c: bv32, s: seq<uint8>, t: seq<uint8>)
    requires |s| == |t| == 4
    requires FourBytes(c, Bits(s[0]), Bits(s[1]), Bits(s[2]), Bits(s[3])) ==
             FourBytes(c, Bits(t[0]), Bits(t[1]), Bits(t[2]), Bits(t[3]))
    ensures s == t
  {
    FourBytesInjective(c, Bits(s[0]), Bits(s[1]), Bits(s[2]), Bits(s[3]),
                       Bits(t[0]), Bits(t[1]), Bits(t[2]), Bits(t[3]));
    SameByte(s[0], t[0]);
    SameByte(s[1], t[1]);
    SameByte(s[2], t[2]);
    SameByte(s[3], t[3]);
  }

  lemma SameContext(c: bv32, before: seq<uint8>, s: seq<uint8>, t: seq<uint8>, after: seq<uint8>)
    requires |s| == |t| == 4 && Register(c, before + s + after) == Register(c, before + t + after)
    ensures s == t
  {
    RegisterAppend(c, before + s, after);
    RegisterAppend(c, before + t, after);
    RegisterInjective(Register(c, before + s), Register(c, before + t), after);
    RegisterAppend(c, before, s);
    RegisterAppend(c, before, t);
    FourBytesApart(Register(c, before), s, t);
  }

  predicate DifferWithin(s: seq<uint8>, t: seq<uint8>, i: nat) {
    |s| == |t| && forall k :: 0 <= k < |s| && s[k] != t[k] ==> i <= k < i + 4
  }

  lemma SplitAround(s: seq<uint8>, t: seq<uint8>, i: nat)
      returns (before: seq<uint8>, m: seq<uint8>, n: seq<uint8>, after: seq<uint8>)
    requires DifferWithin(s, t, i) && i + 4 <= |s|
    ensures |m| == |n| == 4 && s == before + m + after && t == before + n + after
  {
    before, m, n, after := s[..i], s[i..i + 4], t[i..i + 4], s[i + 4..];
    assert t[..i] == before && t[i + 4..] == after;
  }

  lemma Window(c: bv32, s: seq<uint8>, t: seq<uint8>, i: nat)
    requires DifferWithin(s, t, i) && i + 4 <= |s| && Register(c, s) == Register(c, t)
    ensures s == t
  {
    var before, m, n, after := SplitAround(s, t, i);
    SameContext(c, before, m, n, after);
  }

  lemma Padded(s: seq<uint8>, t: seq<uint8>, i: nat, z: seq<uint8>)
    requires DifferWithin(s, t, i)
    ensures DifferWithin(s + z, t + z, i)
    ensures s + z == t + z ==> s == t
  {
    assert s == (s + z)[..|s|] && t == (t + z)[..|t|];
  }

  lemma SameRegister(c: bv32, s: seq<uint8>, t: seq<uint8>, i: nat, z: seq<uint8>)
    requires |z| == 4
    requires DifferWithin(s, t, i) && i <= |s| && Register(c, s) == Register(c, t)
    ensures s == t
  {
    RegisterAppend(c, s, z);
    RegisterAppend(c, t, z);
    Padded(s, t, i, z);
    Window(c, s + z, t + z, i);
  }

  /** Inputs of one length that differ, but only within four consecutive bytes, never collide. */
  lemma BurstNeverCollides(s: seq<uint8>, t: seq<uint8>, i: nat)
    requires DifferWithin(s, t, i) && i <= |s| && s != t
    ensures Serial(s) != Serial(t)
  {
    if Serial(s) == Serial(t) {
      XorCancel(Register(0xFFFFFFFF, s), Register(0xFFFFFFFF, t), 0xFFFFFFFF);
      SameRegister(0xFFFFFFFF, s, t, i, [0, 0, 0, 0]);
    }
  }

  // ---------- the checksum in memory ----------

  function Octet(w: bv32): uint8 {
    FromBits(LowByte(w))
  }

  /** The four bytes of a `uint32_t` as `memcpy` sees them on a little-endian host. */
  function Octets(w: bv32): (s: seq<uint8>)
    ensures |s| == 4
  {
    [Octet(w), Octet(Down(w)), Octet(Down(Down(w))), Octet(Down(Down(Down(w))))]
  }

  lemma OctetInjective(w: bv32, v: bv32)
    requires Octet(w) == Octet(v)
    ensures LowByte(w) == LowByte(v)
  {
  }

  lemma BytesDecideWord(w: bv32, v: bv32)
    requires LowByte(w) == LowByte(v) && LowByte(Down(w)) == LowByte(Down(v))
    requires LowByte(Down(Down(w))) == LowByte(Down(Down(v)))
    requires LowByte(Down(Down(Down(w)))) == LowByte(Down(Down(Down(v))))
    ensures w == v
  {
  }

  lemma OctetsInjective(w: bv32, v: bv32)
    requires Octets(w) == Octets(v)
    ensures w == v
  {
    assert Octets(w)[0] == Octets(v)[0] && Octets(w)[1] == Octets(v)[1];
    assert Octets(w)[2] == Octets(v)[2] && Octets(w)[3] == Octets(v)[3];
    OctetInjective(w, v);
    OctetInjective(Down(w), Down(v));
    OctetInjective(Down(Down(w)), Down(Down(v)));
    OctetInjective(Down(Down(Down(w))), Down(Down(Down(v))));
    BytesDecideWord(w, v);
  }

  /** The lowest byte comes first. */
  lemma OctetsAreLittleEndian(w: bv32)
    ensures Octets(w) == [Octet(w), Octet(w >> 8), Octet(w >> 16), Octet(w >> 24)]
  {
    hide Octet;
    DownTwice(w);
  }

  lemma DownTwice(w: bv32)
    ensures Down(Down(w)) == w >> 16 && Down(Down(Down(w))) == w >> 24
  {
  }

  /** Check values: of no bytes, of the byte 0 and of the byte 255. */
  lemma CheckValues()
    ensures Serial([]) == 0 && Serial([0x00]) == 0x527D5351 && Serial([0xFF]) == 0xFF000000
  {
    EightShifts();
    assert Word(0x00) == 0 && Word(0xFF) == 0xFF;
    OneByte(0x00);
    OneByte(0xFF);
    LowZeros(0xFFFFFF00);
  }

  lemma EightShifts()
    ensures ShiftBy(0xFFFFFFFF, 8) == 0xAD82ACAE
  {
    assert Shift(0xFFFFFFFF) == 0xFD09C487;
    assert Shift(0xFD09C487) == 0xFC72D93B;
    assert Shift(0xFC72D93B) == 0xFCCF57E5;
    assert Shift(0xFCCF57E5) == 0xFC91908A;
    assert Shift(0xFC91908A) == 0x7E48C845;
    assert Shift(0x7E48C845) == 0xBDD25F5A;
    assert Shift(0xBDD25F5A) == 0x5EE92FAD;
    assert Shift(0x5EE92FAD) == 0xAD82ACAE;
  }

  lemma OneByte(b: uint8)
    ensures Serial([b]) == Xor(SerialByte(0xFFFFFFFF, b), 0xFFFFFFFF)
  {
    hide SerialByte;
    assert [b][..0] == [] && Register(0xFFFFFFFF, []) == 0xFFFFFFFF;
  }

  /** The checksum bytes that a header carries. */
  function Checksum(s: seq<uint8>): (c: seq<uint8>)
    ensures |c| == 4
  {
    Octets(Serial(s))
  }

  lemma ChecksumCatchesBurst(s: seq<uint8>, t: seq<uint8>, i: nat)
    requires DifferWithin(s, t, i) && i <= |s| && s != t
    ensures Checksum(s) != Checksum(t)
  {
    BurstNeverCollides(s, t, i);
    if Checksum(s) == Checksum(t) {
      OctetsInjective(Serial(s), Serial(t));
    }
  }
}
