/** The lookup table `crctable` of asio_server/proxy_protocol.cpp, and the fact that it is linear:
    every entry is the sum (exclusive or) of the entries of the single bits of its index. */
module CrcTable {

  // Sixteen rows of sixteen entries, in the order of the source.
  const ROW0: seq<bv32> := [
    0x00000000, 0xF26B8303, 0xE13B70F7, 0x1350F3F4, 0xC79A971F, 0x35F1141C, 0x26A1E7E8, 0xD4CA64EB,
    0x8AD958CF, 0x78B2DBCC, 0x6BE22838, 0x9989AB3B, 0x4D43CFD0, 0xBF284CD3, 0xAC78BF27, 0x5E133C24
  ]
  const ROW1: seq<bv32> := [
    0x105EC76F, 0xE235446C, 0xF165B798, 0x030E349B, 0xD7C45070, 0x25AFD373, 0x36FF2087, 0xC494A384,
    0x9A879FA0, 0x68EC1CA3, 0x7BBCEF57, 0x89D76C54, 0x5D1D08BF, 0xAF768BBC, 0xBC267848, 0x4E4DFB4B
  ]
  const ROW2: seq<bv32> := [
    0x20BD8EDE, 0xD2D60DDD, 0xC186FE29, 0x33ED7D2A, 0xE72719C1, 0x154C9AC2, 0x061C6936, 0xF477EA35,
    0xAA64D611, 0x580F5512, 0x4B5FA6E6, 0xB93425E5, 0x6DFE410E, 0x9F95C20D, 0x8CC531F9, 0x7EAEB2FA
  ]
  const ROW3: seq<bv32> := [
    0x30E349B1, 0xC288CAB2, 0xD1D83946, 0x23B3BA45, 0xF779DEAE, 0x05125DAD, 0x1642AE59, 0xE4292D5A,
    0xBA3A117E, 0x4851927D, 0x5B016189, 0xA96AE28A, 0x7DA08661, 0x8FCB0562, 0x9C9BF696, 0x6EF07595
  ]
  const ROW4: seq<bv32> := [
    0x417B1DBC, 0xB3109EBF, 0xA0406D4B, 0x522BEE48, 0x86E18AA3, 0x748A09A0, 0x67DAFA54, 0x95B17957,
    0xCBA24573, 0x39C9C670, 0x2A993584, 0xD8F2B687, 0x0C38D26C, 0xFE53516F, 0xED03A29B, 0x1F682198
  ]
  const ROW5: seq<bv32> := [
    0x5125DAD3, 0xA34E59D0, 0xB01EAA24, 0x42752927, 0x96BF4DCC, 0x64D4CECF, 0x77843D3B, 0x85EFBE38,
    0xDBFC821C, 0x2997011F, 0x3AC7F2EB, 0xC8AC71E8, 0x1C661503, 0xEE0D9600, 0xFD5D65F4, 0x0F36E6F7
  ]
  const ROW6: seq<bv32> := [
    0x61C69362, 0x93AD1061, 0x80FDE395, 0x72966096, 0xA65C047D, 0x5437877E, 0x4767748A, 0xB50CF789,
    0xEB1FCBAD, 0x197448AE, 0x0A24BB5A, 0xF84F3859, 0x2C855CB2, 0xDEEEDFB1, 0xCDBE2C45, 0x3FD5AF46
  ]
  const ROW7: seq<bv32> := [
    0x7198540D, 0x83F3D70E, 0x90A324FA, 0x62C8A7F9, 0xB602C312, 0x44694011, 0x5739B3E5, 0xA55230E6,
    0xFB410CC2, 0x092A8FC1, 0x1A7A7C35, 0xE811FF36, 0x3CDB9BDD, 0xCEB018DE, 0xDDE0EB2A, 0x2F8B6829
  ]
  const ROW8: seq<bv32> := [
    0x82F63B78, 0x709DB87B, 0x63CD4B8F, 0x91A6C88C, 0x456CAC67, 0xB7072F64, 0xA457DC90, 0x563C5F93,
    0x082F63B7, 0xFA44E0B4, 0xE9141340, 0x1B7F9043, 0xCFB5F4A8, 0x3DDE77AB, 0x2E8E845F, 0xDCE5075C
  ]
  const ROW9: seq<bv32> := [
    0x92A8FC17, 0x60C37F14, 0x73938CE0, 0x81F80FE3, 0x55326B08, 0xA759E80B, 0xB4091BFF, 0x466298FC,
    0x1871A4D8, 0xEA1A27DB, 0xF94AD42F, 0x0B21572C, 0xDFEB33C7, 0x2D80B0C4, 0x3ED04330, 0xCCBBC033
  ]
  const ROW10: seq<bv32> := [
    0xA24BB5A6, 0x502036A5, 0x4370C551, 0xB11B4652, 0x65D122B9, 0x97BAA1BA, 0x84EA524E, 0x7681D14D,
    0x2892ED69, 0xDAF96E6A, 0xC9A99D9E, 0x3BC21E9D, 0xEF087A76, 0x1D63F975, 0x0E330A81, 0xFC588982
  ]
  const ROW11: seq<bv32> := [
    0xB21572C9, 0x407EF1CA, 0x532E023E, 0xA145813D, 0x758FE5D6, 0x87E466D5, 0x94B49521, 0x66DF1622,
    0x38CC2A06, 0xCAA7A905, 0xD9F75AF1, 0x2B9CD9F2, 0xFF56BD19, 0x0D3D3E1A, 0x1E6DCDEE, 0xEC064EED
  ]
  const ROW12: seq<bv32> := [
    0xC38D26C4, 0x31E6A5C7, 0x22B65633, 0xD0DDD530, 0x0417B1DB, 0xF67C32D8, 0xE52CC12C, 0x1747422F,
    0x49547E0B, 0xBB3FFD08, 0xA86F0EFC, 0x5A048DFF, 0x8ECEE914, 0x7CA56A17, 0x6FF599E3, 0x9D9E1AE0
  ]
  const ROW13: seq<bv32> := [
    0xD3D3E1AB, 0x21B862A8, 0x32E8915C, 0xC083125F, 0x144976B4, 0xE622F5B7, 0xF5720643, 0x07198540,
    0x590AB964, 0xAB613A67, 0xB831C993, 0x4A5A4A90, 0x9E902E7B, 0x6CFBAD78, 0x7FAB5E8C, 0x8DC0DD8F
  ]
  const ROW14: seq<bv32> := [
    0xE330A81A, 0x115B2B19, 0x020BD8ED, 0xF0605BEE, 0x24AA3F05, 0xD6C1BC06, 0xC5914FF2, 0x37FACCF1,
    0x69E9F0D5, 0x9B8273D6, 0x88D28022, 0x7AB90321, 0xAE7367CA, 0x5C18E4C9, 0x4F48173D, 0xBD23943E
  ]
  const ROW15: seq<bv32> := [
    0xF36E6F75, 0x0105EC76, 0x12551F82, 0xE03E9C81, 0x34F4F86A, 0xC69F7B69, 0xD5CF889D, 0x27A40B9E,
    0x79B737BA, 0x8BDCB4B9, 0x988C474D, 0x6AE7C44E, 0xBE2DA0A5, 0x4C4623A6, 0x5F16D052, 0xAD7D5351
  ]

  const ROWS: seq<seq<bv32>> :=
    [ROW0, ROW1, ROW2, ROW3, ROW4, ROW5, ROW6, ROW7, ROW8, ROW9, ROW10, ROW11, ROW12, ROW13, ROW14, ROW15]

  const CRCTABLE: seq<bv32> := Joined(ROWS)

  function Joined(rows: seq<seq<bv32>>): seq<bv32> {
    if rows == [] then [] else rows[0] + Joined(rows[1..])
  }

  function Xor(x: bv32, y: bv32): bv32 {
    x ^ y
  }

  /** `entry` when the byte has the bit `mask`, else 0. */
  function Entry(v: bv8, mask: bv8, entry: bv32): bv32 {
    if v & mask != 0 then entry else 0
  }

  function LowSum(v: bv8): bv32 {
    (if v & 0x01 != 0 then 0xF26B8303 else 0) ^ (if v & 0x02 != 0 then 0xE13B70F7 else 0) ^
    (if v & 0x04 != 0 then 0xC79A971F else 0) ^ (if v & 0x08 != 0 then 0x8AD958CF else 0)
  }

  function HighSum(v: bv8): bv32 {
    (if v & 0x10 != 0 then 0x105EC76F else 0) ^ (if v & 0x20 != 0 then 0x20BD8EDE else 0) ^
    (if v & 0x40 != 0 then 0x417B1DBC else 0) ^ (if v & 0x80 != 0 then 0x82F63B78 else 0)
  }

  /** The sum of the table entries of the bits of `v`. */
  function SumOfBits(v: bv8): bv32 {
    Xor(LowSum(v), HighSum(v))
  }

  lemma LowNested(v: bv8)
    ensures LowSum(v) == Xor(Xor(Xor(Entry(v, 0x01, 0xF26B8303), Entry(v, 0x02, 0xE13B70F7)),
                                 Entry(v, 0x04, 0xC79A971F)), Entry(v, 0x08, 0x8AD958CF))
  {
  }

  lemma HighNested(v: bv8)
    ensures HighSum(v) == Xor(Xor(Xor(Entry(v, 0x10, 0x105EC76F), Entry(v, 0x20, 0x20BD8EDE)),
                                  Entry(v, 0x40, 0x417B1DBC)), Entry(v, 0x80, 0x82F63B78))
  {
    if v & 0x10 != 0 {
      if v & 0x20 != 0 {
      }
    }
  }

  /** The row says what the sum is. */
  predicate InRow(v: bv8, r: nat, row: seq<bv32>) {
    |row| == 16 && v as int / 16 == r && row[v as int % 16] == SumOfBits(v)
  }

  lemma Row0(v: bv8)
    requires 0x00 <= v <= 0x0F
    ensures InRow(v, 0, ROW0)
  {
    if v <= 0x07 {
      assert v == 0x00 || v == 0x01 || v == 0x02 || v == 0x03 || v == 0x04 || v == 0x05 || v == 0x06 || v == 0x07;
    } else {
      assert v == 0x08 || v == 0x09 || v == 0x0A || v == 0x0B || v == 0x0C || v == 0x0D || v == 0x0E || v == 0x0F;
    }
  }

  lemma Row1(v: bv8)
    requires 0x10 <= v <= 0x1F
    ensures InRow(v, 1, ROW1)
  {
    if v <= 0x17 {
      assert v == 0x10 || v == 0x11 || v == 0x12 || v == 0x13 || v == 0x14 || v == 0x15 || v == 0x16 || v == 0x17;
    } else {
      assert v == 0x18 || v == 0x19 || v == 0x1A || v == 0x1B || v == 0x1C || v == 0x1D || v == 0x1E || v == 0x1F;
    }
  }

  lemma Row2(v: bv8)
    requires 0x20 <= v <= 0x2F
    ensures InRow(v, 2, ROW2)
  {
    if v <= 0x27 {
      assert v == 0x20 || v == 0x21 || v == 0x22 || v == 0x23 || v == 0x24 || v == 0x25 || v == 0x26 || v == 0x27;
    } else {
      assert v == 0x28 || v == 0x29 || v == 0x2A || v == 0x2B || v == 0x2C || v == 0x2D || v == 0x2E || v == 0x2F;
    }
  }

  lemma Row3(v: bv8)
    requires 0x30 <= v <= 0x3F
    ensures InRow(v, 3, ROW3)
  {
    if v <= 0x37 {
      assert v == 0x30 || v == 0x31 || v == 0x32 || v == 0x33 || v == 0x34 || v == 0x35 || v == 0x36 || v == 0x37;
    } else {
      assert v == 0x38 || v == 0x39 || v == 0x3A || v == 0x3B || v == 0x3C || v == 0x3D || v == 0x3E || v == 0x3F;
    }
  }

  lemma Row4(v: bv8)
    requires 0x40 <= v <= 0x4F
    ensures InRow(v, 4, ROW4)
  {
    if v <= 0x47 {
      assert v == 0x40 || v == 0x41 || v == 0x42 || v == 0x43 || v == 0x44 || v == 0x45 || v == 0x46 || v == 0x47;
    } else {
      assert v == 0x48 || v == 0x49 || v == 0x4A || v == 0x4B || v == 0x4C || v == 0x4D || v == 0x4E || v == 0x4F;
    }
  }

  lemma Row5(v: bv8)
    requires 0x50 <= v <= 0x5F
    ensures InRow(v, 5, ROW5)
  {
    if v <= 0x57 {
      assert v == 0x50 || v == 0x51 || v == 0x52 || v == 0x53 || v == 0x54 || v == 0x55 || v == 0x56 || v == 0x57;
    } else {
      assert v == 0x58 || v == 0x59 || v == 0x5A || v == 0x5B || v == 0x5C || v == 0x5D || v == 0x5E || v == 0x5F;
    }
  }

  lemma Row6(v: bv8)
    requires 0x60 <= v <= 0x6F
    ensures InRow(v, 6, ROW6)
  {
    if v <= 0x67 {
      assert v == 0x60 || v == 0x61 || v == 0x62 || v == 0x63 || v == 0x64 || v == 0x65 || v == 0x66 || v == 0x67;
    } else {
      assert v == 0x68 || v == 0x69 || v == 0x6A || v == 0x6B || v == 0x6C || v == 0x6D || v == 0x6E || v == 0x6F;
    }
  }

  lemma Row7(v: bv8)
    requires 0x70 <= v <= 0x7F
    ensures InRow(v, 7, ROW7)
  {
    if v <= 0x77 {
      assert v == 0x70 || v == 0x71 || v == 0x72 || v == 0x73 || v == 0x74 || v == 0x75 || v == 0x76 || v == 0x77;
    } else {
      assert v == 0x78 || v == 0x79 || v == 0x7A || v == 0x7B || v == 0x7C || v == 0x7D || v == 0x7E || v == 0x7F;
    }
  }

  lemma Row8(v: bv8)
    requires 0x80 <= v <= 0x8F
    ensures InRow(v, 8, ROW8)
  {
    if v <= 0x87 {
      assert v == 0x80 || v == 0x81 || v == 0x82 || v == 0x83 || v == 0x84 || v == 0x85 || v == 0x86 || v == 0x87;
    } else {
      assert v == 0x88 || v == 0x89 || v == 0x8A || v == 0x8B || v == 0x8C || v == 0x8D || v == 0x8E || v == 0x8F;
    }
  }

  lemma Row9(v: bv8)
    requires 0x90 <= v <= 0x9F
    ensures InRow(v, 9, ROW9)
  {
    if v <= 0x97 {
      assert v == 0x90 || v == 0x91 || v == 0x92 || v == 0x93 || v == 0x94 || v == 0x95 || v == 0x96 || v == 0x97;
    } else {
      assert v == 0x98 || v == 0x99 || v == 0x9A || v == 0x9B || v == 0x9C || v == 0x9D || v == 0x9E || v == 0x9F;
    }
  }

  lemma Row10(v: bv8)
    requires 0xA0 <= v <= 0xAF
    ensures InRow(v, 10, ROW10)
  {
    if v <= 0xA7 {
      assert v == 0xA0 || v == 0xA1 || v == 0xA2 || v == 0xA3 || v == 0xA4 || v == 0xA5 || v == 0xA6 || v == 0xA7;
    } else {
      assert v == 0xA8 || v == 0xA9 || v == 0xAA || v == 0xAB || v == 0xAC || v == 0xAD || v == 0xAE || v == 0xAF;
    }
  }

  lemma Row11(v: bv8)
    requires 0xB0 <= v <= 0xBF
    ensures InRow(v, 11, ROW11)
  {
    if v <= 0xB7 {
      assert v == 0xB0 || v == 0xB1 || v == 0xB2 || v == 0xB3 || v == 0xB4 || v == 0xB5 || v == 0xB6 || v == 0xB7;
    } else {
      assert v == 0xB8 || v == 0xB9 || v == 0xBA || v == 0xBB || v == 0xBC || v == 0xBD || v == 0xBE || v == 0xBF;
    }
  }

  lemma Row12(v: bv8)
    requires 0xC0 <= v <= 0xCF
    ensures InRow(v, 12, ROW12)
  {
    if v <= 0xC7 {
      assert v == 0xC0 || v == 0xC1 || v == 0xC2 || v == 0xC3 || v == 0xC4 || v == 0xC5 || v == 0xC6 || v == 0xC7;
    } else {
      assert v == 0xC8 || v == 0xC9 || v == 0xCA || v == 0xCB || v == 0xCC || v == 0xCD || v == 0xCE || v == 0xCF;
    }
  }

  lemma Row13(v: bv8)
    requires 0xD0 <= v <= 0xDF
    ensures InRow(v, 13, ROW13)
  {
    if v <= 0xD7 {
      assert v == 0xD0 || v == 0xD1 || v == 0xD2 || v == 0xD3 || v == 0xD4 || v == 0xD5 || v == 0xD6 || v == 0xD7;
    } else {
      assert v == 0xD8 || v == 0xD9 || v == 0xDA || v == 0xDB || v == 0xDC || v == 0xDD || v == 0xDE || v == 0xDF;
    }
  }

  lemma Row14(v: bv8)
    requires 0xE0 <= v <= 0xEF
    ensures InRow(v, 14, ROW14)
  {
    if v <= 0xE7 {
      assert v == 0xE0 || v == 0xE1 || v == 0xE2 || v == 0xE3 || v == 0xE4 || v == 0xE5 || v == 0xE6 || v == 0xE7;
    } else {
      assert v == 0xE8 || v == 0xE9 || v == 0xEA || v == 0xEB || v == 0xEC || v == 0xED || v == 0xEE || v == 0xEF;
    }
  }

  lemma Row15(v: bv8)
    requires 0xF0 <= v <= 0xFF
    ensures InRow(v, 15, ROW15)
  {
    if v <= 0xF7 {
      assert v == 0xF0 || v == 0xF1 || v == 0xF2 || v == 0xF3 || v == 0xF4 || v == 0xF5 || v == 0xF6 || v == 0xF7;
    } else {
      assert v == 0xF8 || v == 0xF9 || v == 0xFA || v == 0xFB || v == 0xFC || v == 0xFD || v == 0xFE || v == 0xFF;
    }
  }

  lemma {:induction false} JoinedAt(rows: seq<seq<bv32>>, r: nat, i: nat)
    requires r < |rows| && i < 16 && forall k :: 0 <= k < |rows| ==> |rows[k]| == 16
    ensures |Joined(rows)| == 16 * |rows| && Joined(rows)[16 * r + i] == rows[r][i]
  {
    if r > 0 {
      JoinedAt(rows[1..], r - 1, i);
    } else if |rows| > 1 {
      JoinedAt(rows[1..], 0, i);
    }
  }

  lemma RowSizes()
    ensures |ROWS| == 16 && forall k :: 0 <= k < 16 ==> |ROWS[k]| == 16
  {
  }

  lemma RowOf(v: bv8) returns (r: nat)
    ensures r < |ROWS| && InRow(v, r, ROWS[r])
  {
    hide InRow;
    if v <= 0x0F {
      Row0(v);
      r := 0;
    } else if v <= 0x1F {
      Row1(v);
      r := 1;
    } else if v <= 0x2F {
      Row2(v);
      r := 2;
    } else if v <= 0x3F {
      Row3(v);
      r := 3;
    } else if v <= 0x4F {
      Row4(v);
      r := 4;
    } else if v <= 0x5F {
      Row5(v);
      r := 5;
    } else if v <= 0x6F {
      Row6(v);
      r := 6;
    } else if v <= 0x7F {
      Row7(v);
      r := 7;
    } else if v <= 0x8F {
      Row8(v);
      r := 8;
    } else if v <= 0x9F {
      Row9(v);
      r := 9;
    } else if v <= 0xAF {
      Row10(v);
      r := 10;
    } else if v <= 0xBF {
      Row11(v);
      r := 11;
    } else if v <= 0xCF {
      Row12(v);
      r := 12;
    } else if v <= 0xDF {
      Row13(v);
      r := 13;
    } else if v <= 0xEF {
      Row14(v);
      r := 14;
    } else {
      Row15(v);
      r := 15;
    }
  }

  lemma TableIsLinear(v: bv8)
    ensures |CRCTABLE| == 256 && CRCTABLE[v as int] == SumOfBits(v)
  {
    hide SumOfBits, Joined;
    var r := RowOf(v);
    RowSizes();
    JoinedAt(ROWS, r, v as int % 16);
  }
}
