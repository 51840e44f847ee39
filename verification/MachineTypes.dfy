/** Fixed-width integers of the C sources. */
module MachineTypes {
  type uint8 = x: int | 0 <= x < 0x100
  type uint16 = x: int | 0 <= x < 0x1_0000

  /** Conversion to `uint16_t`. */
  function U16(x: int): uint16 {
    x % 0x1_0000
  }

  lemma U16Is(x: int, r: int, wraps: int)
    requires x == r + wraps * 0x1_0000 && 0 <= r < 0x1_0000
    ensures U16(x) == r
  {
  }

  lemma U16Once(x: nat)
    requires x < 0x2_0000
    ensures U16(x) == if x <= 0xFFFF then x else x - 0x1_0000
  {
  }

  lemma U16Add(x: int, y: int)
    ensures U16(U16(x) + y) == U16(x + y)
  {
    var q, q' := x / 0x1_0000, (x + y) / 0x1_0000;
    assert U16(x) + y == (q' - q) * 0x1_0000 + U16(x + y);
  }
}

/** Results shared by the modules. */
module Wrappers {
  datatype Option<+T> = None | Some(value: T)

  datatype Result<+T> = Success(value: T) | Failure(error: int)
}

/** Writing into C memory blocks. */
module Memory {
  import opened MachineTypes

  /** `memcpy(dst + at, src, |src|)`. */
  method Memcpy(dst: array<uint8>, at: nat, src: seq<uint8>)
    requires at + |src| <= dst.Length
    modifies dst
    ensures dst[..at] == old(dst[..at])
    ensures dst[at..at + |src|] == src
    ensures dst[at + |src|..] == old(dst[at + |src|..])
    ensures dst[..at + |src|] == old(dst[..at]) + src
  {
    forall i | 0 <= i < |src| {
      dst[at + i] := src[i];
    }
    assert dst[..at + |src|] == dst[..at] + dst[at..at + |src|];
  }
}

/** Division with remainder for a divisor that is not a constant. */
module Multiples {
  lemma Apart(a: int, b: int, n: int)
    requires n > 0 && a > b
    ensures a * n >= b * n + n
  {
    assert (a - b - 1) * n >= 0;
    assert a * n == (a - b - 1) * n + b * n + n;
  }

  lemma Euclid(x: int, n: int)
    requires n > 0
    ensures x == (x / n) * n + x % n && 0 <= x % n < n
  {
  }

  lemma DivModIs(x: int, n: int, q: int, r: int)
    requires n > 0 && x == q * n + r && 0 <= r < n
    ensures x / n == q && x % n == r
  {
    Euclid(x, n);
    if x / n > q {
      Apart(x / n, q, n);
    } else if x / n < q {
      Apart(q, x / n, n);
    }
  }
}

/** Bytes laid out in a block. */
module Blocks {
  import opened MachineTypes

  ghost predicate Starts(buf: seq<uint8>, pos: nat, s: seq<uint8>) {
    pos + |s| <= |buf| && buf[pos..pos + |s|] == s
  }

  lemma StartsSplit(buf: seq<uint8>, pos: nat, s: seq<uint8>, t: seq<uint8>)
    requires Starts(buf, pos, s + t)
    ensures Starts(buf, pos, s) && Starts(buf, pos + |s|, t)
  {
    var whole := buf[pos..pos + |s + t|];
    assert whole[..|s|] == s && whole[|s|..] == t;
  }
}
