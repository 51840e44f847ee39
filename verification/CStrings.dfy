/** The C library's searches in memory blocks. */
module CStrings {
  import opened MachineTypes
  import opened Wrappers

  /** Where a search in a NUL-terminated string ends; `Beyond` when it runs off the block. */
  datatype Search = Found(index: nat) | Absent | Beyond

  /** `strchr` from `i` on. */
  function Strchr(block: seq<uint8>, i: nat, c: uint8): (s: Search)
    requires c != 0
    ensures s.Found? ==> i <= s.index < |block| && block[s.index] == c
    decreases |block| - i
  {
    if i >= |block| then Beyond
    else if block[i] == c then Found(i)
    else if block[i] == 0 then Absent
    else Strchr(block, i + 1, c)
  }

  /** `strstr` for two characters. */
  function Strstr(block: seq<uint8>, i: nat, c: uint8, d: uint8): (s: Search)
    requires c != 0 && d != 0
    ensures s.Found? ==> i <= s.index && s.index + 1 < |block| && block[s.index] == c && block[s.index + 1] == d
    decreases |block| - i
  {
    if i >= |block| then Beyond
    else if block[i] == 0 then Absent
    else if block[i] == c && i + 1 >= |block| then Beyond
    else if block[i] == c && block[i + 1] == d then Found(i)
    else Strstr(block, i + 1, c, d)
  }

  /** Where `c` stands with neither it nor a NUL in front of it. */
  predicate FirstAt(block: seq<uint8>, i: nat, c: uint8, at: nat) {
    i <= at < |block| && block[at] == c && forall k :: i <= k < at ==> block[k] != c && block[k] != 0
  }

  /** `Strchr` finds exactly that place, and is stopped by exactly the first NUL; else it runs off the block. */
  lemma {:induction false} StrchrIsFirst(block: seq<uint8>, i: nat, c: uint8, at: nat)
    requires c != 0
    ensures Strchr(block, i, c) == Found(at) <==> FirstAt(block, i, c, at)
    ensures Strchr(block, i, c) == Absent <==> StoppedByNul(block, i, c)
    decreases |block| - i
  {
    if i < |block| && block[i] != c && block[i] != 0 {
      StrchrIsFirst(block, i + 1, c, at);
      var next := i + 1;
      if k :| FirstNul(block, i, c, k) {
        assert FirstNul(block, next, c, k);
      }
      if k :| FirstNul(block, next, c, k) {
        assert FirstNul(block, i, c, k);
      }
    } else if i < |block| && block[i] == 0 {
      assert FirstNul(block, i, c, i);
    }
  }

  predicate FirstNul(block: seq<uint8>, i: nat, c: uint8, k: nat) {
    i <= k < |block| && block[k] == 0 && forall j :: i <= j < k ==> block[j] != c && block[j] != 0
  }

  ghost predicate StoppedByNul(block: seq<uint8>, i: nat, c: uint8) {
    exists k :: FirstNul(block, i, c, k)
  }

  predicate FirstPairAt(block: seq<uint8>, i: nat, c: uint8, d: uint8, at: nat) {
    && i <= at && at + 1 < |block| && block[at] == c && block[at + 1] == d
    && forall k :: i <= k < at ==> block[k] != 0 && (block[k] == c ==> block[k + 1] != d)
  }

  /** The same for two characters. */
  lemma {:induction false} StrstrIsFirst(block: seq<uint8>, i: nat, c: uint8, d: uint8, at: nat)
    requires c != 0 && d != 0
    ensures Strstr(block, i, c, d) == Found(at) <==> FirstPairAt(block, i, c, d, at)
    decreases |block| - i
  {
    if i < |block| && block[i] != 0 && !(block[i] == c && (i + 1 >= |block| || block[i + 1] == d)) {
      StrstrIsFirst(block, i + 1, c, d, at);
    }
  }

  lemma {:induction false} StrchrFinds(block: seq<uint8>, i: nat, c: uint8, at: nat)
    requires c != 0 && i <= at < |block| && block[at] == c
    requires forall k :: i <= k < at ==> block[k] != c && block[k] != 0
    ensures Strchr(block, i, c) == Found(at)
    decreases at - i
  {
    if i < at {
      StrchrFinds(block, i + 1, c, at);
    }
  }

  lemma {:induction false} StrstrFinds(block: seq<uint8>, i: nat, c: uint8, d: uint8, at: nat)
    requires c != 0 && d != 0 && i <= at && at + 1 < |block| && block[at] == c && block[at + 1] == d
    requires forall k :: i <= k < at ==> block[k] != c && block[k] != 0
    ensures Strstr(block, i, c, d) == Found(at)
    decreases at - i
  {
    if i < at {
      StrstrFinds(block, i + 1, c, d, at);
    }
  }

  /** The string in front of the first NUL. */
  function CString(s: seq<uint8>): (t: seq<uint8>)
    ensures |t| <= |s| && t == s[..|t|] && 0 !in t
    ensures |t| < |s| ==> s[|t|] == 0
  {
    if s == [] || s[0] == 0 then [] else [s[0]] + CString(s[1..])
  }

  predicate OccursAt(s: seq<uint8>, pattern: seq<uint8>, k: nat) {
    k + |pattern| <= |s| && s[k..k + |pattern|] == pattern
  }

  /** `memmem`: the first place where `pattern` occurs. */
  function Memmem(s: seq<uint8>, pattern: seq<uint8>, i: nat): (r: Option<nat>)
    requires |pattern| > 0
    ensures r.Some? ==> i <= r.value && OccursAt(s, pattern, r.value)
    decreases |s| - i
  {
    if i + |pattern| > |s| then None
    else if OccursAt(s, pattern, i) then Some(i)
    else Memmem(s, pattern, i + 1)
  }

  /** `Memmem` misses no earlier occurrence. */
  lemma {:induction false} MemmemIsFirst(s: seq<uint8>, pattern: seq<uint8>, i: nat)
    requires |pattern| > 0
    ensures var r := Memmem(s, pattern, i);
            forall k :: i <= k && (r.Some? ==> k < r.value) ==> !OccursAt(s, pattern, k)
    decreases |s| - i
  {
    if i + |pattern| <= |s| && !OccursAt(s, pattern, i) {
      MemmemIsFirst(s, pattern, i + 1);
    }
  }

  lemma {:induction false} MemmemFinds(s: seq<uint8>, pattern: seq<uint8>, i: nat, at: nat)
    requires |pattern| > 0 && i <= at && OccursAt(s, pattern, at)
    requires forall k :: i <= k < at ==> !OccursAt(s, pattern, k)
    ensures Memmem(s, pattern, i) == Some(at)
    decreases at - i
  {
    if i < at {
      MemmemFinds(s, pattern, i + 1, at);
    }
  }
}
