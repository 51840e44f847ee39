/** Counting the threads in a given phase, and gathering what they hold. */
module Counting {
  function Count<T>(s: seq<T>, p: T -> bool): nat {
    if s == [] then 0 else Count(s[..|s| - 1], p) + if p(s[|s| - 1]) then 1 else 0
  }

  /** One thread changes its phase. */
  lemma {:induction false} CountUpdate<T>(s: seq<T>, i: nat, x: T, p: T -> bool)
    requires i < |s|
    ensures Count(s[i := x], p) == Count(s, p) - (if p(s[i]) then 1 else 0) + (if p(x) then 1 else 0)
  {
    var n := |s| - 1;
    if i == n {
      assert s[i := x][..n] == s[..n];
    } else {
      assert s[i := x][..n] == s[..n][i := x];
      CountUpdate(s[..n], i, x, p);
    }
  }

  /** What all of them hold together. */
  function Gather<T>(s: seq<T>, held: T -> multiset<nat>): multiset<nat> {
    if s == [] then multiset{} else Gather(s[..|s| - 1], held) + held(s[|s| - 1])
  }

  lemma {:induction false} GatherUpdate<T>(s: seq<T>, i: nat, x: T, held: T -> multiset<nat>)
    requires i < |s|
    ensures Gather(s[i := x], held) + held(s[i]) == Gather(s, held) + held(x)
  {
    var n := |s| - 1;
    if i == n {
      assert s[i := x][..n] == s[..n];
    } else {
      assert s[i := x][..n] == s[..n][i := x] && s[i := x][n] == s[n] && s[..n][i] == s[i];
      GatherUpdate(s[..n], i, x, held);
      var after, before, last := Gather(s[..n][i := x], held), Gather(s[..n], held), held(s[n]);
      assert after + last + held(s[i]) == (after + held(s[i])) + last == before + last + held(x);
    }
  }

  lemma {:induction false} GatherSame<T>(s: seq<T>, t: seq<T>, held: T -> multiset<nat>)
    requires |s| == |t| && forall i :: 0 <= i < |s| ==> held(s[i]) == held(t[i])
    ensures Gather(s, held) == Gather(t, held)
  {
    if s != [] {
      GatherSame(s[..|s| - 1], t[..|s| - 1], held);
    }
  }

  lemma {:induction false} GatherNone<T>(s: seq<T>, held: T -> multiset<nat>)
    requires forall i :: 0 <= i < |s| ==> held(s[i]) == multiset{}
    ensures Gather(s, held) == multiset{}
  {
    if s != [] {
      GatherNone(s[..|s| - 1], held);
    }
  }

  lemma {:induction false} CountPositive<T>(s: seq<T>, i: nat, p: T -> bool)
    requires i < |s| && p(s[i])
    ensures Count(s, p) > 0
  {
    if i < |s| - 1 {
      CountPositive(s[..|s| - 1], i, p);
    }
  }

  lemma {:induction false} CountZero<T>(s: seq<T>, p: T -> bool)
    requires forall i :: 0 <= i < |s| ==> !p(s[i])
    ensures Count(s, p) == 0
  {
    if s != [] {
      CountZero(s[..|s| - 1], p);
    }
  }
}
