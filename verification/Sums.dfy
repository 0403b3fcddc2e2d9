/** Finite sums of integers, and floor division under a sum. */
module Sums {

  function Sum(s: seq<int>): int {
    if s == [] then 0 else s[0] + Sum(s[1..])
  }

  ghost predicate NonNegative(s: seq<int>) {
    forall i :: 0 <= i < |s| ==> 0 <= s[i]
  }

  lemma {:induction false} SumNonNegative(s: seq<int>)
    requires NonNegative(s)
    ensures 0 <= Sum(s)
  {
    if s != [] {
      SumNonNegative(s[1..]);
    }
  }

  /** A sum of non-negative terms bounds each of them. */
  lemma {:induction false} SumBoundsTerm(s: seq<int>, i: nat)
    requires NonNegative(s) && i < |s|
    ensures s[i] <= Sum(s)
  {
    SumNonNegative(s[1..]);
    if i > 0 {
      SumBoundsTerm(s[1..], i - 1);
    }
  }

  /** Sums are linear in their terms. */
  lemma {:induction false} SumCombine(s: seq<int>, t: seq<int>, q: int, u: seq<int>)
    requires |s| == |t| == |u|
    requires forall i :: 0 <= i < |s| ==> u[i] == s[i] + q * t[i]
    ensures Sum(u) == Sum(s) + q * Sum(t)
  {
    if s != [] {
      SumCombine(s[1..], t[1..], q, u[1..]);
      assert q * (t[0] + Sum(t[1..])) == q * t[0] + q * Sum(t[1..]);
    }
  }

  lemma {:induction false} SumAppend(s: seq<int>, x: int)
    ensures Sum(s + [x]) == Sum(s) + x
  {
    if s == [] {
      assert s + [x] == [x];
    } else {
      assert (s + [x])[1..] == s[1..] + [x];
      SumAppend(s[1..], x);
    }
  }

  lemma {:induction false} SumUpdate(s: seq<int>, i: nat, x: int)
    requires i < |s|
    ensures Sum(s[i := x]) == Sum(s) - s[i] + x
  {
    if i == 0 {
      assert s[0 := x][1..] == s[1..];
    } else {
      assert s[i := x][1..] == s[1..][i - 1 := x];
      SumUpdate(s[1..], i - 1, x);
    }
  }

  /** Rounding every term down loses at least as much as rounding the sum down. */
  lemma {:induction false} SumOfFloors(s: seq<int>, k: int, floors: seq<int>)
    requires 0 < k && |floors| == |s|
    requires forall i :: 0 <= i < |s| ==> floors[i] == s[i] / k
    ensures k * Sum(floors) <= Sum(s)
  {
    if s != [] {
      SumOfFloors(s[1..], k, floors[1..]);
      assert k * (s[0] / k) <= s[0];
    }
  }
}
