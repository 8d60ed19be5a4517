// Counting: n distinct values drawn from a range of n values are all of it.
module Pigeonhole {

  ghost predicate Distinct<T>(s: seq<T>) {
    forall i, j | 0 <= i < j < |s| :: s[i] != s[j]
  }

  ghost function Elements<T>(s: seq<T>): set<T> {
    set x | x in s
  }

  ghost function Range(lo: nat, n: nat): (r: set<nat>)
    ensures |r| == n
    ensures forall x: nat :: x in r <==> lo <= x < lo + n
  {
    if n == 0 then {} else Range(lo, n - 1) + {lo + n - 1}
  }

  lemma SubsetSize<T>(small: set<T>, big: set<T>)
    requires small <= big && |small| == |big|
    ensures small == big
  {
    assert big == small + (big - small);
  }

  lemma {:induction false} DistinctSize<T>(s: seq<T>)
    requires Distinct(s)
    ensures |Elements(s)| == |s|
  {
    if s != [] {
      var n := |s| - 1;
      DistinctSize(s[..n]);
      assert s == s[..n] + [s[n]];
      assert Elements(s) == Elements(s[..n]) + {s[n]};
    }
  }

  // An injective list of |s| values from a range of |s| values meets each of them.
  lemma Surjective(s: seq<nat>, lo: nat, y: nat) returns (k: nat)
    requires Distinct(s)
    requires forall x | x in s :: lo <= x < lo + |s|
    requires lo <= y < lo + |s|
    ensures k < |s| && s[k] == y
  {
    DistinctSize(s);
    SubsetSize(Elements(s), Range(lo, |s|));
    assert y in Elements(s);
    k :| k < |s| && s[k] == y;
  }
}
