/** Counting with sets of natural numbers. */
module Cardinality {

  function Below(n: nat): (ids: set<nat>)
    ensures |ids| == n
    ensures forall i: nat :: i in ids <==> i < n
  {
    if n == 0 then {} else Below(n - 1) + {n - 1}
  }

  ghost predicate Distinct<T>(xs: seq<T>) {
    forall a, b :: 0 <= a < b < |xs| ==> xs[a] != xs[b]
  }

  function Elements<T(!new)>(xs: seq<T>): (s: set<T>)
    ensures forall x :: x in s <==> x in xs
  {
    set x | x in xs
  }

  lemma {:induction false} SubsetCard<T>(a: set<T>, b: set<T>)
    requires a <= b
    ensures |a| <= |b|
    ensures |a| == |b| ==> a == b
  {
    if a != {} {
      var x :| x in a;
      SubsetCard(a - {x}, b - {x});
    }
  }

  lemma {:induction false} DistinctCard<T(!new)>(xs: seq<T>)
    requires Distinct(xs)
    ensures |Elements(xs)| == |xs|
  {
    if xs != [] {
      var m := |xs| - 1;
      DistinctCard(xs[..m]);
      assert xs == xs[..m] + [xs[m]];
      assert Elements(xs) == Elements(xs[..m]) + {xs[m]};
      assert xs[m] !in xs[..m];
    }
  }

  /** Distinct numbers below n that leave one out are fewer than n. */
  lemma FewerThan(xs: seq<nat>, n: nat, out: nat)
    requires Distinct(xs)
    requires forall x :: x in xs ==> x < n
    requires out < n && out !in xs
    ensures |xs| < n
  {
    DistinctCard(xs);
    SubsetCard(Elements(xs), Below(n) - {out});
  }

  /** n distinct numbers below n are all of them. */
  lemma AllBelow(xs: seq<nat>, n: nat)
    requires Distinct(xs) && |xs| == n
    requires forall x :: x in xs ==> x < n
    ensures forall i: nat :: i < n ==> i in xs
  {
    DistinctCard(xs);
    SubsetCard(Elements(xs), Below(n));
    assert forall i: nat :: i < n ==> i in Elements(xs);
  }

  /** A list holding all numbers below n has at least n entries. */
  lemma AtLeast(xs: seq<nat>, n: nat)
    requires Distinct(xs)
    requires forall i: nat :: i < n ==> i in xs
    ensures |xs| >= n
  {
    DistinctCard(xs);
    SubsetCard(Below(n), Elements(xs));
  }
}
