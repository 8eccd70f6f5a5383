/** Facts about finite sequences that several of the models share. */
module Seqs {

  function Sum(xs: seq<int>): int {
    if xs == [] then 0 else Sum(xs[..|xs| - 1]) + xs[|xs| - 1]
  }

  lemma {:induction false} SumUpdate(xs: seq<int>, k: nat, v: int)
    requires k < |xs|
    ensures Sum(xs[k := v]) == Sum(xs) - xs[k] + v
  {
    var n := |xs| - 1;
    if k == n {
      assert xs[k := v][..n] == xs[..n];
    } else {
      SumUpdate(xs[..n], k, v);
      assert xs[k := v][..n] == xs[..n][k := v];
    }
  }

  lemma SumAppend(xs: seq<int>, v: int)
    ensures Sum(xs + [v]) == Sum(xs) + v
  {
    assert (xs + [v])[..|xs|] == xs;
  }

  lemma {:induction false} SumBounds(xs: seq<int>, lo: int, hi: int)
    requires forall k :: 0 <= k < |xs| ==> lo <= xs[k] <= hi
    ensures lo * |xs| <= Sum(xs) <= hi * |xs|
  {
    if xs != [] {
      SumBounds(xs[..|xs| - 1], lo, hi);
    }
  }

  lemma {:induction false} SumNonNegative(xs: seq<int>)
    requires forall k :: 0 <= k < |xs| ==> 0 <= xs[k]
    ensures Sum(xs) >= 0
  {
    if xs != [] {
      SumNonNegative(xs[..|xs| - 1]);
    }
  }

  ghost predicate Distinct<T>(xs: seq<T>) {
    forall a, b :: 0 <= a < b < |xs| ==> xs[a] != xs[b]
  }

  ghost predicate AllBelow(xs: seq<int>, n: nat) {
    forall k :: 0 <= k < |xs| ==> 0 <= xs[k] < n
  }

  /** Pigeonhole: distinct numbers below n are at most n. */
  lemma {:induction false} DistinctBelow(xs: seq<int>, n: nat)
    requires Distinct(xs) && AllBelow(xs, n)
    ensures |xs| <= n
  {
    if xs != [] {
      var first := xs[0];
      assert 0 <= first < n;
      if n - 1 in xs {
        var k :| 0 <= k < |xs| && xs[k] == n - 1;
        DistinctBelow(xs[..k] + xs[k + 1..], n - 1);
      } else {
        DistinctBelow(xs, n - 1);
      }
    }
  }

  /** Pigeonhole with one number missing. */
  lemma DistinctBelowMissing(xs: seq<int>, n: nat, j: int)
    requires Distinct(xs) && AllBelow(xs, n) && 0 <= j < n && j !in xs
    ensures |xs| < n
  {
    DistinctBelow(xs + [j], n);
  }
}
