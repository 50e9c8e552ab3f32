/** Sums of integer sequences, and what a permutation keeps: the running
    totals of the scorer are sums of per-feature scores. */
module Sums {

  function Sum(xs: seq<int>): int {
    if xs == [] then 0 else Sum(xs[..|xs| - 1]) + xs[|xs| - 1]
  }

  predicate NonNegative(xs: seq<int>) {
    forall i :: 0 <= i < |xs| ==> xs[i] >= 0
  }

  lemma SumSingle(x: int)
    ensures Sum([x]) == x
  {
    assert [x][..0] == [];
  }

  lemma {:induction false} SumAppend(xs: seq<int>, ys: seq<int>)
    ensures Sum(xs + ys) == Sum(xs) + Sum(ys)
    decreases |ys|
  {
    if ys == [] {
      assert xs + ys == xs;
    } else {
      assert (xs + ys)[..|xs + ys| - 1] == xs + ys[..|ys| - 1];
      SumAppend(xs, ys[..|ys| - 1]);
    }
  }

  /** Taking one term out of a sum. */
  lemma SumSplit(xs: seq<int>, k: nat)
    requires k < |xs|
    ensures Sum(xs) == Sum(xs[..k]) + xs[k] + Sum(xs[k + 1..])
  {
    assert xs == xs[..k] + [xs[k]] + xs[k + 1..];
    SumAppend(xs[..k] + [xs[k]], xs[k + 1..]);
    SumAppend(xs[..k], [xs[k]]);
    SumSingle(xs[k]);
  }

  /** A sum of non-negative terms is non-negative, and it is positive
      exactly when one of its terms is. */
  lemma {:induction false} SumPositive(xs: seq<int>)
    requires NonNegative(xs)
    ensures Sum(xs) >= 0
    ensures Sum(xs) > 0 <==> exists i :: 0 <= i < |xs| && xs[i] > 0
  {
    if xs != [] {
      var n := |xs| - 1;
      var init := xs[..n];
      assert NonNegative(init);
      SumPositive(init);
      if exists i :: 0 <= i < n && init[i] > 0 {
        var i :| 0 <= i < n && init[i] > 0;
        assert xs[i] > 0;
      }
      if exists i :: 0 <= i < |xs| && xs[i] > 0 {
        var i :| 0 <= i < |xs| && xs[i] > 0;
        if i < n {
          assert init[i] > 0;
        }
      }
    }
  }

  /** The last element of `a` occurs in a permutation `b` of `a`, and
      removing one copy from each leaves permutations of each other. */
  lemma MatchLast<T>(a: seq<T>, b: seq<T>) returns (k: nat)
    requires a != [] && multiset(a) == multiset(b)
    ensures k < |b| && b[k] == a[|a| - 1]
    ensures multiset(a[..|a| - 1]) == multiset(b[..k] + b[k + 1..])
  {
    var n := |a| - 1;
    var x := a[n];
    assert a == a[..n] + [x];
    assert x in multiset(b);
    k :| 0 <= k < |b| && b[k] == x;
    assert b == b[..k] + [x] + b[k + 1..];
    calc {
      multiset(a[..n]) + multiset{x};
      multiset(a);
      multiset(b);
      multiset(b[..k]) + multiset([x]) + multiset(b[k + 1..]);
      multiset(b[..k] + b[k + 1..]) + multiset{x};
    }
    assert multiset(a[..n]) == multiset(a[..n]) + multiset{x} - multiset{x};
    assert multiset(b[..k] + b[k + 1..]) == multiset(b[..k] + b[k + 1..]) + multiset{x} - multiset{x};
  }
}
