/** Orders of the indices 0..n, and sums that do not depend on the order. */
module Permutations {

  ghost predicate IsPermutation(order: seq<nat>, n: nat) {
    && |order| == n
    && (forall k :: 0 <= k < n ==> order[k] < n)
    && (forall a, b :: 0 <= a < b < n ==> order[a] != order[b])
  }

  /** The sum of the values that `xs` holds at the indices listed in `order`. */
  ghost function SumAt(xs: seq<int>, order: seq<nat>): int
    requires forall k :: 0 <= k < |order| ==> order[k] < |xs|
  {
    if order == [] then 0
    else SumAt(xs, order[..|order| - 1]) + xs[order[|order| - 1]]
  }

  ghost function Sum(xs: seq<int>): int {
    if xs == [] then 0 else Sum(xs[..|xs| - 1]) + xs[|xs| - 1]
  }

  lemma {:induction false} SumAtPrefix(xs: seq<int>, order: seq<nat>, last: int)
    requires forall k :: 0 <= k < |order| ==> order[k] < |xs|
    ensures forall k :: 0 <= k < |order| ==> order[k] < |xs + [last]|
    ensures SumAt(xs + [last], order) == SumAt(xs, order)
    decreases |order|
  {
    if order != [] {
      SumAtPrefix(xs, order[..|order| - 1], last);
    }
  }

  /** Taking position `k` out of an order takes exactly that value out of the sum. */
  lemma {:induction false} SumAtRemove(xs: seq<int>, order: seq<nat>, k: nat)
    requires forall i :: 0 <= i < |order| ==> order[i] < |xs|
    requires k < |order|
    ensures SumAt(xs, order) == SumAt(xs, order[..k] + order[k + 1..]) + xs[order[k]]
    decreases |order|
  {
    var n := |order|;
    if k == n - 1 {
      assert order[..k] + order[k + 1..] == order[..n - 1];
    } else {
      SumAtRemove(xs, order[..n - 1], k);
      var rest := order[..k] + order[k + 1..];
      assert rest[..n - 2] == order[..n - 1][..k] + order[..n - 1][k + 1..];
    }
  }

  /** Every index occurs: an injective list of n numbers below n misses none. */
  lemma {:induction false} PermutationCovers(order: seq<nat>, n: nat, i: nat)
    requires IsPermutation(order, n)
    requires i < n
    ensures i in order
  {
    var listed := set k | 0 <= k < n :: order[k];
    CountDistinct(order);
    assert listed == set k | 0 <= k < |order| :: order[k];
    if i !in order {
      assert listed <= Below(n) - {i};
      SubsetSize(listed, Below(n) - {i});
    }
  }

  lemma {:induction false} SubsetSize<T>(a: set<T>, b: set<T>)
    requires a <= b
    ensures |a| <= |b|
    decreases a
  {
    if a != {} {
      var x :| x in a;
      SubsetSize(a - {x}, b - {x});
    }
  }

  /** The set of the numbers below n, with its size. */
  ghost function Below(n: nat): (s: set<nat>)
    ensures forall i: nat :: i in s <==> i < n
    ensures |s| == n
  {
    if n == 0 then {} else Below(n - 1) + {n - 1}
  }

  lemma {:induction false} CountDistinct(order: seq<nat>)
    requires forall a, b :: 0 <= a < b < |order| ==> order[a] != order[b]
    ensures |set k | 0 <= k < |order| :: order[k]| == |order|
  {
    var all := set k | 0 <= k < |order| :: order[k];
    if order == [] {
      assert all == {};
    } else {
      var init := order[..|order| - 1];
      CountDistinct(init);
      var rest := set k | 0 <= k < |init| :: init[k];
      forall x | x in all ensures x in rest + {order[|order| - 1]} {
        var k :| 0 <= k < |order| && order[k] == x;
        if k < |init| {
          assert init[k] == x;
        }
      }
      forall x | x in rest ensures x in all {
        var k :| 0 <= k < |init| && init[k] == x;
        assert order[k] == x;
      }
      assert all == rest + {order[|order| - 1]};
      assert order[|order| - 1] !in rest;
    }
  }

  /** Dropping the largest index leaves an order of the others. */
  lemma {:induction false} DropLargest(order: seq<nat>, n: nat, k: nat)
    requires IsPermutation(order, n) && k < n && order[k] == n - 1
    ensures IsPermutation(order[..k] + order[k + 1..], n - 1)
  {
    var rest := order[..k] + order[k + 1..];
    forall i | 0 <= i < n - 1 ensures rest[i] < n - 1 {
      assert rest[i] == order[if i < k then i else i + 1];
    }
    forall a, b | 0 <= a < b < n - 1 ensures rest[a] != rest[b] {
      assert rest[a] == order[if a < k then a else a + 1];
      assert rest[b] == order[if b < k then b else b + 1];
    }
  }

  /** A sum over any permutation of the indices is the plain sum. */
  lemma {:induction false} SumOverPermutation(xs: seq<int>, order: seq<nat>)
    requires IsPermutation(order, |xs|)
    ensures SumAt(xs, order) == Sum(xs)
    decreases |xs|
  {
    var n := |xs|;
    if n > 0 {
      hide SumAt;
      PermutationCovers(order, n, n - 1);
      var k :| 0 <= k < n && order[k] == n - 1;
      var rest := order[..k] + order[k + 1..];
      DropLargest(order, n, k);
      SumAtRemove(xs, order, k);
      SumAtPrefix(xs[..n - 1], rest, xs[n - 1]);
      assert xs[..n - 1] + [xs[n - 1]] == xs;
      SumOverPermutation(xs[..n - 1], rest);
    }
  }

  // ---------------------------------------------------------------------
  // Picking
  // ---------------------------------------------------------------------

  /** The indices below n that satisfy p, all of them, in ascending order. */
  ghost predicate Picks(picked: seq<nat>, n: nat, p: nat -> bool) {
    && (forall k :: 0 <= k < |picked| ==> picked[k] < n && p(picked[k]))
    && (forall k, l :: 0 <= k < l < |picked| ==> picked[k] < picked[l])
    && (forall i: nat {:trigger i in picked} :: i < n && p(i) ==> i in picked)
  }

  lemma {:induction false} PicksStep(picked: seq<nat>, n: nat, p: nat -> bool)
    requires Picks(picked, n, p)
    ensures Picks(if p(n) then picked + [n] else picked, n + 1, p)
  {
  }

  lemma {:induction false} NothingPicked(p: nat -> bool)
    ensures Picks([], 0, p)
  {
  }

  lemma {:induction false} PickedBelow(picked: seq<nat>, n: nat, p: nat -> bool)
    requires Picks(picked, n, p)
    ensures forall k :: 0 <= k < |picked| ==> picked[k] < n
  {
  }
}
