/** Open-sets: the per-facility 0/1 flag lists that every part of the solver
    passes around, and the list built-ins applied to them (`sum`, `count`,
    and the comprehension that lists the positions holding a value). */
module OpenSet {

  /** Python's `sum` over a list of ints, added left to right. */
  function Sum(xs: seq<int>): int
  {
    if xs == [] then 0 else Sum(xs[..|xs| - 1]) + xs[|xs| - 1]
  }

  /** Python's `list.count(v)`: the number of positions holding `v`. */
  function Count(xs: seq<int>, v: int): (c: nat)
    ensures c <= |xs|
    ensures c == 0 <==> forall i :: 0 <= i < |xs| ==> xs[i] != v
  {
    if xs == [] then 0
    else
      var n := |xs| - 1;
      assert forall i :: 0 <= i < n ==> xs[..n][i] == xs[i];
      Count(xs[..n], v) + (if xs[n] == v then 1 else 0)
  }

  /** Every flag is 0 or 1. */
  predicate Binary(xs: seq<int>)
  {
    forall i :: 0 <= i < |xs| ==> xs[i] == 0 || xs[i] == 1
  }

  /** `[i for i in range(len(xs)) if xs[i] == v]`: positions holding `v`,
      as many as there are (`IndicesOfComplete` shows every one is listed,
      `IndicesOfAscending` that they come in ascending order). */
  function IndicesOf(xs: seq<int>, v: int): (r: seq<nat>)
    ensures |r| == Count(xs, v)
    ensures forall n :: 0 <= n < |r| ==> r[n] < |xs| && xs[r[n]] == v
  {
    if xs == [] then []
    else
      var n := |xs| - 1;
      assert forall i :: 0 <= i < n ==> xs[..n][i] == xs[i];
      IndicesOf(xs[..n], v) + (if xs[n] == v then [n] else [])
  }

  /** The positions are listed in ascending order. */
  lemma {:induction false} IndicesOfAscending(xs: seq<int>, v: int)
    ensures forall a, b :: 0 <= a < b < |IndicesOf(xs, v)| ==> IndicesOf(xs, v)[a] < IndicesOf(xs, v)[b]
  {
    if xs != [] {
      var n := |xs| - 1;
      assert forall i :: 0 <= i < n ==> xs[..n][i] == xs[i];
      var init, r := IndicesOf(xs[..n], v), IndicesOf(xs, v);
      IndicesOfAscending(xs[..n], v);
      assert r == init + (if xs[n] == v then [n] else []);
      forall a, b | 0 <= a < b < |r|
        ensures r[a] < r[b]
      {
        assert r[a] == init[a] && init[a] < n;
        if b < |init| {
          assert r[b] == init[b];
        } else {
          assert r[b] == n;
        }
      }
    }
  }

  /** Every position holding `v` is listed. */
  lemma {:induction false} IndicesOfComplete(xs: seq<int>, v: int, i: nat)
    requires i < |xs| && xs[i] == v
    ensures i in IndicesOf(xs, v)
  {
    var n := |xs| - 1;
    if i < n {
      assert xs[..n][i] == xs[i];
      IndicesOfComplete(xs[..n], v, i);
    }
  }

  /** Extending a prefix by one position extends its position list by that
      position when it holds `v`. */
  lemma IndicesOfExtend(xs: seq<int>, v: int, k: nat)
    requires k < |xs|
    ensures IndicesOf(xs[..k + 1], v) == IndicesOf(xs[..k], v) + (if xs[k] == v then [k] else [])
  {
    assert xs[..k + 1][..k] == xs[..k];
  }

  /** On a 0/1 list, the sum is the number of ones, and zeros and ones
      together account for every position. */
  lemma {:induction false} BinarySumIsCount(xs: seq<int>)
    requires Binary(xs)
    ensures Sum(xs) == Count(xs, 1)
    ensures Count(xs, 0) + Count(xs, 1) == |xs|
  {
    if xs != [] {
      var init := xs[..|xs| - 1];
      assert Binary(init) by {
        forall i | 0 <= i < |init| ensures init[i] == 0 || init[i] == 1 {
          assert init[i] == xs[i];
        }
      }
      BinarySumIsCount(init);
    }
  }

  /** Writing `w` at position `i` moves the count of `v` by at most one. */
  lemma {:induction false} CountUpdate(xs: seq<int>, i: nat, w: int, v: int)
    requires i < |xs|
    ensures Count(xs[i := w], v) == Count(xs, v) - (if xs[i] == v then 1 else 0) + (if w == v then 1 else 0)
  {
    var n := |xs| - 1;
    var ys := xs[i := w];
    if i == n {
      assert ys[..n] == xs[..n];
    } else {
      assert ys[..n] == xs[..n][i := w];
      CountUpdate(xs[..n], i, w, v);
    }
  }

  /** The 0/1 flags drawn by one coin per station, as
      `np.random.randint(2, size=M)` and `[random.choice([0, 1]) ...]` draw them. */
  function CoinFlags(coins: seq<bool>): (r: seq<int>)
    ensures |r| == |coins| && Binary(r)
    ensures forall i :: 0 <= i < |coins| ==> (r[i] == 1 <==> coins[i])
  {
    seq(|coins|, i requires 0 <= i < |coins| => if coins[i] then 1 else 0)
  }

  /** The number of positions at which two lists of equal length differ. */
  function Mismatches(a: seq<int>, b: seq<int>): (d: nat)
    requires |a| == |b|
    ensures d <= |a|
    ensures d == 0 <==> a == b
  {
    if a == [] then 0
    else
      var n := |a| - 1;
      assert a == a[..n] + [a[n]] && b == b[..n] + [b[n]];
      Mismatches(a[..n], b[..n]) + (if a[n] != b[n] then 1 else 0)
  }

  /** Copying into `a` the entry of `b` at a position where they differ
      removes exactly one mismatch. */
  lemma {:induction false} MismatchesUpdate(a: seq<int>, b: seq<int>, i: nat)
    requires |a| == |b| && i < |a| && a[i] != b[i]
    ensures Mismatches(a[i := b[i]], b) == Mismatches(a, b) - 1
  {
    var n := |a| - 1;
    var c := a[i := b[i]];
    if i == n {
      assert c[..n] == a[..n];
    } else {
      assert c[..n] == a[..n][i := b[i]];
      MismatchesUpdate(a[..n], b[..n], i);
    }
  }

  /** Two lists differ at exactly one position. */
  predicate DiffersInOne(a: seq<int>, b: seq<int>)
  {
    |a| == |b| &&
    exists k :: 0 <= k < |a| && a[k] != b[k] && forall i :: 0 <= i < |a| && i != k ==> a[i] == b[i]
  }
}
