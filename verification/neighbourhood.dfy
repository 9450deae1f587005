/** The single-flip neighbourhood of the local search (solver.py,
    `create_neighbours`): open one closed station, or close one open station
    when more than one is open, and reassign the satellites. */
module Neighbours {
  import opened OpenSet
  import opened Uflp
  import opened Nearest
  import opened Solutions

  /** The candidate with station `i` set to `v`, satellites reassigned. */
  function Flip(p: Problem, mains: seq<int>, i: nat, v: int): Solution
    requires p.WellFormed() && |mains| == p.nMain && i < p.nMain
  {
    var flipped := mains[i := v];
    Solution(flipped, NearestAssignment(p, flipped))
  }

  /** One candidate per listed station, in list order. */
  function Flips(p: Problem, mains: seq<int>, idx: seq<nat>, v: int): (r: seq<Solution>)
    requires p.WellFormed() && |mains| == p.nMain
    requires forall n :: 0 <= n < |idx| ==> idx[n] < p.nMain
    ensures |r| == |idx|
    ensures forall n :: 0 <= n < |idx| ==> r[n] == Flip(p, mains, idx[n], v)
  {
    if idx == [] then []
    else Flips(p, mains, idx[..|idx| - 1], v) + [Flip(p, mains, idx[|idx| - 1], v)]
  }

  /** The neighbours in generation order: first the opening moves, one per
      closed station in ascending index, unless every station is open; then
      the closing moves, one per open station, if more than one is open. */
  function Neighbourhood(p: Problem, mains: seq<int>): seq<Solution>
    requires p.WellFormed() && |mains| == p.nMain
  {
    (if Count(mains, 1) < p.nMain then Flips(p, mains, IndicesOf(mains, 0), 1) else []) +
    (if Count(mains, 1) > 1 then Flips(p, mains, IndicesOf(mains, 1), 0) else [])
  }

  /** Scanning one more station adds its candidate when it holds `v`. */
  lemma FlipsExtend(p: Problem, mains: seq<int>, v: int, w: int, i: nat)
    requires p.WellFormed() && |mains| == p.nMain && i < p.nMain
    ensures Flips(p, mains, IndicesOf(mains[..i + 1], v), w)
         == Flips(p, mains, IndicesOf(mains[..i], v), w) + (if mains[i] == v then [Flip(p, mains, i, w)] else [])
  {
    var idx := IndicesOf(mains[..i], v);
    IndicesOfExtend(mains, v, i);
    if mains[i] == v {
      assert (idx + [i])[..|idx|] == idx;
    } else {
      assert idx + [] == idx;
    }
  }

  /** One loop of `create_neighbours`: for every station holding `v`, in
      index order, a copy of the flags with that station set to `w` and the
      satellites reassigned. The copy leaves the current flags as they were. */
  method FlipEach(p: Problem, currentMains: seq<int>, v: int, w: int) returns (neighbours: seq<Solution>)
    requires p.WellFormed() && |currentMains| == p.nMain
    ensures neighbours == Flips(p, currentMains, IndicesOf(currentMains, v), w)
  {
    neighbours := [];
    for i := 0 to p.nMain
      invariant neighbours == Flips(p, currentMains, IndicesOf(currentMains[..i], v), w)
    {
      FlipsExtend(p, currentMains, v, w, i);
      if currentMains[i] == v {
        var newMains := currentMains[i := w];
        var satellites := AssignNearestMains(p, newMains);
        neighbours := neighbours + [Solution(newMains, satellites)];
      }
    }
    assert currentMains[..p.nMain] == currentMains;
  }

  /** `create_neighbours`: the opening moves unless every station is open,
      then the closing moves if more than one station is open. */
  method CreateNeighbours(p: Problem, sol: Solution) returns (neighbours: seq<Solution>)
    requires p.WellFormed() && |sol.mains| == p.nMain
    ensures neighbours == Neighbourhood(p, sol.mains)
  {
    var currentMains := sol.mains;
    neighbours := [];
    if Count(currentMains, 1) < p.nMain {
      neighbours := FlipEach(p, currentMains, 0, 1);
    }
    if Count(currentMains, 1) > 1 {
      var closing := FlipEach(p, currentMains, 1, 0);
      neighbours := neighbours + closing;
    }
  }

  /** With `k` of the `M` stations open, there are `M - k` opening moves and,
      when `k > 1`, `k` closing moves. */
  lemma NeighbourhoodSize(p: Problem, mains: seq<int>)
    requires p.WellFormed() && |mains| == p.nMain && Binary(mains)
    ensures var k := Count(mains, 1);
      |Neighbourhood(p, mains)| == (p.nMain - k) + (if k > 1 then k else 0)
  {
    BinarySumIsCount(mains);
  }

  /** Neighbour `n` flips station `i` to `v`: an opening move on the
      `n`-th closed station while `n` is below the number of opening moves,
      otherwise a closing move on an open station, in index order. */
  lemma NeighbourAt(p: Problem, mains: seq<int>, n: nat) returns (i: nat, v: int)
    requires p.WellFormed() && |mains| == p.nMain && n < |Neighbourhood(p, mains)|
    ensures i < p.nMain && mains[i] != v
    ensures Neighbourhood(p, mains)[n] == Flip(p, mains, i, v)
    ensures var opening := if Count(mains, 1) < p.nMain then Count(mains, 0) else 0;
      (n < opening ==> v == 1 && mains[i] == 0 && i == IndicesOf(mains, 0)[n]) &&
      (opening <= n ==> v == 0 && mains[i] == 1 && Count(mains, 1) > 1 && i == IndicesOf(mains, 1)[n - opening])
  {
    var opening := if Count(mains, 1) < p.nMain then Flips(p, mains, IndicesOf(mains, 0), 1) else [];
    var closing := if Count(mains, 1) > 1 then Flips(p, mains, IndicesOf(mains, 1), 0) else [];
    assert Neighbourhood(p, mains) == opening + closing;
    if n < |opening| {
      i, v := IndicesOf(mains, 0)[n], 1;
      assert (opening + closing)[n] == opening[n];
    } else {
      i, v := IndicesOf(mains, 1)[n - |opening|], 0;
      assert (opening + closing)[n] == closing[n - |opening|];
    }
  }

  /** Every neighbour differs from the current flags at exactly one station. */
  lemma NeighboursDifferInOne(p: Problem, mains: seq<int>)
    requires p.WellFormed() && |mains| == p.nMain
    ensures forall n :: 0 <= n < |Neighbourhood(p, mains)| ==> DiffersInOne(mains, Neighbourhood(p, mains)[n].mains)
  {
    var ns := Neighbourhood(p, mains);
    forall n | 0 <= n < |ns|
      ensures DiffersInOne(mains, ns[n].mains)
    {
      var i, v := NeighbourAt(p, mains, n);
      assert ns[n].mains == mains[i := v];
      assert forall t :: 0 <= t < |mains| && t != i ==> mains[t] == ns[n].mains[t];
    }
  }

  /** Shape of the neighbourhood of a 0/1 open-set with `k` stations open:
      the first `M - k` neighbours open one more station, the others close
      one; every neighbour keeps at least one station open, whatever `k`
      (even 0), and is a well-shaped solution. */
  lemma NeighboursFeasible(p: Problem, mains: seq<int>)
    requires p.WellFormed() && |mains| == p.nMain && Binary(mains)
    ensures var ns, k := Neighbourhood(p, mains), Count(mains, 1);
      forall n :: 0 <= n < |ns| ==>
        WellShaped(p, ns[n]) && Count(ns[n].mains, 1) >= 1 &&
        Count(ns[n].mains, 1) == (if n < p.nMain - k then k + 1 else k - 1)
  {
    var ns, k := Neighbourhood(p, mains), Count(mains, 1);
    forall n | 0 <= n < |ns|
      ensures WellShaped(p, ns[n]) && Count(ns[n].mains, 1) >= 1
      ensures Count(ns[n].mains, 1) == (if n < p.nMain - k then k + 1 else k - 1)
    {
      NeighbourCount(p, mains, n);
      NeighbourShaped(p, mains, n);
    }
  }

  lemma NeighbourCount(p: Problem, mains: seq<int>, n: nat)
    requires p.WellFormed() && |mains| == p.nMain && Binary(mains) && n < |Neighbourhood(p, mains)|
    ensures var k := Count(mains, 1);
      Count(Neighbourhood(p, mains)[n].mains, 1) == (if n < p.nMain - k then k + 1 else k - 1)
  {
    BinarySumIsCount(mains);
    var i, v := NeighbourAt(p, mains, n);
    CountUpdate(mains, i, v, 1);
  }

  lemma NeighbourShaped(p: Problem, mains: seq<int>, n: nat)
    requires p.WellFormed() && |mains| == p.nMain && Binary(mains) && n < |Neighbourhood(p, mains)|
    ensures WellShaped(p, Neighbourhood(p, mains)[n])
  {
    var i, v := NeighbourAt(p, mains, n);
    var flipped := mains[i := v];
    assert Binary(flipped);
    NearestShaped(p, flipped);
  }

  /** Station `a` holds a different flag in `other` than in `mains`. */
  predicate ChangedAt(mains: seq<int>, other: seq<int>, a: int)
  {
    0 <= a < |mains| && a < |other| && other[a] != mains[a]
  }

  /** Within each of the two groups, the flipped stations come in ascending
      index order. */
  lemma NeighboursAscending(p: Problem, mains: seq<int>)
    requires p.WellFormed() && |mains| == p.nMain && Binary(mains)
    ensures var ns, k := Neighbourhood(p, mains), Count(mains, 1);
      forall n, m, a, b ::
        (0 <= n < m < |ns| && (m < p.nMain - k || p.nMain - k <= n) &&
         ChangedAt(mains, ns[n].mains, a) && ChangedAt(mains, ns[m].mains, b)) ==> a < b
  {
    var ns, k := Neighbourhood(p, mains), Count(mains, 1);
    forall n, m, a, b |
        0 <= n < m < |ns| && (m < p.nMain - k || p.nMain - k <= n) &&
        ChangedAt(mains, ns[n].mains, a) && ChangedAt(mains, ns[m].mains, b)
      ensures a < b
    {
      NeighbourPairAscending(p, mains, n, m, a, b);
    }
  }

  lemma NeighbourPairAscending(p: Problem, mains: seq<int>, n: nat, m: nat, a: int, b: int)
    requires p.WellFormed() && |mains| == p.nMain && Binary(mains)
    requires n < m < |Neighbourhood(p, mains)|
    requires m < p.nMain - Count(mains, 1) || p.nMain - Count(mains, 1) <= n
    requires ChangedAt(mains, Neighbourhood(p, mains)[n].mains, a)
    requires ChangedAt(mains, Neighbourhood(p, mains)[m].mains, b)
    ensures a < b
  {
    BinarySumIsCount(mains);
    var i, v := NeighbourAt(p, mains, n);
    var i', v' := NeighbourAt(p, mains, m);
    assert a == i by {
      assert Neighbourhood(p, mains)[n].mains == mains[i := v];
    }
    assert b == i' by {
      assert Neighbourhood(p, mains)[m].mains == mains[i' := v'];
    }
    if m < p.nMain - Count(mains, 1) {
      IndicesOfAscending(mains, 0);
    } else {
      IndicesOfAscending(mains, 1);
    }
  }

  /** `c` is the flag list of one of the neighbours of `a`. */
  predicate Adjacent(p: Problem, a: seq<int>, c: seq<int>)
    requires p.WellFormed()
  {
    |a| == p.nMain &&
    exists n :: 0 <= n < |Neighbourhood(p, a)| && Neighbourhood(p, a)[n].mains == c
  }

  /** Opening a closed station is always a move of the neighbourhood. */
  lemma OpeningMoveAt(p: Problem, a: seq<int>, i: nat) returns (n: nat)
    requires p.WellFormed() && |a| == p.nMain && Binary(a) && i < p.nMain && a[i] == 0
    ensures n < |Neighbourhood(p, a)| && Neighbourhood(p, a)[n].mains == a[i := 1]
  {
    BinarySumIsCount(a);
    IndicesOfComplete(a, 0, i);
    var idx := IndicesOf(a, 0);
    n :| 0 <= n < |idx| && idx[n] == i;
    var opening := Flips(p, a, idx, 1);
    var closing := if Count(a, 1) > 1 then Flips(p, a, IndicesOf(a, 1), 0) else [];
    assert Neighbourhood(p, a) == opening + closing;
    assert (opening + closing)[n] == opening[n];
  }

  /** Closing an open station is a move of the neighbourhood when another
      station is open. */
  lemma ClosingMoveAt(p: Problem, a: seq<int>, i: nat) returns (n: nat)
    requires p.WellFormed() && |a| == p.nMain && i < p.nMain && a[i] == 1 && Count(a, 1) > 1
    ensures n < |Neighbourhood(p, a)| && Neighbourhood(p, a)[n].mains == a[i := 0]
  {
    IndicesOfComplete(a, 1, i);
    var idx := IndicesOf(a, 1);
    var k :| 0 <= k < |idx| && idx[k] == i;
    var opening := if Count(a, 1) < p.nMain then Flips(p, a, IndicesOf(a, 0), 1) else [];
    var closing := Flips(p, a, idx, 0);
    assert Neighbourhood(p, a) == opening + closing;
    n := |opening| + k;
    assert (opening + closing)[n] == closing[k];
  }

  /** Opening a station that `b` opens brings `a` one flag closer to `b`. */
  lemma OpenTowards(p: Problem, a: seq<int>, b: seq<int>, i: nat) returns (c: seq<int>)
    requires p.WellFormed() && |a| == p.nMain && |b| == p.nMain && Binary(a)
    requires i < p.nMain && a[i] == 0 && b[i] == 1
    ensures Adjacent(p, a, c) && |c| == p.nMain && Binary(c)
    ensures Mismatches(c, b) == Mismatches(a, b) - 1
  {
    var n := OpeningMoveAt(p, a, i);
    c := a[i := 1];
    MismatchesUpdate(a, b, i);
  }

  /** Closing a station that `b` closes brings `a` one flag closer to `b`;
      it is a legal move while station `j`, open in both, stays open. */
  lemma CloseTowards(p: Problem, a: seq<int>, b: seq<int>, i: nat, j: nat) returns (c: seq<int>)
    requires p.WellFormed() && |a| == p.nMain && |b| == p.nMain && Binary(a)
    requires i < p.nMain && a[i] == 1 && b[i] == 0
    requires j < p.nMain && a[j] == 1 && b[j] == 1
    ensures Adjacent(p, a, c) && |c| == p.nMain && Binary(c)
    ensures Mismatches(c, b) == Mismatches(a, b) - 1
  {
    CountUpdate(a, i, 0, 1);
    assert a[i := 0][j] == 1;
    var n := ClosingMoveAt(p, a, i);
    c := a[i := 0];
    MismatchesUpdate(a, b, i);
  }

  /** Towards any open-set `b` with a station open, some neighbour of `a`
      is one flag closer: open a station `b` opens, or else close one `b`
      closes, which leaves open the station `b` opens. */
  lemma NeighbourTowards(p: Problem, a: seq<int>, b: seq<int>) returns (c: seq<int>)
    requires p.WellFormed() && |a| == p.nMain && |b| == p.nMain && Binary(a) && Binary(b)
    requires Count(b, 1) >= 1 && a != b
    ensures Adjacent(p, a, c) && |c| == p.nMain && Binary(c)
    ensures Mismatches(c, b) == Mismatches(a, b) - 1
  {
    if i :| 0 <= i < |a| && a[i] == 0 && b[i] == 1 {
      c := OpenTowards(p, a, b, i);
    } else {
      assert exists i :: 0 <= i < |a| && a[i] != b[i];
      var i :| 0 <= i < |a| && a[i] != b[i];
      var j :| 0 <= j < |b| && b[j] == 1;
      c := CloseTowards(p, a, b, i, j);
    }
  }

  /** The neighbourhood is connected: from any 0/1 open-set, a chain of
      neighbours reaches any open-set with a station open, in as many moves
      as the two differ in flags (the fewest possible, as every move flips
      one flag). */
  lemma {:induction false} NeighbourhoodConnected(p: Problem, a: seq<int>, b: seq<int>) returns (path: seq<seq<int>>)
    requires p.WellFormed() && |a| == p.nMain && |b| == p.nMain && Binary(a) && Binary(b)
    requires Count(b, 1) >= 1
    ensures |path| == Mismatches(a, b) + 1 && path[0] == a && path[|path| - 1] == b
    ensures forall t :: 0 <= t < |path| - 1 ==> Adjacent(p, path[t], path[t + 1])
    decreases Mismatches(a, b)
  {
    if a == b {
      path := [a];
    } else {
      var c := NeighbourTowards(p, a, b);
      var rest := NeighbourhoodConnected(p, c, b);
      path := [a] + rest;
      assert forall t :: 0 < t < |path| ==> path[t] == rest[t - 1];
    }
  }
}
