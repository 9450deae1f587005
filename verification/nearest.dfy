/** The assignment policy of the local-search solver (solver.py,
    `assign_nearest_mains`): every satellite goes to the open main station
    with the smallest connection cost, the lowest index winning ties. */
module Nearest {
  import opened OpenSet
  import opened Uflp

  datatype Option<T> = None | Some(value: T)

  /** `k` is the first cheapest open station for satellite `j` among the
      stations `lo..hi-1`: open, no dearer than any open station there, and
      strictly cheaper than every open station before it. */
  predicate IsNearestAmong(p: Problem, mains: seq<int>, j: nat, k: nat, lo: nat, hi: nat)
    requires p.WellFormed() && |mains| == p.nMain && j < p.nSat && hi <= p.nMain
  {
    lo <= k < hi && mains[k] == 1 &&
    (forall i :: lo <= i < hi && mains[i] == 1 ==> p.connectionCost[k][j] <= p.connectionCost[i][j]) &&
    (forall i :: lo <= i < k && mains[i] == 1 ==> p.connectionCost[k][j] < p.connectionCost[i][j])
  }

  /** The first cheapest station is unique: the tie rule leaves no choice. */
  lemma NearestUnique(p: Problem, mains: seq<int>, j: nat, k1: nat, k2: nat, lo: nat, hi: nat)
    requires p.WellFormed() && |mains| == p.nMain && j < p.nSat && hi <= p.nMain
    requires IsNearestAmong(p, mains, j, k1, lo, hi) && IsNearestAmong(p, mains, j, k2, lo, hi)
    ensures k1 == k2
  {
  }

  /** The station satellite `j` is assigned to among `lo..nMain-1`, or `None`
      when none of them is open. */
  function NearestFrom(p: Problem, mains: seq<int>, j: nat, lo: nat): (r: Option<nat>)
    requires p.WellFormed() && |mains| == p.nMain && j < p.nSat && lo <= p.nMain
    ensures r.None? <==> forall i :: lo <= i < p.nMain ==> mains[i] != 1
    ensures r.Some? ==> IsNearestAmong(p, mains, j, r.value, lo, p.nMain)
    decreases p.nMain - lo
  {
    if lo == p.nMain then None
    else
      var rest := NearestFrom(p, mains, j, lo + 1);
      if mains[lo] != 1 then rest
      else if rest.None? || p.connectionCost[lo][j] <= p.connectionCost[rest.value][j] then Some(lo)
      else rest
  }

  /** The assignment of every satellite to its nearest open station. */
  function NearestAssignment(p: Problem, mains: seq<int>): (r: seq<Option<nat>>)
    requires p.WellFormed() && |mains| == p.nMain
    ensures |r| == p.nSat
    ensures forall j :: 0 <= j < p.nSat ==> r[j] == NearestFrom(p, mains, j, 0)
  {
    seq(p.nSat, j requires 0 <= j < p.nSat => NearestFrom(p, mains, j, 0))
  }

  /** `assign_nearest_mains`: for each satellite, scan the stations in index
      order keeping the first strictly cheaper open one; the running minimum
      starts at infinity. */
  method AssignNearestMains(p: Problem, mains: seq<int>) returns (satellites: seq<Option<nat>>)
    requires p.WellFormed() && |mains| == p.nMain
    ensures |satellites| == p.nSat
    ensures forall j :: 0 <= j < p.nSat ==>
      match satellites[j]
      case None => forall i :: 0 <= i < p.nMain ==> mains[i] != 1
      case Some(k) => IsNearestAmong(p, mains, j, k, 0, p.nMain)
    ensures satellites == NearestAssignment(p, mains)
  {
    satellites := [];
    for j := 0 to p.nSat
      invariant |satellites| == j
      invariant forall t :: 0 <= t < j ==> satellites[t] == NearestFrom(p, mains, t, 0)
    {
      var minDistance := Inf;
      var closestMain: Option<nat> := None;
      for i := 0 to p.nMain
        invariant closestMain.None? <==> forall t :: 0 <= t < i ==> mains[t] != 1
        invariant closestMain.None? ==> minDistance == Inf
        invariant closestMain.Some? ==>
          IsNearestAmong(p, mains, j, closestMain.value, 0, i) &&
          minDistance == Fin(p.connectionCost[closestMain.value][j])
      {
        if mains[i] == 1 {
          var distance := p.GetAssociationCost(i, j);
          if Less(Fin(distance), minDistance) {
            minDistance := Fin(distance);
            closestMain := Some(i);
          }
        }
      }
      var expected := NearestFrom(p, mains, j, 0);
      if closestMain.Some? {
        NearestUnique(p, mains, j, closestMain.value, expected.value, 0, p.nMain);
      }
      satellites := satellites + [closestMain];
    }
  }

  /** The nearest assignment is the cheapest one: no association of the
      satellites to open stations has a smaller total connection cost. */
  lemma NearestIsCheapest(p: Problem, mains: seq<int>, nearest: seq<int>, other: seq<int>)
    requires p.WellFormed() && |mains| == p.nMain
    requires |nearest| == |other| == p.nSat
    requires forall j :: 0 <= j < p.nSat ==> nearest[j] >= 0 && NearestAssignment(p, mains)[j] == Some(nearest[j] as nat)
    requires forall j :: 0 <= j < p.nSat ==> 0 <= other[j] < p.nMain && mains[other[j]] == 1
    ensures p.InRange(nearest) && p.InRange(other)
    ensures p.DistanceSum(nearest, p.nSat) <= p.DistanceSum(other, p.nSat)
  {
    forall j | 0 <= j < p.nSat
      ensures 0 <= nearest[j] < p.nMain
      ensures p.connectionCost[nearest[j]][j] <= p.connectionCost[other[j]][j]
    {
      assert NearestFrom(p, mains, j, 0) == Some(nearest[j] as nat);
    }
    DistanceSumMonotone(p, nearest, other, p.nSat);
  }
}
