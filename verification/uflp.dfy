/** The facility-location instance (uflp.py): opening costs, the connection
    cost matrix, the cost of a solution and the structural solution checker. */
module Uflp {
  import opened OpenSet

  /** A solution cost; `Inf` is the `math.inf` returned when nothing is open. */
  datatype Cost = Inf | Fin(value: real)

  /** Python's `<` on floats, with `math.inf` above every finite value and
      `math.inf < math.inf` false. */
  predicate Less(a: Cost, b: Cost)
  {
    match a
    case Inf => false
    case Fin(x) => b.Inf? || x < b.value
  }

  /** `a` is no more than `b`. */
  predicate LessEq(a: Cost, b: Cost)
  {
    !Less(b, a)
  }

  /** Costs are totally ordered, infinity on top. */
  lemma CostOrder(a: Cost, b: Cost, c: Cost)
    ensures LessEq(a, b) && LessEq(b, c) ==> LessEq(a, c)
    ensures LessEq(a, b) && Less(b, c) ==> Less(a, c)
    ensures Less(a, b) ==> LessEq(a, b)
    ensures LessEq(a, b) || LessEq(b, a)
  {
  }

  /** A loaded instance: `nMain` main stations with their opening costs and
      `nSat` satellites, and the matrix of connection costs from every main
      station to every satellite. The matrix entries are distances, hence
      non-negative. */
  datatype Problem = Problem(nMain: nat, nSat: nat, openingCost: seq<real>, connectionCost: seq<seq<real>>)
  {
    /** The shape `load_instance` builds: one opening cost per main station,
        `nMain` rows of `nSat` non-negative connection costs. */
    predicate WellFormed()
    {
      |openingCost| == nMain && |connectionCost| == nMain &&
      (forall i :: 0 <= i < nMain ==> |connectionCost[i]| == nSat) &&
      (forall i, j :: 0 <= i < nMain && 0 <= j < nSat ==> connectionCost[i][j] >= 0.0)
    }

    /** The stored opening cost of main station `i`. */
    function GetOpeningCost(i: nat): (c: real)
      requires WellFormed() && i < nMain
      ensures c == openingCost[i]
    {
      openingCost[i]
    }

    /** The stored cost of connecting satellite `j` to main station `i`. */
    function GetAssociationCost(i: nat, j: nat): (c: real)
      requires WellFormed() && i < nMain && j < nSat
      ensures c == connectionCost[i][j] && c >= 0.0
    {
      connectionCost[i][j]
    }

    /** Every association names an existing main station and a satellite. */
    predicate InRange(assoc: seq<int>)
    {
      |assoc| <= nSat && forall j :: 0 <= j < |assoc| ==> 0 <= assoc[j] < nMain
    }

    /** Opening cost of the first `n` stations: the sum of flag times opening cost. */
    function OpeningSum(openFlags: seq<int>, n: nat): real
      requires WellFormed() && n <= |openFlags| && n <= nMain
    {
      if n == 0 then 0.0 else OpeningSum(openFlags, n - 1) + Weighted(openFlags[n - 1], GetOpeningCost(n - 1))
    }

    /** Connection cost of the first `n` satellites to their stations. */
    function DistanceSum(assoc: seq<int>, n: nat): real
      requires WellFormed() && InRange(assoc) && n <= |assoc|
    {
      if n == 0 then 0.0 else DistanceSum(assoc, n - 1) + GetAssociationCost(assoc[n - 1], n - 1)
    }

    /** `calculate_cost`: infinite when the flags sum to zero (and then the
        association list is not read), otherwise opening plus connection cost. */
    function CalculateCost(openFlags: seq<int>, assoc: seq<int>): (c: Cost)
      requires WellFormed() && |openFlags| >= nMain
      requires Sum(openFlags) != 0 ==> InRange(assoc)
      ensures c.Inf? <==> Sum(openFlags) == 0
    {
      if Sum(openFlags) == 0 then Inf
      else Fin(OpeningSum(openFlags, nMain) + DistanceSum(assoc, |assoc|))
    }

    /** Everything `solution_checker` demands of a solution. */
    predicate Accepts(openFlags: seq<int>, assoc: seq<int>)
    {
      |openFlags| == nMain && |assoc| == nSat && Sum(openFlags) != 0 &&
      (forall j :: 0 <= j < |assoc| ==> 0 <= assoc[j] < nMain && openFlags[assoc[j]] != 0) &&
      Binary(openFlags)
    }

    /** `solution_checker`: the length checks, the non-empty open-set, then
        one pass over the associations and one over the flags, each returning
        false at the first offending entry. */
    method SolutionChecker(openFlags: seq<int>, assoc: seq<int>) returns (ok: bool)
      ensures ok == Accepts(openFlags, assoc)
    {
      if |openFlags| != nMain {
        return false;
      }
      if |assoc| != nSat {
        return false;
      }
      if Sum(openFlags) == 0 {
        return false;
      }
      for k := 0 to |assoc|
        invariant forall j :: 0 <= j < k ==> 0 <= assoc[j] < nMain && openFlags[assoc[j]] != 0
      {
        var mainStation := assoc[k];
        if mainStation < 0 {
          return false;
        }
        if mainStation >= nMain {
          return false;
        }
        if openFlags[mainStation] == 0 {
          return false;
        }
      }
      for k := 0 to |openFlags|
        invariant forall i :: 0 <= i < k ==> openFlags[i] == 0 || openFlags[i] == 1
      {
        var state := openFlags[k];
        if state != 0 && state != 1 {
          return false;
        }
      }
      return true;
    }
  }

  /** One term of the opening cost: `main_stations_opened[i] * opening_cost[i]`. */
  function Weighted(flag: int, cost: real): real
  {
    (flag as real) * cost
  }

  /** The sum of `costs` at the listed positions. */
  function SumAt(costs: seq<real>, idx: seq<nat>): real
    requires forall n :: 0 <= n < |idx| ==> idx[n] < |costs|
  {
    if idx == [] then 0.0 else SumAt(costs, idx[..|idx| - 1]) + costs[idx[|idx| - 1]]
  }

  lemma {:induction false} OpeningSumNonNegative(p: Problem, openFlags: seq<int>, n: nat)
    requires p.WellFormed() && n <= |openFlags| && n <= p.nMain
    requires forall i :: 0 <= i < p.nMain ==> p.openingCost[i] >= 0.0
    requires forall i :: 0 <= i < |openFlags| ==> openFlags[i] >= 0
    ensures p.OpeningSum(openFlags, n) >= 0.0
  {
    if n > 0 {
      OpeningSumNonNegative(p, openFlags, n - 1);
      assert Weighted(openFlags[n - 1], p.openingCost[n - 1]) >= 0.0;
    }
  }

  lemma {:induction false} DistanceSumNonNegative(p: Problem, assoc: seq<int>, n: nat)
    requires p.WellFormed() && p.InRange(assoc) && n <= |assoc|
    ensures p.DistanceSum(assoc, n) >= 0.0
  {
    if n > 0 {
      DistanceSumNonNegative(p, assoc, n - 1);
    }
  }

  /** With non-negative opening costs and flags, a finite cost is never
      negative: connection costs are distances. */
  lemma CostNonNegative(p: Problem, openFlags: seq<int>, assoc: seq<int>)
    requires p.WellFormed() && |openFlags| >= p.nMain
    requires Sum(openFlags) != 0 ==> p.InRange(assoc)
    requires forall i :: 0 <= i < p.nMain ==> p.openingCost[i] >= 0.0
    requires forall i :: 0 <= i < |openFlags| ==> openFlags[i] >= 0
    ensures p.CalculateCost(openFlags, assoc).Fin? ==> p.CalculateCost(openFlags, assoc).value >= 0.0
  {
    if Sum(openFlags) != 0 {
      OpeningSumNonNegative(p, openFlags, p.nMain);
      DistanceSumNonNegative(p, assoc, |assoc|);
    }
  }

  /** Appending one position to a position list adds that entry to its sum. */
  lemma SumAtAppend(costs: seq<real>, idx: seq<nat>, i: nat)
    requires forall n :: 0 <= n < |idx| ==> idx[n] < |costs|
    requires i < |costs|
    ensures SumAt(costs, idx + [i]) == SumAt(costs, idx) + costs[i]
  {
    assert (idx + [i])[..|idx|] == idx;
  }

  /** One step of the induction below: station `n - 1` adds its opening cost
      exactly when it is open. */
  lemma OpeningSumStep(p: Problem, openFlags: seq<int>, n: nat)
    requires p.WellFormed() && |openFlags| == p.nMain && Binary(openFlags) && 0 < n <= p.nMain
    requires p.OpeningSum(openFlags, n - 1) == SumAt(p.openingCost, IndicesOf(openFlags[..n - 1], 1))
    ensures p.OpeningSum(openFlags, n) == SumAt(p.openingCost, IndicesOf(openFlags[..n], 1))
  {
    var idx := IndicesOf(openFlags[..n - 1], 1);
    IndicesOfExtend(openFlags, 1, n - 1);
    assert p.OpeningSum(openFlags, n) == p.OpeningSum(openFlags, n - 1) + Weighted(openFlags[n - 1], p.openingCost[n - 1]);
    if openFlags[n - 1] == 1 {
      assert IndicesOf(openFlags[..n], 1) == idx + [n - 1];
      SumAtAppend(p.openingCost, idx, n - 1);
      assert Weighted(1, p.openingCost[n - 1]) == p.openingCost[n - 1];
    } else {
      assert IndicesOf(openFlags[..n], 1) == idx;
      assert Weighted(0, p.openingCost[n - 1]) == 0.0;
    }
  }

  lemma {:induction false} OpeningSumOverOpen(p: Problem, openFlags: seq<int>, n: nat)
    requires p.WellFormed() && |openFlags| == p.nMain && Binary(openFlags) && n <= p.nMain
    ensures p.OpeningSum(openFlags, n) == SumAt(p.openingCost, IndicesOf(openFlags[..n], 1))
  {
    if n > 0 {
      OpeningSumOverOpen(p, openFlags, n - 1);
      OpeningSumStep(p, openFlags, n);
    }
  }

  /** On a 0/1 open-set the finite cost is the opening cost of exactly the
      open stations plus, for every satellite, the matrix entry of its station. */
  lemma CostOverOpenStations(p: Problem, openFlags: seq<int>, assoc: seq<int>)
    requires p.WellFormed() && |openFlags| == p.nMain && Binary(openFlags)
    requires Sum(openFlags) != 0 && p.InRange(assoc)
    ensures p.CalculateCost(openFlags, assoc)
         == Fin(SumAt(p.openingCost, IndicesOf(openFlags, 1)) + p.DistanceSum(assoc, |assoc|))
  {
    OpeningSumOverOpen(p, openFlags, p.nMain);
    assert openFlags[..p.nMain] == openFlags;
  }

  /** Pointwise cheaper associations give a cheaper connection cost. */
  lemma {:induction false} DistanceSumMonotone(p: Problem, a: seq<int>, b: seq<int>, n: nat)
    requires p.WellFormed() && p.InRange(a) && p.InRange(b) && |a| == |b| && n <= |a|
    requires forall j :: 0 <= j < |a| ==> p.connectionCost[a[j]][j] <= p.connectionCost[b[j]][j]
    ensures p.DistanceSum(a, n) <= p.DistanceSum(b, n)
  {
    if n > 0 {
      DistanceSumMonotone(p, a, b, n - 1);
    }
  }

  /** A solution the checker accepts has a finite, non-negative cost when
      opening costs are non-negative. */
  lemma AcceptedCostFinite(p: Problem, openFlags: seq<int>, assoc: seq<int>)
    requires p.WellFormed() && p.Accepts(openFlags, assoc)
    requires forall i :: 0 <= i < p.nMain ==> p.openingCost[i] >= 0.0
    ensures p.CalculateCost(openFlags, assoc).Fin?
    ensures p.CalculateCost(openFlags, assoc).value >= 0.0
  {
    CostNonNegative(p, openFlags, assoc);
  }
}
