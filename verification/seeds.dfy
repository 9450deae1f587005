/** The three seed builders of the local-search solver (solver.py,
    `cheap_solution_1`, `cheap_solution_2`, `random_solution`). The random
    draws of `random_solution` are an input: one coin per main station. */
module Seeds {
  import opened OpenSet
  import opened Uflp
  import opened Nearest
  import opened Solutions

  /** `k` is what `np.argmin(xs)` returns: a minimum, the first one. */
  predicate IsFirstMin(xs: seq<real>, k: nat)
  {
    k < |xs| &&
    (forall i :: 0 <= i < |xs| ==> xs[k] <= xs[i]) &&
    (forall i :: 0 <= i < k ==> xs[k] < xs[i])
  }

  /** The first minimum is unique. */
  lemma FirstMinUnique(xs: seq<real>, a: nat, b: nat)
    requires IsFirstMin(xs, a) && IsFirstMin(xs, b)
    ensures a == b
  {
    assert xs[a] == xs[b];
  }

  /** `np.argmin`: one scan keeping the first strictly smaller entry. */
  method ArgMin(xs: seq<real>) returns (k: nat)
    requires |xs| > 0
    ensures IsFirstMin(xs, k)
  {
    k := 0;
    for i := 1 to |xs|
      invariant k < i
      invariant forall t :: 0 <= t < i ==> xs[k] <= xs[t]
      invariant forall t :: 0 <= t < k ==> xs[k] < xs[t]
    {
      if xs[i] < xs[k] {
        k := i;
      }
    }
  }

  /** Only station `k` open, every satellite on it. */
  function SingleStation(p: Problem, k: nat): Solution
  {
    Solution(seq(p.nMain, i => if i == k then 1 else 0), seq(p.nSat, j => Some(k)))
  }

  /** What `cheap_solution_1` builds: the single station with the first
      minimum opening cost. */
  ghost predicate IsCheapSolution1(p: Problem, s: Solution)
  {
    exists k :: IsFirstMin(p.openingCost, k) && s == SingleStation(p, k)
  }

  /** A single-station solution is a solver solution with one station open. */
  lemma SingleStationShaped(p: Problem, k: nat)
    requires p.WellFormed() && k < p.nMain
    ensures WellShaped(p, SingleStation(p, k)) && Count(SingleStation(p, k).mains, 1) == 1
  {
    var mains := SingleStation(p, k).mains;
    var zeros := seq(p.nMain, i => 0);
    assert mains == zeros[k := 1];
    assert Count(zeros, 1) == 0;
    CountUpdate(zeros, k, 1, 1);
  }

  /** `cheap_solution_1`: a zeroed flag array with the cheapest station set,
      and every satellite assigned to that station. */
  method CheapSolution1(p: Problem) returns (s: Solution)
    requires p.WellFormed() && p.nMain >= 1
    ensures IsCheapSolution1(p, s)
    ensures WellShaped(p, s) && Count(s.mains, 1) == 1
  {
    var mainStations := new int[p.nMain](i => 0);
    var cheapIndice := ArgMin(p.openingCost);
    mainStations[cheapIndice] := 1;
    var satellites := seq(p.nSat, j => Some(cheapIndice));
    s := Solution(mainStations[..], satellites);
    assert s == SingleStation(p, cheapIndice);
    SingleStationShaped(p, cheapIndice);
  }

  /** `max(1, M // 4)`, the number of stations `cheap_solution_2` asks for. */
  function OpenTarget(m: nat): nat
  {
    if m / 4 > 1 then m / 4 else 1
  }

  /** No open station costs more to open than any closed one. */
  predicate CheapestOpen(costs: seq<real>, mains: seq<int>)
    requires |costs| == |mains|
  {
    forall a, b :: 0 <= a < |mains| && 0 <= b < |mains| && mains[a] == 1 && mains[b] == 0 ==> costs[a] <= costs[b]
  }

  /** What `cheap_solution_2` builds: `max(1, M // 4)` stations open (none
      when there are none), chosen by opening cost, and every satellite on
      its nearest open station. */
  predicate IsCheapSolution2(p: Problem, s: Solution)
    requires p.WellFormed()
  {
    |s.mains| == p.nMain && Binary(s.mains) &&
    Count(s.mains, 1) == (if p.nMain == 0 then 0 else OpenTarget(p.nMain)) &&
    CheapestOpen(p.openingCost, s.mains) &&
    s.sats == NearestAssignment(p, s.mains)
  }

  /** The next index of `np.argsort(costs)` among the still closed stations:
      a closed station of least opening cost, the first one. */
  method CheapestClosed(costs: seq<real>, mains: seq<int>) returns (k: nat)
    requires |costs| == |mains| && Count(mains, 0) > 0
    ensures k < |mains| && mains[k] == 0
    ensures forall i :: 0 <= i < |mains| && mains[i] == 0 ==> costs[k] <= costs[i]
    ensures forall i :: 0 <= i < k && mains[i] == 0 ==> costs[k] < costs[i]
  {
    var found := false;
    k := 0;
    for i := 0 to |mains|
      invariant found ==> k < i && mains[k] == 0
      invariant !found ==> forall t :: 0 <= t < i ==> mains[t] != 0
      invariant found ==> forall t :: 0 <= t < i && mains[t] == 0 ==> costs[k] <= costs[t]
      invariant found ==> forall t :: 0 <= t < k && mains[t] == 0 ==> costs[k] < costs[t]
    {
      if mains[i] == 0 && (!found || costs[i] < costs[k]) {
        k := i;
        found := true;
      }
    }
  }

  /** `cheap_solution_2`: a zeroed flag array in which the first
      `max(1, M // 4)` stations of the opening-cost order are set, then the
      nearest assignment. */
  method CheapSolution2(p: Problem) returns (s: Solution)
    requires p.WellFormed()
    ensures IsCheapSolution2(p, s)
    ensures WellShaped(p, s)
  {
    var numMainStationsToOpen := OpenTarget(p.nMain);
    var taken := if numMainStationsToOpen <= p.nMain then numMainStationsToOpen else p.nMain;
    var mainStations := new int[p.nMain](i => 0);
    assert Count(mainStations[..], 1) == 0;
    for t := 0 to taken
      invariant Binary(mainStations[..]) && Count(mainStations[..], 1) == t
      invariant CheapestOpen(p.openingCost, mainStations[..])
    {
      var before := mainStations[..];
      BinarySumIsCount(before);
      var k := CheapestClosed(p.openingCost, before);
      mainStations[k] := 1;
      assert mainStations[..] == before[k := 1];
      CountUpdate(before, k, 1, 1);
    }
    var satellites := AssignNearestMains(p, mainStations[..]);
    s := Solution(mainStations[..], satellites);
    NearestShaped(p, s.mains);
  }

  /** What `random_solution` builds from its coins. */
  function RandomSeed(p: Problem, coins: seq<bool>): Solution
    requires p.WellFormed() && |coins| == p.nMain
  {
    Solution(CoinFlags(coins), NearestAssignment(p, CoinFlags(coins)))
  }

  /** `random_solution`: random 0/1 flags and the nearest assignment. It may
      open nothing, and then every satellite entry is `None`. */
  method RandomSolution(p: Problem, coins: seq<bool>) returns (s: Solution)
    requires p.WellFormed() && |coins| == p.nMain
    ensures s == RandomSeed(p, coins)
    ensures WellShaped(p, s)
    ensures forall i :: 0 <= i < p.nMain ==> (s.mains[i] == 1 <==> coins[i])
    ensures forall j :: 0 <= j < p.nSat ==> (s.sats[j].None? <==> forall i :: 0 <= i < p.nMain ==> !coins[i])
  {
    var mainStations := CoinFlags(coins);
    var satellites := AssignNearestMains(p, mainStations);
    s := Solution(mainStations, satellites);
    NearestShaped(p, mainStations);
  }
}
