/** The multi-start driver of the local-search solver (solver.py, `solve`):
    a search from each cheap seed, then searches from random seeds, keeping
    the first cheapest result. The coins of the random seeds are an input. */
module Solver {
  import opened OpenSet
  import opened Uflp
  import opened Solutions
  import opened HillClimbing
  import opened Seeds

  /** Depth of the searches from the two cheap seeds. */
  const SeedDepth: nat := 15
  /** `nbr_random_local_searchs`. */
  const RandomSearches: nat := 25
  /** `depth_random_local_search`. */
  const RandomDepth: nat := 40

  /** `sol` is the result `solve` keeps among `runs`: the first of least cost. */
  predicate IsFirstCheapest(p: Problem, runs: seq<Solution>, sol: Solution)
    requires p.WellFormed() && AllShaped(p, runs) && WellShaped(p, sol)
  {
    (forall t :: 0 <= t < |runs| ==> LessEq(SolutionCost(p, sol), SolutionCost(p, runs[t]))) &&
    exists k :: 0 <= k < |runs| && runs[k] == sol &&
      forall t :: 0 <= t < k ==> Less(SolutionCost(p, sol), SolutionCost(p, runs[t]))
  }

  /** Keeping the running best across one more result: replace it only when
      the new result is strictly cheaper. */
  lemma KeepFirstCheapest(p: Problem, runs: seq<Solution>, best: Solution, next: Solution)
    requires p.WellFormed() && AllShaped(p, runs) && WellShaped(p, best) && WellShaped(p, next)
    requires IsFirstCheapest(p, runs, best)
    ensures AllShaped(p, runs + [next])
    ensures var kept := if Less(SolutionCost(p, next), SolutionCost(p, best)) then next else best;
      IsFirstCheapest(p, runs + [next], kept)
  {
    var all := runs + [next];
    var k :| 0 <= k < |runs| && runs[k] == best &&
      forall t :: 0 <= t < k ==> Less(SolutionCost(p, best), SolutionCost(p, runs[t]));
    if Less(SolutionCost(p, next), SolutionCost(p, best)) {
      forall t | 0 <= t < |all|
        ensures Less(SolutionCost(p, next), SolutionCost(p, all[t])) || t == |runs|
      {
        if t < |runs| {
          CostOrder(SolutionCost(p, next), SolutionCost(p, best), SolutionCost(p, runs[t]));
        }
      }
      CostOrder(SolutionCost(p, next), SolutionCost(p, next), SolutionCost(p, next));
      assert all[|runs|] == next;
    } else {
      assert all[k] == best;
      CostOrder(SolutionCost(p, best), SolutionCost(p, next), SolutionCost(p, best));
    }
  }

  /** `runs[t]` is the search from `seeds[t]`, of depth `seedDepth` for the
      first two (the cheap seeds) and `randomDepth` for the others. */
  predicate SearchedFrom(p: Problem, seeds: seq<Solution>, runs: seq<Solution>, seedDepth: nat, randomDepth: nat)
    requires p.WellFormed()
  {
    |seeds| == |runs| && AllShaped(p, seeds) && AllShaped(p, runs) &&
    (forall t :: 0 <= t < |runs| && t < 2 ==> runs[t] == Search(p, seedDepth, seeds[t])) &&
    (forall t :: 2 <= t < |runs| ==> runs[t] == Search(p, randomDepth, seeds[t]))
  }

  /** Recording one more search keeps the record. */
  lemma SearchedFromAppend(p: Problem, seeds: seq<Solution>, runs: seq<Solution>, seed: Solution, run: Solution, d1: nat, d2: nat)
    requires p.WellFormed() && SearchedFrom(p, seeds, runs, d1, d2)
    requires WellShaped(p, seed) && run == Search(p, if |runs| < 2 then d1 else d2, seed)
    ensures SearchedFrom(p, seeds + [seed], runs + [run], d1, d2)
  {
    assert AllShaped(p, seeds + [seed]) && AllShaped(p, runs + [run]);
  }

  /** Seeds from position 2 on are the random seeds drawn with `coins`. */
  predicate RandomSeedsFrom(p: Problem, coins: seq<seq<bool>>, seeds: seq<Solution>)
    requires p.WellFormed() && forall t :: 0 <= t < |coins| ==> |coins[t]| == p.nMain
  {
    |seeds| <= |coins| + 2 &&
    forall t :: 2 <= t < |seeds| ==> seeds[t] == RandomSeed(p, coins[t - 2])
  }

  /** Recording one more random seed keeps the record. */
  lemma RandomSeedsAppend(p: Problem, coins: seq<seq<bool>>, seeds: seq<Solution>, seed: Solution)
    requires p.WellFormed() && forall t :: 0 <= t < |coins| ==> |coins[t]| == p.nMain
    requires RandomSeedsFrom(p, coins, seeds) && 2 <= |seeds| < |coins| + 2
    requires seed == RandomSeed(p, coins[|seeds| - 2])
    ensures RandomSeedsFrom(p, coins, seeds + [seed])
  {
  }

  /** The kept result is no dearer than any seed: every search ends no
      dearer than its seed. */
  lemma NoDearerThanSeeds(p: Problem, seeds: seq<Solution>, runs: seq<Solution>, sol: Solution, d1: nat, d2: nat)
    requires p.WellFormed() && SearchedFrom(p, seeds, runs, d1, d2) && WellShaped(p, sol)
    requires IsFirstCheapest(p, runs, sol)
    ensures forall t :: 0 <= t < |seeds| ==> LessEq(SolutionCost(p, sol), SolutionCost(p, seeds[t]))
  {
    forall t | 0 <= t < |seeds|
      ensures LessEq(SolutionCost(p, sol), SolutionCost(p, seeds[t]))
    {
      SearchNoWorse(p, if t < 2 then d1 else d2, seeds[t]);
      CostOrder(SolutionCost(p, sol), SolutionCost(p, runs[t]), SolutionCost(p, seeds[t]));
    }
  }

  /** Since the first seed opens one station, it has a finite cost, hence
      so has the kept result, which is therefore a solution the checker
      accepts. */
  lemma KeptIsAccepted(p: Problem, seeds: seq<Solution>, runs: seq<Solution>, sol: Solution, d1: nat, d2: nat)
    requires p.WellFormed() && SearchedFrom(p, seeds, runs, d1, d2) && WellShaped(p, sol)
    requires IsFirstCheapest(p, runs, sol)
    requires |seeds| >= 1 && IsCheapSolution1(p, seeds[0])
    ensures forall t :: 0 <= t < |seeds| ==> LessEq(SolutionCost(p, sol), SolutionCost(p, seeds[t]))
    ensures AcceptedByChecker(p, sol)
  {
    NoDearerThanSeeds(p, seeds, runs, sol, d1, d2);
    var k :| IsFirstMin(p.openingCost, k) && seeds[0] == SingleStation(p, k);
    SingleStationShaped(p, k);
    OpenSolutionAccepted(p, sol);
  }

  /** A single result is the first cheapest of itself. */
  lemma SingleRunCheapest(p: Problem, sol: Solution)
    requires p.WellFormed() && WellShaped(p, sol)
    ensures AllShaped(p, [sol]) && IsFirstCheapest(p, [sol], sol)
  {
    CostOrder(SolutionCost(p, sol), SolutionCost(p, sol), SolutionCost(p, sol));
    assert [sol][0] == sol;
  }

  /** One more start of `solve`: a search from `seed`, of the depth its
      position calls for, whose result replaces the best so far only when it
      is strictly cheaper. */
  method StartFrom(p: Problem, seed: Solution, depth: nat, seedDepth: nat, randomDepth: nat,
                   best: Solution, ghost seeds: seq<Solution>, ghost runs: seq<Solution>)
      returns (sol: Solution, ghost seeds': seq<Solution>, ghost runs': seq<Solution>)
    requires p.WellFormed() && WellShaped(p, seed)
    requires depth == if |runs| < 2 then seedDepth else randomDepth
    requires SearchedFrom(p, seeds, runs, seedDepth, randomDepth)
    requires WellShaped(p, best) && IsFirstCheapest(p, runs, best)
    ensures seeds' == seeds + [seed] && |runs'| == |runs| + 1
    ensures SearchedFrom(p, seeds', runs', seedDepth, randomDepth)
    ensures WellShaped(p, sol) && IsFirstCheapest(p, runs', sol)
  {
    var newSol := LocalSearch(p, depth, seed);
    KeepFirstCheapest(p, runs, best, newSol);
    SearchedFromAppend(p, seeds, runs, seed, newSol, seedDepth, randomDepth);
    seeds', runs' := seeds + [seed], runs + [newSol];
    sol := best;
    if Less(SolutionCost(p, newSol), SolutionCost(p, best)) {
      sol := newSol;
    }
  }

  /** The first half of `solve`: a search of depth `seedDepth` from
      `cheap_solution_1`, then one from `cheap_solution_2`, keeping the
      second result only when it is strictly cheaper. */
  method CheapStarts(p: Problem, seedDepth: nat, randomDepth: nat)
      returns (sol: Solution, ghost seeds: seq<Solution>, ghost runs: seq<Solution>)
    requires p.WellFormed() && p.nMain >= 1
    ensures |seeds| == 2
    ensures IsCheapSolution1(p, seeds[0]) && IsCheapSolution2(p, seeds[1])
    ensures SearchedFrom(p, seeds, runs, seedDepth, randomDepth)
    ensures WellShaped(p, sol) && IsFirstCheapest(p, runs, sol)
  {
    var seed1 := CheapSolution1(p);
    sol := LocalSearch(p, seedDepth, seed1);
    SearchedFromAppend(p, [], [], seed1, sol, seedDepth, randomDepth);
    SingleRunCheapest(p, sol);
    var seed2 := CheapSolution2(p);
    sol, seeds, runs := StartFrom(p, seed2, seedDepth, seedDepth, randomDepth, sol, [seed1], [sol]);
  }

  /** One random restart of `solve`, the `i`-th: a seed drawn with `coins[i]`
      and a search of depth `randomDepth` from it. */
  method RandomStart(p: Problem, coins: seq<seq<bool>>, i: nat, seedDepth: nat, randomDepth: nat,
                     best: Solution, ghost seeds: seq<Solution>, ghost runs: seq<Solution>)
      returns (sol: Solution, ghost seeds': seq<Solution>, ghost runs': seq<Solution>)
    requires p.WellFormed() && forall t :: 0 <= t < |coins| ==> |coins[t]| == p.nMain
    requires i < |coins| && |seeds| == i + 2 && RandomSeedsFrom(p, coins, seeds)
    requires SearchedFrom(p, seeds, runs, seedDepth, randomDepth)
    requires WellShaped(p, best) && IsFirstCheapest(p, runs, best)
    ensures seeds' == seeds + [RandomSeed(p, coins[i])] && RandomSeedsFrom(p, coins, seeds')
    ensures SearchedFrom(p, seeds', runs', seedDepth, randomDepth)
    ensures WellShaped(p, sol) && IsFirstCheapest(p, runs', sol)
  {
    var seed := RandomSolution(p, coins[i]);
    RandomSeedsAppend(p, coins, seeds, seed);
    sol, seeds', runs' := StartFrom(p, seed, randomDepth, seedDepth, randomDepth, best, seeds, runs);
  }

  /** The loop of `solve` over its random restarts, one per entry of
      `coins`, after the cheap starts recorded in `seeds` and `runs`. */
  method RandomStarts(p: Problem, coins: seq<seq<bool>>, seedDepth: nat, randomDepth: nat,
                      best: Solution, ghost seeds: seq<Solution>, ghost runs: seq<Solution>)
      returns (sol: Solution, ghost seeds': seq<Solution>, ghost runs': seq<Solution>)
    requires p.WellFormed() && forall t :: 0 <= t < |coins| ==> |coins[t]| == p.nMain
    requires |seeds| == 2 && SearchedFrom(p, seeds, runs, seedDepth, randomDepth)
    requires WellShaped(p, best) && IsFirstCheapest(p, runs, best)
    ensures |seeds'| == |coins| + 2 && seeds'[0] == seeds[0] && seeds'[1] == seeds[1]
    ensures RandomSeedsFrom(p, coins, seeds')
    ensures SearchedFrom(p, seeds', runs', seedDepth, randomDepth)
    ensures WellShaped(p, sol) && IsFirstCheapest(p, runs', sol)
  {
    sol, seeds', runs' := best, seeds, runs;
    for i := 0 to |coins|
      invariant |seeds'| == i + 2 && seeds'[0] == seeds[0] && seeds'[1] == seeds[1]
      invariant RandomSeedsFrom(p, coins, seeds')
      invariant SearchedFrom(p, seeds', runs', seedDepth, randomDepth)
      invariant WellShaped(p, sol) && IsFirstCheapest(p, runs', sol)
    {
      sol, seeds', runs' := RandomStart(p, coins, i, seedDepth, randomDepth, sol, seeds', runs');
    }
  }

  /** The body of `solve`, with its two depths and its number of random
      restarts as parameters: the two cheap starts, then `|coins|` searches
      of depth `randomDepth` from random seeds drawn with `coins[t]`; the
      result is the first cheapest of all search results. The ghost outputs
      list the seeds and the search results in the order they are produced. */
  method MultiStart(p: Problem, coins: seq<seq<bool>>, seedDepth: nat, randomDepth: nat)
      returns (sol: Solution, ghost seeds: seq<Solution>, ghost runs: seq<Solution>)
    requires p.WellFormed() && p.nMain >= 1
    requires forall t :: 0 <= t < |coins| ==> |coins[t]| == p.nMain
    ensures |seeds| == |runs| == |coins| + 2
    ensures IsCheapSolution1(p, seeds[0]) && IsCheapSolution2(p, seeds[1])
    ensures RandomSeedsFrom(p, coins, seeds)
    ensures SearchedFrom(p, seeds, runs, seedDepth, randomDepth)
    ensures WellShaped(p, sol) && IsFirstCheapest(p, runs, sol)
    ensures forall t :: 0 <= t < |seeds| ==> LessEq(SolutionCost(p, sol), SolutionCost(p, seeds[t]))
    ensures AcceptedByChecker(p, sol)
  {
    ghost var cheapSeeds, cheapRuns;
    sol, cheapSeeds, cheapRuns := CheapStarts(p, seedDepth, randomDepth);
    sol, seeds, runs := RandomStarts(p, coins, seedDepth, randomDepth, sol, cheapSeeds, cheapRuns);
    KeptIsAccepted(p, seeds, runs, sol, seedDepth, randomDepth);
  }

  /** `solve`, with `nbr_random_local_searchs` random restarts of depth
      `depth_random_local_search` after the two seeded searches of depth 15. */
  method Solve(p: Problem, coins: seq<seq<bool>>) returns (sol: Solution, ghost seeds: seq<Solution>, ghost runs: seq<Solution>)
    requires p.WellFormed() && p.nMain >= 1
    requires |coins| == RandomSearches && forall t :: 0 <= t < |coins| ==> |coins[t]| == p.nMain
    ensures |seeds| == |runs| == RandomSearches + 2
    ensures IsCheapSolution1(p, seeds[0]) && IsCheapSolution2(p, seeds[1])
    ensures RandomSeedsFrom(p, coins, seeds)
    ensures SearchedFrom(p, seeds, runs, SeedDepth, RandomDepth)
    ensures WellShaped(p, sol) && IsFirstCheapest(p, runs, sol)
    ensures forall t :: 0 <= t < |seeds| ==> LessEq(SolutionCost(p, sol), SolutionCost(p, seeds[t]))
    ensures AcceptedByChecker(p, sol)
  {
    sol, seeds, runs := MultiStart(p, coins, SeedDepth, RandomDepth);
  }
}
