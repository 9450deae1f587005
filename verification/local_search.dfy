/** The hill-climbing engine (solver.py, `local_search`): at most `n` passes;
    each pass walks the neighbourhood of the solution held at its start and
    takes every neighbour strictly cheaper than the one currently held; the
    search stops at the first pass that takes none. */
module HillClimbing {
  import opened OpenSet
  import opened Uflp
  import opened Nearest
  import opened Solutions
  import opened Neighbours

  predicate AllShaped(p: Problem, ns: seq<Solution>)
  {
    forall n :: 0 <= n < |ns| ==> WellShaped(p, ns[n])
  }

  /** The solution held after one pass over `ns` starting from `best`. */
  function Pass(p: Problem, ns: seq<Solution>, best: Solution): (r: Solution)
    requires p.WellFormed() && WellShaped(p, best) && AllShaped(p, ns)
    ensures WellShaped(p, r)
    decreases |ns|
  {
    if ns == [] then best
    else if Less(SolutionCost(p, ns[0]), SolutionCost(p, best)) then Pass(p, ns[1..], ns[0])
    else Pass(p, ns[1..], best)
  }

  /** A pass ends no dearer than it started, and where it started unless
      strictly cheaper. */
  lemma {:induction false} PassNoWorse(p: Problem, ns: seq<Solution>, best: Solution)
    requires p.WellFormed() && WellShaped(p, best) && AllShaped(p, ns)
    ensures LessEq(SolutionCost(p, Pass(p, ns, best)), SolutionCost(p, best))
    ensures !Less(SolutionCost(p, Pass(p, ns, best)), SolutionCost(p, best)) ==> Pass(p, ns, best) == best
    decreases |ns|
  {
    if ns != [] {
      var rest := ns[1..];
      assert AllShaped(p, rest);
      if Less(SolutionCost(p, ns[0]), SolutionCost(p, best)) {
        PassNoWorse(p, rest, ns[0]);
        CostOrder(SolutionCost(p, Pass(p, rest, ns[0])), SolutionCost(p, ns[0]), SolutionCost(p, best));
      } else {
        PassNoWorse(p, rest, best);
      }
    }
  }

  /** The result of a pass costs no more than any neighbour it walked. */
  lemma {:induction false} PassBelowAll(p: Problem, ns: seq<Solution>, best: Solution)
    requires p.WellFormed() && WellShaped(p, best) && AllShaped(p, ns)
    ensures forall m :: 0 <= m < |ns| ==> LessEq(SolutionCost(p, Pass(p, ns, best)), SolutionCost(p, ns[m]))
    decreases |ns|
  {
    if ns != [] {
      var rest, r := ns[1..], Pass(p, ns, best);
      assert forall m :: 0 <= m < |rest| ==> rest[m] == ns[m + 1];
      if Less(SolutionCost(p, ns[0]), SolutionCost(p, best)) {
        PassBelowAll(p, rest, ns[0]);
        PassNoWorse(p, rest, ns[0]);
      } else {
        PassBelowAll(p, rest, best);
        PassNoWorse(p, rest, best);
        CostOrder(SolutionCost(p, r), SolutionCost(p, best), SolutionCost(p, ns[0]));
      }
    }
  }

  /** A pass that ends strictly cheaper than it started ends at a neighbour
      strictly cheaper than every neighbour before it: the first neighbour
      of least cost. */
  lemma {:induction false} PassFirstCheapest(p: Problem, ns: seq<Solution>, best: Solution)
    requires p.WellFormed() && WellShaped(p, best) && AllShaped(p, ns)
    ensures var r := Pass(p, ns, best);
      Less(SolutionCost(p, r), SolutionCost(p, best)) ==>
        exists n :: 0 <= n < |ns| && r == ns[n] &&
          forall m :: 0 <= m < n ==> Less(SolutionCost(p, r), SolutionCost(p, ns[m]))
    decreases |ns|
  {
    if ns != [] {
      var rest, r := ns[1..], Pass(p, ns, best);
      assert forall m :: 0 <= m < |rest| ==> rest[m] == ns[m + 1];
      if Less(SolutionCost(p, ns[0]), SolutionCost(p, best)) {
        PassFirstCheapest(p, rest, ns[0]);
        PassNoWorse(p, rest, ns[0]);
        if Less(SolutionCost(p, r), SolutionCost(p, ns[0])) {
          var n :| 0 <= n < |rest| && r == rest[n] &&
            forall m :: 0 <= m < n ==> Less(SolutionCost(p, r), SolutionCost(p, rest[m]));
          assert r == ns[n + 1];
        } else {
          assert r == ns[0];
        }
      } else {
        PassFirstCheapest(p, rest, best);
        if Less(SolutionCost(p, r), SolutionCost(p, best)) {
          var n :| 0 <= n < |rest| && r == rest[n] &&
            forall m :: 0 <= m < n ==> Less(SolutionCost(p, r), SolutionCost(p, rest[m]));
          assert r == ns[n + 1];
        }
      }
    }
  }

  /** The neighbours of a solver solution are solver solutions. */
  lemma NeighboursShaped(p: Problem, mains: seq<int>)
    requires p.WellFormed() && |mains| == p.nMain && Binary(mains)
    ensures AllShaped(p, Neighbourhood(p, mains))
  {
    NeighboursFeasible(p, mains);
  }

  /** No neighbour is strictly cheaper than `s`. */
  predicate IsLocalOptimum(p: Problem, s: Solution)
    requires p.WellFormed() && WellShaped(p, s)
  {
    NeighboursShaped(p, s.mains);
    var ns := Neighbourhood(p, s.mains);
    forall n :: 0 <= n < |ns| ==> LessEq(SolutionCost(p, s), SolutionCost(p, ns[n]))
  }

  /** The solution held at the end of one outer iteration: a pass over the
      neighbourhood of `s`. It is never dearer than `s`, and it is `s` itself
      unless strictly cheaper. */
  function Step(p: Problem, s: Solution): (r: Solution)
    requires p.WellFormed() && WellShaped(p, s)
    ensures WellShaped(p, r)
    ensures LessEq(SolutionCost(p, r), SolutionCost(p, s))
    ensures !Less(SolutionCost(p, r), SolutionCost(p, s)) ==> r == s
  {
    NeighboursShaped(p, s.mains);
    PassNoWorse(p, Neighbourhood(p, s.mains), s);
    Pass(p, Neighbourhood(p, s.mains), s)
  }

  /** A pass leaves the held cost where it was exactly when `s` is a local
      optimum. */
  lemma StepStopsAtLocalOptimum(p: Problem, s: Solution)
    requires p.WellFormed() && WellShaped(p, s)
    ensures !Less(SolutionCost(p, Step(p, s)), SolutionCost(p, s)) <==> IsLocalOptimum(p, s)
  {
    NeighboursShaped(p, s.mains);
    var ns := Neighbourhood(p, s.mains);
    var r := Pass(p, ns, s);
    assert Step(p, s) == r;
    if Less(SolutionCost(p, r), SolutionCost(p, s)) {
      PassFirstCheapest(p, ns, s);
      var n :| 0 <= n < |ns| && r == ns[n];
      assert !LessEq(SolutionCost(p, s), SolutionCost(p, ns[n]));
    } else {
      PassNoWorse(p, ns, s);
      PassBelowAll(p, ns, s);
    }
  }

  /** The solution `local_search` returns after at most `n` passes. */
  function Search(p: Problem, n: nat, s: Solution): (r: Solution)
    requires p.WellFormed() && WellShaped(p, s)
    ensures WellShaped(p, r)
    decreases n
  {
    if n == 0 then s
    else
      var next := Step(p, s);
      if Less(SolutionCost(p, next), SolutionCost(p, s)) then Search(p, n - 1, next) else s
  }

  /** One outer iteration of the search: continue from the pass result when
      it is strictly cheaper, stop otherwise. */
  lemma SearchUnfold(p: Problem, m: nat, s: Solution)
    requires p.WellFormed() && WellShaped(p, s)
    ensures var next := Step(p, s);
      Search(p, m + 1, s) == if Less(SolutionCost(p, next), SolutionCost(p, s)) then Search(p, m, next) else s
  {
  }

  /** The held cost never increases: the search ends no dearer than it began. */
  lemma {:induction false} SearchNoWorse(p: Problem, n: nat, s: Solution)
    requires p.WellFormed() && WellShaped(p, s)
    ensures LessEq(SolutionCost(p, Search(p, n, s)), SolutionCost(p, s))
    decreases n, 1
  {
    if n == 0 {
      assert Search(p, n, s) == s;
      CostOrder(SolutionCost(p, s), SolutionCost(p, s), SolutionCost(p, s));
    } else {
      SearchNoWorseFromStep(p, n - 1, n, s);
    }
  }

  /** The inductive step of `SearchNoWorse`: one pass, then the search from
      its result.
      It is a lemma of its own, taking `n == m + 1` instead of recursing on
      `n - 1`, so that each proof obligation stays small for the verifier. */
  lemma {:induction false} SearchNoWorseFromStep(p: Problem, m: nat, n: nat, s: Solution)
    requires p.WellFormed() && WellShaped(p, s) && n == m + 1
    ensures LessEq(SolutionCost(p, Search(p, n, s)), SolutionCost(p, s))
    decreases n, 0
  {
    var next := Step(p, s);
    SearchUnfold(p, m, s);
    if Less(SolutionCost(p, next), SolutionCost(p, s)) {
      SearchNoWorse(p, m, next);
      CostOrder(SolutionCost(p, Search(p, m, next)), SolutionCost(p, next), SolutionCost(p, s));
    } else {
      CostOrder(SolutionCost(p, s), SolutionCost(p, s), SolutionCost(p, s));
    }
  }

  /** One more pass never makes the result dearer. */
  lemma {:induction false} SearchDeeperNoWorse(p: Problem, n: nat, s: Solution)
    requires p.WellFormed() && WellShaped(p, s)
    ensures LessEq(SolutionCost(p, Search(p, n + 1, s)), SolutionCost(p, Search(p, n, s)))
    decreases n, 1
  {
    if n == 0 {
      SearchNoWorse(p, 1, s);
      assert Search(p, n, s) == s;
    } else {
      SearchDeeperFromStep(p, n - 1, n, s);
    }
  }

  /** The inductive step of `SearchDeeperNoWorse`.
      It is a lemma of its own, taking `n == m + 1` instead of recursing on
      `n - 1`, so that each proof obligation stays small for the verifier. */
  lemma {:induction false} SearchDeeperFromStep(p: Problem, m: nat, n: nat, s: Solution)
    requires p.WellFormed() && WellShaped(p, s) && n == m + 1
    ensures LessEq(SolutionCost(p, Search(p, n + 1, s)), SolutionCost(p, Search(p, n, s)))
    decreases n, 0
  {
    var next := Step(p, s);
    SearchUnfold(p, m + 1, s);
    SearchUnfold(p, m, s);
    if Less(SolutionCost(p, next), SolutionCost(p, s)) {
      SearchDeeperNoWorse(p, m, next);
    } else {
      CostOrder(SolutionCost(p, s), SolutionCost(p, s), SolutionCost(p, s));
    }
  }

  /** A local optimum is returned unchanged, and from any other solution a
      search of at least one pass ends strictly cheaper. */
  lemma SearchFromLocalOptimum(p: Problem, n: nat, s: Solution)
    requires p.WellFormed() && WellShaped(p, s)
    ensures IsLocalOptimum(p, s) ==> Search(p, n, s) == s
    ensures !IsLocalOptimum(p, s) && n > 0 ==> Less(SolutionCost(p, Search(p, n, s)), SolutionCost(p, s))
  {
    if n > 0 {
      FirstPassDecides(p, n - 1, n, s);
    } else {
      assert Search(p, n, s) == s;
    }
  }

  /** The first pass decides whether a search moves at all. */
  lemma FirstPassDecides(p: Problem, m: nat, n: nat, s: Solution)
    requires p.WellFormed() && WellShaped(p, s) && n == m + 1
    ensures IsLocalOptimum(p, s) ==> Search(p, n, s) == s
    ensures !IsLocalOptimum(p, s) ==> Less(SolutionCost(p, Search(p, n, s)), SolutionCost(p, s))
  {
    var next := Step(p, s);
    StepStopsAtLocalOptimum(p, s);
    SearchUnfold(p, m, s);
    if Less(SolutionCost(p, next), SolutionCost(p, s)) {
      SearchNoWorse(p, m, next);
      CostOrder(SolutionCost(p, Search(p, m, next)), SolutionCost(p, next), SolutionCost(p, s));
    }
  }

  /** One iteration of `local_search`'s outer loop: build the neighbours of
      the held solution and walk them, taking each strictly cheaper one. */
  method ImproveOnce(p: Problem, start: Solution, startCost: Cost) returns (sol: Solution, cost: Cost, solutionChanged: bool)
    requires p.WellFormed() && WellShaped(p, start) && startCost == SolutionCost(p, start)
    ensures sol == Step(p, start)
    ensures WellShaped(p, sol) && cost == SolutionCost(p, sol)
    ensures solutionChanged == Less(cost, startCost)
  {
    sol, cost := start, startCost;
    solutionChanged := false;
    var neighbours := CreateNeighbours(p, sol);
    NeighboursShaped(p, sol.mains);
    assert Step(p, start) == Pass(p, neighbours, start);
    for t := 0 to |neighbours|
      invariant WellShaped(p, sol) && cost == SolutionCost(p, sol)
      invariant Pass(p, neighbours[t..], sol) == Pass(p, neighbours, start)
      invariant LessEq(cost, startCost)
      invariant solutionChanged == Less(cost, startCost)
    {
      assert neighbours[t..][1..] == neighbours[t + 1..];
      var neigh := neighbours[t];
      var newCost := SolutionCost(p, neigh);
      if Less(newCost, cost) {
        sol := neigh;
        cost := newCost;
        solutionChanged := true;
      }
    }
  }

  /** The number of passes of a search of at most `n` passes that found a
      strictly cheaper neighbour. */
  function Improvements(p: Problem, n: nat, s: Solution): (k: nat)
    requires p.WellFormed() && WellShaped(p, s)
    ensures k <= n
    decreases n
  {
    if n == 0 then 0
    else
      var next := Step(p, s);
      if Less(SolutionCost(p, next), SolutionCost(p, s)) then 1 + Improvements(p, n - 1, next) else 0
  }

  /** One outer iteration of the count. */
  lemma ImprovementsUnfold(p: Problem, m: nat, s: Solution)
    requires p.WellFormed() && WellShaped(p, s)
    ensures var next := Step(p, s);
      Improvements(p, m + 1, s) == if Less(SolutionCost(p, next), SolutionCost(p, s)) then 1 + Improvements(p, m, next) else 0
  {
  }

  /** Unless every one of the `n` passes improved, a further pass from the
      search result would find nothing strictly cheaper. */
  lemma {:induction false} SearchEndsStuck(p: Problem, n: nat, s: Solution)
    requires p.WellFormed() && WellShaped(p, s)
    ensures Improvements(p, n, s) < n ==>
      !Less(SolutionCost(p, Step(p, Search(p, n, s))), SolutionCost(p, Search(p, n, s)))
    decreases n, 1
  {
    if n > 0 {
      SearchEndsStuckFromStep(p, n - 1, n, s);
    }
  }

  /** The inductive step of `SearchEndsStuck`.
      It is a lemma of its own, taking `n == m + 1` instead of recursing on
      `n - 1`, so that each proof obligation stays small for the verifier. */
  lemma {:induction false} SearchEndsStuckFromStep(p: Problem, m: nat, n: nat, s: Solution)
    requires p.WellFormed() && WellShaped(p, s) && n == m + 1
    ensures Improvements(p, n, s) < n ==>
      !Less(SolutionCost(p, Step(p, Search(p, n, s))), SolutionCost(p, Search(p, n, s)))
    decreases n, 0
  {
    var next := Step(p, s);
    SearchUnfold(p, m, s);
    ImprovementsUnfold(p, m, s);
    if Less(SolutionCost(p, next), SolutionCost(p, s)) {
      SearchEndsStuck(p, m, next);
    }
  }

  /** The search either spends all `n` passes improving, or stops at a
      local optimum. */
  lemma SearchEndsAtLocalOptimum(p: Problem, n: nat, s: Solution)
    requires p.WellFormed() && WellShaped(p, s)
    ensures Improvements(p, n, s) < n ==> IsLocalOptimum(p, Search(p, n, s))
  {
    SearchEndsStuck(p, n, s);
    StepStopsAtLocalOptimum(p, Search(p, n, s));
  }

  /** `local_search`, started from an already built initial solution: at
      most `n` outer iterations, leaving the loop at the first one that
      changes nothing. */
  method LocalSearch(p: Problem, n: nat, initial: Solution) returns (sol: Solution)
    requires p.WellFormed() && WellShaped(p, initial)
    ensures sol == Search(p, n, initial)
    ensures WellShaped(p, sol) && LessEq(SolutionCost(p, sol), SolutionCost(p, initial))
  {
    SearchNoWorse(p, n, initial);
    sol := initial;
    var cost := SolutionCost(p, sol);
    var i := 0;
    while i < n
      invariant i <= n
      invariant WellShaped(p, sol) && cost == SolutionCost(p, sol)
      invariant Search(p, n, initial) == Search(p, n - i, sol)
    {
      SearchUnfold(p, n - i - 1, sol);
      var next, nextCost, solutionChanged := ImproveOnce(p, sol, cost);
      if !solutionChanged {
        return;
      }
      sol, cost := next, nextCost;
      i := i + 1;
    }
  }
}
