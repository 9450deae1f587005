/** Solutions as the local-search solver (solver.py) builds and compares
    them: the list of open flags with, per satellite, the station it is
    assigned to, and their cost through `calculate_cost`. */
module Solutions {
  import opened OpenSet
  import opened Uflp
  import opened Nearest

  /** `(main_stations, satellites)`; a satellite's entry is `None` exactly
      when `assign_nearest_mains` found no open station. */
  datatype Solution = Solution(mains: seq<int>, sats: seq<Option<nat>>)

  /** The shape every solution of the solver has: one 0/1 flag per station,
      one entry per satellite naming an open station, and `None` entries
      only when nothing is open. */
  predicate WellShaped(p: Problem, s: Solution)
  {
    |s.mains| == p.nMain && Binary(s.mains) && |s.sats| == p.nSat &&
    forall j :: 0 <= j < |s.sats| ==>
      match s.sats[j]
      case None => Count(s.mains, 1) == 0
      case Some(k) => k < p.nMain && s.mains[k] == 1
  }

  /** The association list with every entry known to be present. */
  function Targets(sats: seq<Option<nat>>): (r: seq<int>)
    requires forall j :: 0 <= j < |sats| ==> sats[j].Some?
    ensures |r| == |sats|
    ensures forall j :: 0 <= j < |sats| ==> 0 <= r[j] && sats[j] == Some(r[j] as nat)
  {
    seq(|sats|, j requires 0 <= j < |sats| => sats[j].value as int)
  }

  /** `problem.calculate_cost(sol[0], sol[1])` on a solver solution: infinite
      when nothing is open, in which case the `None` entries are never read;
      otherwise summed satellite by satellite on top of the opening cost
      (`SolutionCostIsCalculated` ties it to `calculate_cost`). */
  function SolutionCost(p: Problem, s: Solution): (c: Cost)
    requires p.WellFormed() && WellShaped(p, s)
    ensures c.Inf? <==> Count(s.mains, 1) == 0
  {
    if Count(s.mains, 1) == 0 then Inf else Fin(CostUpTo(p, s, p.nSat))
  }

  /** The opening cost plus the connection cost of the first `n` satellites. */
  function CostUpTo(p: Problem, s: Solution, n: nat): real
    requires p.WellFormed() && WellShaped(p, s) && Count(s.mains, 1) != 0 && n <= p.nSat
  {
    if n == 0 then p.OpeningSum(s.mains, p.nMain)
    else CostUpTo(p, s, n - 1) + p.GetAssociationCost(s.sats[n - 1].value, n - 1)
  }

  lemma {:induction false} CostUpToIsSum(p: Problem, s: Solution, n: nat)
    requires p.WellFormed() && WellShaped(p, s) && Count(s.mains, 1) != 0 && n <= p.nSat
    requires forall j :: 0 <= j < |s.sats| ==> s.sats[j].Some?
    ensures p.InRange(Targets(s.sats))
    ensures CostUpTo(p, s, n) == p.OpeningSum(s.mains, p.nMain) + p.DistanceSum(Targets(s.sats), n)
  {
    if n > 0 {
      CostUpToIsSum(p, s, n - 1);
    }
  }

  /** The solver's cost of a solution is what `calculate_cost` returns on
      its flags and its association list (an empty one when nothing is
      open, since it is then never read). */
  lemma SolutionCostIsCalculated(p: Problem, s: Solution)
    requires p.WellFormed() && WellShaped(p, s)
    ensures Count(s.mains, 1) == 0 ==> SolutionCost(p, s) == p.CalculateCost(s.mains, [])
    ensures Count(s.mains, 1) != 0 ==>
      (forall j :: 0 <= j < |s.sats| ==> s.sats[j].Some?) &&
      p.InRange(Targets(s.sats)) &&
      SolutionCost(p, s) == p.CalculateCost(s.mains, Targets(s.sats))
  {
    BinarySumIsCount(s.mains);
    if Count(s.mains, 1) != 0 {
      assert forall j :: 0 <= j < |s.sats| ==> s.sats[j].Some?;
      CostUpToIsSum(p, s, p.nSat);
    }
  }

  /** The solution passes `solution_checker`. */
  predicate AcceptedByChecker(p: Problem, s: Solution)
  {
    (forall j :: 0 <= j < |s.sats| ==> s.sats[j].Some?) && p.Accepts(s.mains, Targets(s.sats))
  }

  /** Every well-shaped solution with an open station passes the checker. */
  lemma OpenSolutionAccepted(p: Problem, s: Solution)
    requires p.WellFormed() && WellShaped(p, s) && Count(s.mains, 1) >= 1
    ensures AcceptedByChecker(p, s)
  {
    BinarySumIsCount(s.mains);
    assert forall j :: 0 <= j < |s.sats| ==> s.sats[j].Some?;
  }

  /** A 0/1 open-set with its nearest assignment is a well-shaped solution. */
  lemma NearestShaped(p: Problem, mains: seq<int>)
    requires p.WellFormed() && |mains| == p.nMain && Binary(mains)
    ensures WellShaped(p, Solution(mains, NearestAssignment(p, mains)))
  {
  }

  /** For a fixed open-set, the nearest assignment costs no more than any
      assignment the checker accepts. */
  lemma NearestSolutionIsCheapest(p: Problem, mains: seq<int>, assoc: seq<int>)
    requires p.WellFormed() && p.Accepts(mains, assoc)
    ensures WellShaped(p, Solution(mains, NearestAssignment(p, mains)))
    ensures LessEq(SolutionCost(p, Solution(mains, NearestAssignment(p, mains))), p.CalculateCost(mains, assoc))
  {
    NearestShaped(p, mains);
    var s := Solution(mains, NearestAssignment(p, mains));
    BinarySumIsCount(mains);
    assert forall j :: 0 <= j < p.nSat ==> s.sats[j].Some?;
    var nearest := Targets(s.sats);
    NearestIsCheapest(p, mains, nearest, assoc);
    SolutionCostIsCalculated(p, s);
  }
}
