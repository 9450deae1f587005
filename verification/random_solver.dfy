/** The random baseline (random_solver.py, `solve`): random 0/1 flags, one
    station opened when the draw opened none, and every satellite on a
    randomly chosen open station. The random draws are inputs: one coin per
    station for `random.choice([0, 1])`, and for every `random.choice` over a
    list of length `L` a natural number `d` standing for the entry at `d % L`. */
module RandomSolver {
  import opened OpenSet
  import opened Uflp

  /** The flags after the repair step: the coin flags, or, when they sum to
      zero, the coin flags with the drawn station set. */
  function RepairedFlags(coins: seq<bool>, repair: nat): (r: seq<int>)
    requires |coins| >= 1
    ensures |r| == |coins| && Binary(r) && Count(r, 1) >= 1
    ensures forall i :: 0 <= i < |coins| && coins[i] ==> r[i] == 1
    ensures Sum(CoinFlags(coins)) != 0 ==> r == CoinFlags(coins)
    ensures Sum(CoinFlags(coins)) == 0 ==> Count(r, 1) == 1 && r[repair % |coins|] == 1
  {
    var flags := CoinFlags(coins);
    BinarySumIsCount(flags);
    if Sum(flags) == 0 then
      CountUpdate(flags, repair % |coins|, 1, 1);
      flags[repair % |coins| := 1]
    else flags
  }

  /** The association of line 27: satellite `j` goes to the open station at
      position `picks[j] % |indices|` of the ascending list of open stations. */
  function DrawnAssociation(flags: seq<int>, picks: seq<nat>): (r: seq<int>)
    requires Count(flags, 1) >= 1
    ensures |r| == |picks|
    ensures forall j :: 0 <= j < |picks| ==> 0 <= r[j] < |flags| && flags[r[j]] == 1
  {
    var indices := IndicesOf(flags, 1);
    seq(|picks|, j requires 0 <= j < |picks| => indices[picks[j] % |indices|])
  }

  /** `solve`: the drawn flags, the repair that opens station
      `repair % M` when nothing is open, then for satellite `j` the open
      station at position `picks[j] % |indices|` of the ascending list of
      open stations. */
  method Solve(p: Problem, coins: seq<bool>, repair: nat, picks: seq<nat>) returns (openFlags: seq<int>, assoc: seq<int>)
    requires p.WellFormed() && p.nMain >= 1
    requires |coins| == p.nMain && |picks| == p.nSat
    ensures openFlags == RepairedFlags(coins, repair)
    ensures assoc == DrawnAssociation(openFlags, picks)
    ensures p.Accepts(openFlags, assoc)
  {
    openFlags := CoinFlags(coins);
    if Sum(openFlags) == 0 {
      openFlags := openFlags[repair % p.nMain := 1];
    }
    assert openFlags == RepairedFlags(coins, repair);
    var indices := IndicesOf(openFlags, 1);
    assoc := seq(p.nSat, j requires 0 <= j < p.nSat => indices[picks[j] % |indices|]);
    BinarySumIsCount(openFlags);
  }

  /** Opening costs being non-negative, the random solution always has a
      finite, non-negative cost. */
  lemma RandomSolutionCostFinite(p: Problem, coins: seq<bool>, repair: nat, picks: seq<nat>)
    requires p.WellFormed() && p.nMain >= 1
    requires |coins| == p.nMain && |picks| == p.nSat
    requires forall i :: 0 <= i < p.nMain ==> p.openingCost[i] >= 0.0
    ensures var flags := RepairedFlags(coins, repair);
      var assoc := DrawnAssociation(flags, picks);
      p.Accepts(flags, assoc) &&
      p.CalculateCost(flags, assoc).Fin? && p.CalculateCost(flags, assoc).value >= 0.0
  {
    var flags := RepairedFlags(coins, repair);
    var assoc := DrawnAssociation(flags, picks);
    BinarySumIsCount(flags);
    assert p.Accepts(flags, assoc);
    AcceptedCostFinite(p, flags, assoc);
  }
}
