# Local search for the uncapacitated facility-location problem

A Dafny model of a solver for the uncapacitated facility-location problem.
An instance has `M` main stations, each with an opening cost, and `S` satellite
stations, with an `M × S` matrix of connection costs. A solution says which main
stations are open (a list of 0/1 flags) and which open station each satellite
is associated with. Its cost is the opening cost of the open stations plus the
connection cost of every association.

The model covers three parts of the repository:

- the instance, `calculate_cost`, the two cost getters and `solution_checker`
  (`RechercheLocale/uflp.py`, module `Uflp`, with the list built-ins in
  `OpenSet`);
- the local-search solver (`RechercheLocale/solver.py`):
  - the nearest-station assignment (`Nearest`);
  - solutions and their cost (`Solutions`);
  - the single-flip neighbourhood (`Neighbours`);
  - the hill-climbing loop (`HillClimbing`);
  - the three seed builders (`Seeds`);
  - the multi-start driver `solve` (`Solver`);
- the random baseline (`RechercheLocale/random_solver.py`, module `RandomSolver`).

Each loop of the source is a method. Most methods are proved equal to a
specification function:

| method | specification function |
|---|---|
| `AssignNearestMains` | `NearestAssignment` |
| `FlipEach` / `CreateNeighbours` | `Flips` / `Neighbourhood` |
| `ImproveOnce` | `Step`, one pass `Pass` over the neighbourhood |
| `LocalSearch` | `Search` |

The rest are proved to satisfy a specification predicate:
- `ArgMin` and `CheapestClosed`: the first least entry;
- `CheapSolution1` and `CheapSolution2`: `IsCheapSolution1` and `IsCheapSolution2`. `IsCheapSolution2` allows any tie order of the opening-cost sort;
- `RandomStarts`, `MultiStart` and `Solve`: `IsFirstCheapest` over the record of searches.

The properties the solver relies on are lemmas about those functions:
- every neighbour is feasible;
- a pass never makes the held cost worse;
- a pass ends on the first cheapest neighbour;
- the neighbourhood is connected;
- unless all `n` passes improved, the search stops at a local optimum;
- `solve` keeps the first cheapest result.

Costs are `Inf | Fin(real)`. `Inf` is the `math.inf` returned when nothing is open, and `Less` is Python's `<` on such values.

Randomness comes in as explicit inputs:
- a coin per station for each random open-set;
- for each `random.choice` over a list of length `L`, a natural number `d` that selects the entry at `d % L`.

## Model

| member | source | states |
|---|---|---|
| `OpenSet.Count` | RechercheLocale/solver.py:134 | `list.count(v)` is at most the length, and is zero exactly when no position holds `v` |
| `OpenSet.IndicesOf` | RechercheLocale/random_solver.py:26 | the comprehension lists as many positions as hold the value, and each listed position holds it |
| `OpenSet.IndicesOfComplete` | RechercheLocale/random_solver.py:26 | every position holding the value is listed |
| `OpenSet.IndicesOfAscending` | RechercheLocale/random_solver.py:26 | the positions are listed in strictly ascending order |
| `OpenSet.BinarySumIsCount` | RechercheLocale/uflp.py:64 | on a 0/1 open-set, `sum` is the number of ones, and zeros plus ones account for every station |
| `OpenSet.CountUpdate` | RechercheLocale/solver.py:137-138 | writing one flag changes the count of a value by exactly the entry removed and the entry written |
| `Uflp.Problem.GetOpeningCost` | RechercheLocale/uflp.py:78 | returns the stored opening cost of the station |
| `Uflp.Problem.GetAssociationCost` | RechercheLocale/uflp.py:90 | returns the stored matrix entry, which is non-negative on a well-formed instance (the matrix shape of line 34) |
| `Uflp.Problem.CalculateCost` | RechercheLocale/uflp.py:64-67 | the cost is infinite exactly when the flags sum to zero |
| `Uflp.CostOverOpenStations` | RechercheLocale/uflp.py:65-67 | on a 0/1 open-set the finite cost is the opening cost summed over exactly the open stations plus the matrix entry of every association |
| `Uflp.OpeningSumOverOpen` | RechercheLocale/uflp.py:65 | the flag-weighted opening sum over the first `n` stations equals the sum over the open ones among them |
| `Uflp.OpeningSumNonNegative` | RechercheLocale/uflp.py:65 | with non-negative flags and opening costs, the opening part is non-negative |
| `Uflp.DistanceSumNonNegative` | RechercheLocale/uflp.py:66 | the connection part is non-negative, the entries being distances |
| `Uflp.CostNonNegative` | RechercheLocale/uflp.py:64-67 | with non-negative opening costs and flags, a finite cost is non-negative |
| `Uflp.DistanceSumMonotone` | RechercheLocale/uflp.py:66 | pointwise cheaper associations give a connection part no larger |
| `Uflp.Problem.SolutionChecker` | RechercheLocale/uflp.py:139-167 | returns true exactly when the lengths are `M` and `S`, the flags do not sum to zero, every association is in `0..M-1` on an open station and every flag is 0 or 1 |
| `Uflp.AcceptedCostFinite` | RechercheLocale/uflp.py:64-67 | a solution the checker accepts has a finite cost, non-negative when opening costs are |
| `Nearest.NearestUnique` | RechercheLocale/solver.py:164-166 | the tie rule (strict `<`, lowest index first) determines a unique nearest station |
| `Nearest.NearestFrom` | RechercheLocale/solver.py:156-166 | `None` exactly when no station is open, otherwise an open station no dearer than any open one and strictly cheaper than every open one before it |
| `Nearest.NearestAssignment` | RechercheLocale/solver.py:153-169 | one entry per satellite, each the nearest open station of that satellite |
| `Nearest.AssignNearestMains` | RechercheLocale/solver.py:151-169 | one entry per satellite; `None` exactly when nothing is open, otherwise the first cheapest open station; equal to `NearestAssignment` |
| `Nearest.NearestIsCheapest` | RechercheLocale/solver.py:160-166 | the nearest assignment has a connection cost no larger than any association to open stations |
| `Solutions.SolutionCost` | RechercheLocale/solver.py:72 | the cost of a solver solution is infinite exactly when no station is open |
| `Solutions.SolutionCostIsCalculated` | RechercheLocale/uflp.py:64-67 | the solver's cost of a solution is what `calculate_cost` returns on its flags and association list |
| `Solutions.OpenSolutionAccepted` | RechercheLocale/uflp.py:139-167 | a solver solution with an open station passes `solution_checker` |
| `Solutions.NearestShaped` | RechercheLocale/solver.py:151-169 | a 0/1 open-set with its nearest assignment is a well-shaped solution |
| `Solutions.NearestSolutionIsCheapest` | RechercheLocale/solver.py:151-169 | for a fixed open-set, the nearest assignment costs no more than any association the checker accepts |
| `Neighbours.Flips` | RechercheLocale/solver.py:135-140 | one candidate per listed station, in list order, each that station flipped with satellites reassigned |
| `Neighbours.FlipEach` | RechercheLocale/solver.py:135-140 | the loop over the stations holding a value produces exactly `Flips` over those stations in index order |
| `Neighbours.CreateNeighbours` | RechercheLocale/solver.py:127-149 | the generated list is the neighbourhood: opening moves unless all are open, then closing moves if more than one is open |
| `Neighbours.NeighbourhoodSize` | RechercheLocale/solver.py:134-148 | with `k` open there are `(M - k) + (k if k > 1 else 0)` neighbours |
| `Neighbours.NeighbourAt` | RechercheLocale/solver.py:134-148 | neighbour `n` flips the `n`-th closed station open while `n` is below the number of opening moves, otherwise an open station closed, in index order |
| `Neighbours.NeighboursDifferInOne` | RechercheLocale/solver.py:137-138 | every neighbour differs from the current flags at exactly one station |
| `Neighbours.NeighbourCount` | RechercheLocale/solver.py:134-148 | an opening move has `k + 1` stations open, a closing move `k - 1` |
| `Neighbours.NeighbourShaped` | RechercheLocale/solver.py:139 | every neighbour is a well-shaped solution |
| `Neighbours.NeighboursFeasible` | RechercheLocale/solver.py:134-148 | every neighbour is well-shaped and keeps at least one station open, for any `k` including 0 |
| `Neighbours.NeighboursAscending` | RechercheLocale/solver.py:135-136 | within each group of moves the flipped stations come in ascending index order |
| `Neighbours.OpeningMoveAt` | RechercheLocale/solver.py:134-140 | opening any closed station is a move of the neighbourhood |
| `Neighbours.ClosingMoveAt` | RechercheLocale/solver.py:142-148 | closing an open station is a move of the neighbourhood when more than one station is open |
| `Neighbours.NeighbourTowards` | RechercheLocale/solver.py:134-148 | towards any open-set with a station open, some neighbour is one flag closer |
| `Neighbours.NeighbourhoodConnected` | RechercheLocale/solver.py:10 | the neighbourhood is connected: from any 0/1 open-set, a chain of neighbours reaches any open-set with a station open, in as many moves as they differ in flags |
| `HillClimbing.Pass` | RechercheLocale/solver.py:79-84 | one walk over the neighbours keeps a well-shaped solution |
| `HillClimbing.PassNoWorse` | RechercheLocale/solver.py:79-84 | a pass ends no dearer than it started, and where it started unless strictly cheaper |
| `HillClimbing.PassBelowAll` | RechercheLocale/solver.py:79-84 | the pass result costs no more than any neighbour walked |
| `HillClimbing.PassFirstCheapest` | RechercheLocale/solver.py:79-84 | a pass that improves ends on a neighbour strictly cheaper than all neighbours before it, the first minimum-cost neighbour |
| `HillClimbing.NeighboursShaped` | RechercheLocale/solver.py:77 | all neighbours of a solver solution are well-shaped |
| `HillClimbing.Step` | RechercheLocale/solver.py:75-84 | one outer iteration is never dearer than its start, and returns the start unless strictly cheaper |
| `HillClimbing.StepStopsAtLocalOptimum` | RechercheLocale/solver.py:79-87 | a pass finds nothing strictly cheaper exactly when the held solution is a local optimum |
| `HillClimbing.Search` | RechercheLocale/solver.py:74-88 | at most `n` passes, stopping at the first pass with no strictly cheaper neighbour, yield a well-shaped solution |
| `HillClimbing.SearchNoWorse` | RechercheLocale/solver.py:74-88 | the returned cost is no more than the initial cost |
| `HillClimbing.SearchDeeperNoWorse` | RechercheLocale/solver.py:74 | one more pass of depth never makes the result dearer |
| `HillClimbing.SearchFromLocalOptimum` | RechercheLocale/solver.py:74-87 | a local optimum is returned unchanged, and from any other solution a search of depth at least one ends strictly cheaper |
| `HillClimbing.FirstPassDecides` | RechercheLocale/solver.py:85-87 | the first pass decides whether the search moves at all |
| `HillClimbing.Improvements` | RechercheLocale/solver.py:74-87 | the number of improving passes is at most the depth |
| `HillClimbing.SearchEndsStuck` | RechercheLocale/solver.py:85-87 | unless every pass improved, a further pass from the result finds nothing strictly cheaper |
| `HillClimbing.SearchEndsAtLocalOptimum` | RechercheLocale/solver.py:74-87 | the search either spends all `n` passes improving or ends at a local optimum |
| `HillClimbing.ImproveOnce` | RechercheLocale/solver.py:75-84 | the body of the outer loop computes `Step`, its cost, and whether it is strictly cheaper than the start |
| `HillClimbing.LocalSearch` | RechercheLocale/solver.py:63-88 | the loop returns `Search` of the initial solution, well-shaped and no dearer than it |
| `Seeds.FirstMinUnique` | RechercheLocale/solver.py:95 | the first minimum `np.argmin` returns is unique |
| `Seeds.ArgMin` | RechercheLocale/solver.py:95 | `np.argmin` returns the first index of least value |
| `Seeds.SingleStationShaped` | RechercheLocale/solver.py:93-98 | the single-station solution is well-shaped with exactly one station open |
| `Seeds.CheapSolution1` | RechercheLocale/solver.py:90-99 | opens exactly the first station of least opening cost and assigns every satellite to it |
| `Seeds.CheapestClosed` | RechercheLocale/solver.py:107-110 | the next station of the opening-cost order is a closed station of least cost, the first such |
| `Seeds.CheapSolution2` | RechercheLocale/solver.py:101-114 | opens exactly `max(1, M // 4)` stations, none costing more than a closed one, with the nearest assignment |
| `OpenSet.CoinFlags` | RechercheLocale/random_solver.py:19 | one 0/1 flag per coin, set exactly when the coin says so (also the draw of solver.py:121) |
| `Seeds.RandomSolution` | RechercheLocale/solver.py:116-125 | station `i` is open exactly when its coin says so, with the nearest assignment (all `None` when nothing is open) |
| `Solver.KeepFirstCheapest` | RechercheLocale/solver.py:58-60 | replacing the best only on a strictly cheaper result keeps the first cheapest of all results |
| `Solver.NoDearerThanSeeds` | RechercheLocale/solver.py:43-60 | the kept result is no dearer than any seed |
| `Solver.KeptIsAccepted` | RechercheLocale/solver.py:43-61 | the kept result is no dearer than any seed and passes `solution_checker` |
| `Solver.SingleRunCheapest` | RechercheLocale/solver.py:43-44 | after the first search, the held `sol` is the first cheapest of the results so far |
| `Solver.StartFrom` | RechercheLocale/solver.py:55-60 | one more search from a seed, whose result replaces the best only when strictly cheaper |
| `Solver.CheapStarts` | RechercheLocale/solver.py:43-51 | depth-15 searches from the two cheap seeds, keeping the first cheapest result |
| `Solver.RandomStart` | RechercheLocale/solver.py:55-60 | one random restart: a seed drawn with its coins and a search from it |
| `Solver.RandomStarts` | RechercheLocale/solver.py:53-60 | one search per coin list from its random seed, keeping the first cheapest of all results |
| `Solver.MultiStart` | RechercheLocale/solver.py:26-61 | the result is the first cheapest of the two cheap-seed searches and the random-seed searches, no dearer than any seed, and accepted by the checker |
| `Solver.Solve` | RechercheLocale/solver.py:26-61 | `MultiStart` with 25 random restarts of depth 40 after the two seeded searches of depth 15 |
| `RandomSolver.RepairedFlags` | RechercheLocale/random_solver.py:19-23 | one 0/1 flag per station with at least one open; a coin's station stays open, and the repair opens the single drawn station only when the coins opened none |
| `RandomSolver.DrawnAssociation` | RechercheLocale/random_solver.py:26-27 | one entry per satellite, each an open station |
| `RandomSolver.Solve` | RechercheLocale/random_solver.py:5-29 | returns the repaired flags and the drawn association, which `solution_checker` accepts |
| `RandomSolver.RandomSolutionCostFinite` | RechercheLocale/random_solver.py:19-29 | the random solution is accepted and has a finite cost, non-negative when opening costs are |

## Left out

- `load_instance` (file reading and text parsing) and `coordinates_to_cost` (a floating-point square root) are not modelled. The instance is a given `Problem` whose matrix has `M` rows of `S` non-negative entries, the shape `load_instance` builds. `assign_nearest_mains` compares `coordinates_to_cost` values, which are exactly these matrix entries.
- Floating point: costs are mathematical reals. Rounding in the sums is not modelled, and neither is NaN.
- `show_solution` (plotting) and the `print` calls of `solution_checker` are not modelled. The checker's boolean result is kept.
- `autograder.py` and `main.py` (run harness, timing, argument parsing) are not part of this model.
- Random sources (`np.random.randint`, `random.choice`) are inputs. Their distribution is not modelled: coins for the flags, and a natural number `d` standing for entry `d % L` of a choice over `L` items.
- `Seeds.CheapSolution2`: `np.argsort` with its default, unstable sort may order stations of equal opening cost either way. The model takes the lowest index first. Its contract states only what holds for every tie order: the number opened, and no open station dearer than a closed one.
- `HillClimbing.LocalSearch` takes the already built initial solution. The source takes the builder function and calls it first; `Solver` calls the builders before the search.
- `Solver.Solve`, `Seeds.CheapSolution1` and `RandomSolver.Solve` require `M >= 1`. With no main station, the source's `np.argmin` and `random.choice(range(0))` raise an exception.
- `Uflp.Problem.CalculateCost` requires associations within the matrix when something is open. The source would raise, or index from the end for a negative association, when the list is malformed. The cost of an out-of-range association is not modelled.
- Solutions are values. The copy `create_neighbours` takes before writing a flag is a sequence update, so the current solution stays unchanged by construction. Aliasing of numpy arrays and Python lists is not modelled.
- numpy `int32` arrays are sequences of unbounded integers. The flags and indices stay far below the 32-bit range.
