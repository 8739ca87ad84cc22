/** util/VenueAllocationAlgorithm.kt: a hill-climbing optimiser over whole
    allocations and the aggregate score it is meant to be used with.

    An allocation is a list of (venue id, event id) pairs. The random index
    choices of `generateNeighbor` are a parameter: `chooser(k)` is the pair of
    positions drawn in iteration `k`. */
module VenueAllocationAlgorithm {

  /** (venue id, event id) */
  type Assignment = (int, int)

  /** The defaults of `hillClimbingOptimize`'s last two parameters. */
  const DefaultMaxIterations: int := 1000
  const DefaultStagnationLimit: int := 100

  function VenueColumn(s: seq<Assignment>): (r: seq<int>)
    ensures |r| == |s| && forall i :: 0 <= i < |s| ==> r[i] == s[i].0
  {
    seq(|s|, i requires 0 <= i < |s| => s[i].0)
  }

  function EventColumn(s: seq<Assignment>): (r: seq<int>)
    ensures |r| == |s| && forall i :: 0 <= i < |s| ==> r[i] == s[i].1
  {
    seq(|s|, i requires 0 <= i < |s| => s[i].1)
  }

  // ---------------------------------------------------------------------
  // generateNeighbor

  /** A pair of positions the neighbour move may use on a list of `n`
      assignments: two different positions, unless the list is too short for
      a swap. */
  predicate ValidPick(pick: (int, int), n: int) {
    n < 2 || (0 <= pick.0 < n && 0 <= pick.1 < n && pick.0 != pick.1)
  }

  /** `r` is `s` with the venue ids at positions `i` and `j` exchanged. */
  predicate IsVenueSwap(r: seq<Assignment>, s: seq<Assignment>, i: int, j: int)
    requires 0 <= i < |s| && 0 <= j < |s|
  {
    |r| == |s| &&
    r[i] == (s[j].0, s[i].1) && r[j] == (s[i].0, s[j].1) &&
    forall k :: 0 <= k < |s| && k != i && k != j ==> r[k] == s[k]
  }

  /** `generateNeighbor` with the two random positions given as `idx1` and
      `idx2`; lists of fewer than two assignments are returned as they are. */
  method GenerateNeighbor(solution: seq<Assignment>, idx1: int, idx2: int) returns (result: seq<Assignment>)
    requires ValidPick((idx1, idx2), |solution|)
    ensures |solution| < 2 ==> result == solution
    ensures |solution| >= 2 ==> IsVenueSwap(result, solution, idx1, idx2)
  {
    if |solution| < 2 {
      return solution;
    }
    var buffer := new Assignment[|solution|](i requires 0 <= i < |solution| => solution[i]);
    var temp := buffer[idx1];
    buffer[idx1] := (buffer[idx2].0, buffer[idx1].1);
    buffer[idx2] := (temp.0, buffer[idx2].1);
    result := buffer[..];
  }

  /** A swap keeps the event column and permutes the venue column. */
  lemma SwapKeepsColumns(r: seq<Assignment>, s: seq<Assignment>, i: int, j: int)
    requires 0 <= i < |s| && 0 <= j < |s| && i != j
    requires IsVenueSwap(r, s, i, j)
    ensures EventColumn(r) == EventColumn(s)
    ensures multiset(VenueColumn(r)) == multiset(VenueColumn(s))
  {
    var vs := VenueColumn(s);
    assert VenueColumn(r) == vs[i := vs[j]][j := vs[i]];
    SwapPermutes(vs, i, j);
  }

  lemma SwapPermutes(t: seq<int>, i: int, j: int)
    requires 0 <= i < |t| && 0 <= j < |t| && i != j
    ensures multiset(t[i := t[j]][j := t[i]]) == multiset(t)
  {
    var u := t[i := t[j]];
    assert multiset(u) == multiset(t) - multiset{t[i]} + multiset{t[j]};
    assert u[j] == t[j];
    assert multiset(u[j := t[i]]) == multiset(u) - multiset{t[j]} + multiset{t[i]};
  }

  /** A concrete swap: the venues of the first and third of three
      assignments change places and the events stay put. */
  lemma GenerateNeighborExample()
    ensures IsVenueSwap([(7, 1), (8, 2), (9, 3)], [(9, 1), (8, 2), (7, 3)], 0, 2)
    ensures !IsVenueSwap([(9, 3), (8, 2), (7, 1)], [(9, 1), (8, 2), (7, 3)], 0, 2)
  {
  }

  // ---------------------------------------------------------------------
  // hillClimbingOptimize

  /** The solutions a run may visit: the initial events in place, its venues
      permuted. */
  predicate Rearranges(s: seq<Assignment>, initial: seq<Assignment>) {
    |s| == |initial| && EventColumn(s) == EventColumn(initial) &&
    multiset(VenueColumn(s)) == multiset(VenueColumn(initial))
  }

  /** `hillClimbingOptimize`. A neighbour replaces the current solution only
      when it scores strictly higher; the run stops after `maxIterations`
      iterations or `stagnationLimit` non-improving ones in a row. The ghost
      results are the number of iterations run and the final stagnation count. */
  method HillClimbingOptimize(
    initialSolution: seq<Assignment>, scoreFunction: seq<Assignment> -> real,
    maxIterations: int, stagnationLimit: int, chooser: nat -> (int, int))
    returns (bestSolution: seq<Assignment>, ghost iterationsRun: nat, ghost finalStagnation: nat)
    requires forall k: nat :: ValidPick(chooser(k), |initialSolution|)
    ensures scoreFunction(bestSolution) >= scoreFunction(initialSolution)
    ensures bestSolution == initialSolution || scoreFunction(bestSolution) > scoreFunction(initialSolution)
    ensures maxIterations <= 0 || stagnationLimit <= 0 ==> bestSolution == initialSolution
    ensures Rearranges(bestSolution, initialSolution)
    ensures iterationsRun <= if maxIterations < 0 then 0 else maxIterations
    ensures iterationsRun < maxIterations ==> finalStagnation >= stagnationLimit
  {
    var currentSolution := initialSolution;
    var currentScore := scoreFunction(currentSolution);
    bestSolution := currentSolution;
    var bestScore := currentScore;

    var iterations := 0;
    var stagnationCounter := 0;

    while iterations < maxIterations && stagnationCounter < stagnationLimit
      invariant 0 <= iterations
      invariant iterations == 0 || (iterations <= maxIterations && 0 < stagnationLimit)
      invariant iterations == 0 ==> currentSolution == initialSolution
      invariant 0 <= stagnationCounter
      invariant bestSolution == currentSolution && bestScore == currentScore
      invariant currentScore == scoreFunction(currentSolution)
      invariant currentScore >= scoreFunction(initialSolution)
      invariant currentSolution == initialSolution || currentScore > scoreFunction(initialSolution)
      invariant Rearranges(currentSolution, initialSolution)
      decreases maxIterations - iterations
    {
      var pick := chooser(iterations);
      var neighbor := GenerateNeighbor(currentSolution, pick.0, pick.1);
      if |currentSolution| >= 2 {
        SwapKeepsColumns(neighbor, currentSolution, pick.0, pick.1);
      }
      var neighborScore := scoreFunction(neighbor);

      if neighborScore > currentScore {
        currentSolution := neighbor;
        currentScore := neighborScore;
        stagnationCounter := 0;

        if currentScore > bestScore {
          bestSolution := currentSolution;
          bestScore := currentScore;
        }
      } else {
        stagnationCounter := stagnationCounter + 1;
      }

      iterations := iterations + 1;
    }
    iterationsRun, finalStagnation := iterations, stagnationCounter;
  }

  /** A call of `hillClimbingOptimize` that leaves out its last two
      arguments, so that they take their defaults. */
  method HillClimbingOptimizeWithDefaults(
    initialSolution: seq<Assignment>, scoreFunction: seq<Assignment> -> real, chooser: nat -> (int, int))
    returns (bestSolution: seq<Assignment>, ghost iterationsRun: nat, ghost finalStagnation: nat)
    requires forall k: nat :: ValidPick(chooser(k), |initialSolution|)
    ensures scoreFunction(bestSolution) >= scoreFunction(initialSolution)
    ensures bestSolution == initialSolution || scoreFunction(bestSolution) > scoreFunction(initialSolution)
    ensures Rearranges(bestSolution, initialSolution)
    ensures iterationsRun <= 1000
    ensures iterationsRun < 1000 ==> finalStagnation >= 100
  {
    bestSolution, iterationsRun, finalStagnation :=
      HillClimbingOptimize(initialSolution, scoreFunction, DefaultMaxIterations, DefaultStagnationLimit, chooser);
  }

  // ---------------------------------------------------------------------
  // scoreAllocation

  /** `map[key] ?: 0` */
  function LookupOrZero(m: map<int, int>, key: int): int {
    if key in m then m[key] else 0
  }

  /** `map[key] ?: emptyList()` */
  function LookupOrEmpty(m: map<int, seq<int>>, key: int): seq<int> {
    if key in m then m[key] else []
  }

  /** The score of one assignment: -1000 when the venue is too small, minus a
      tenth of the wasted seats otherwise, and 50 more when the event lists the
      venue among its preferences. */
  function AssignmentScore(
    a: Assignment, venueCapacities: map<int, int>, eventAttendees: map<int, int>,
    venuePreferences: map<int, seq<int>>): (r: real)
    ensures r <= 50.0
    ensures LookupOrZero(venueCapacities, a.0) < LookupOrZero(eventAttendees, a.1) ==> r <= -950.0
  {
    var capacity := LookupOrZero(venueCapacities, a.0);
    var attendees := LookupOrZero(eventAttendees, a.1);
    var fit := if capacity < attendees then -1000.0 else -((capacity - attendees) as real * 0.1);
    fit + (if a.0 in LookupOrEmpty(venuePreferences, a.1) then 50.0 else 0.0)
  }

  /** The sum of the assignment scores, from the first to the last. */
  function FitScore(
    allocation: seq<Assignment>, venueCapacities: map<int, int>, eventAttendees: map<int, int>,
    venuePreferences: map<int, seq<int>>): (r: real)
    ensures (forall k :: 0 <= k < |allocation| ==>
               LookupOrZero(venueCapacities, allocation[k].0) < LookupOrZero(eventAttendees, allocation[k].1)) ==>
      r <= -950.0 * |allocation| as real
    decreases |allocation|
  {
    if allocation == [] then 0.0
    else
      assert forall k :: 0 <= k < |allocation| - 1 ==> allocation[..|allocation| - 1][k] == allocation[k];
      FitScore(allocation[..|allocation| - 1], venueCapacities, eventAttendees, venuePreferences) +
      AssignmentScore(allocation[|allocation| - 1], venueCapacities, eventAttendees, venuePreferences)
  }

  /** Assignments `i` and `j` use the same venue and the matrix says that
      event `i` conflicts with event `j`; only the key (event i, event j) is
      consulted, and a missing key is no conflict. */
  predicate Conflicting(allocation: seq<Assignment>, i: int, j: int, conflictMatrix: map<(int, int), bool>)
    requires 0 <= i < |allocation| && 0 <= j < |allocation|
  {
    var key := (allocation[i].1, allocation[j].1);
    allocation[i].0 == allocation[j].0 && key in conflictMatrix && conflictMatrix[key]
  }

  /** The number of `j` with `i < j < upTo` conflicting with `i`. */
  function RowConflicts(allocation: seq<Assignment>, i: int, upTo: int, conflictMatrix: map<(int, int), bool>): (r: nat)
    requires 0 <= i < |allocation| && upTo <= |allocation|
    ensures r <= if upTo > i then upTo - i - 1 else 0
    decreases upTo
  {
    if upTo <= i + 1 then 0
    else RowConflicts(allocation, i, upTo - 1, conflictMatrix) +
         (if Conflicting(allocation, i, upTo - 1, conflictMatrix) then 1 else 0)
  }

  /** The number of conflicting pairs `i < j` with `i < rows`. */
  function ConflictCount(allocation: seq<Assignment>, rows: int, conflictMatrix: map<(int, int), bool>): (r: nat)
    requires rows <= |allocation|
    ensures rows >= 0 ==> 2 * r <= rows * (2 * |allocation| - rows - 1)
    decreases rows
  {
    if rows <= 0 then 0
    else
      var n := |allocation|;
      assert (rows - 1) * (2 * n - rows) + 2 * (n - rows) == rows * (2 * n - rows - 1);
      ConflictCount(allocation, rows - 1, conflictMatrix) +
      RowConflicts(allocation, rows - 1, |allocation|, conflictMatrix)
  }

  /** What `scoreAllocation` computes: the assignment scores less 2000 per
      conflicting pair. */
  function AllocationScore(
    allocation: seq<Assignment>, venueCapacities: map<int, int>, eventAttendees: map<int, int>,
    venuePreferences: map<int, seq<int>>, conflictMatrix: map<(int, int), bool>): (r: real)
    ensures r <= FitScore(allocation, venueCapacities, eventAttendees, venuePreferences)
    ensures r <= 50.0 * |allocation| as real
  {
    FitScoreAtMostFiftyEach(allocation, venueCapacities, eventAttendees, venuePreferences);
    FitScore(allocation, venueCapacities, eventAttendees, venuePreferences) -
    2000.0 * ConflictCount(allocation, |allocation|, conflictMatrix) as real
  }

  /** `scoreAllocation`: one pass over the assignments, then the nested pass
      over the pairs. */
  method ScoreAllocation(
    allocation: seq<Assignment>, venueCapacities: map<int, int>, eventAttendees: map<int, int>,
    venuePreferences: map<int, seq<int>>, conflictMatrix: map<(int, int), bool>)
    returns (score: real)
    ensures score == AllocationScore(allocation, venueCapacities, eventAttendees, venuePreferences, conflictMatrix)
  {
    score := 0.0;

    for k := 0 to |allocation|
      invariant score == FitScore(allocation[..k], venueCapacities, eventAttendees, venuePreferences)
    {
      ghost var before := score;
      var venueId := allocation[k].0;
      var eventId := allocation[k].1;
      var capacity := if venueId in venueCapacities then venueCapacities[venueId] else 0;
      var attendees := if eventId in eventAttendees then eventAttendees[eventId] else 0;

      if capacity < attendees {
        score := score - 1000.0;
      } else {
        var wastedCapacity := capacity - attendees;
        score := score - wastedCapacity as real * 0.1;
      }

      var preferences := if eventId in venuePreferences then venuePreferences[eventId] else [];
      if venueId in preferences {
        score := score + 50.0;
      }
      assert score == before + AssignmentScore(allocation[k], venueCapacities, eventAttendees, venuePreferences);
      FitScoreStep(allocation, k, venueCapacities, eventAttendees, venuePreferences);
    }
    assert allocation[..|allocation|] == allocation;
    score := PenaliseConflicts(allocation, conflictMatrix, score);
  }

  /** The nested pass of `scoreAllocation`: 2000 off `fit` for every pair
      `i < j` that `Conflicting` marks. */
  method PenaliseConflicts(allocation: seq<Assignment>, conflictMatrix: map<(int, int), bool>, fit: real)
    returns (score: real)
    ensures score == fit - 2000.0 * ConflictCount(allocation, |allocation|, conflictMatrix) as real
  {
    score := fit;
    for i := 0 to |allocation|
      invariant score == fit - 2000.0 * ConflictCount(allocation, i, conflictMatrix) as real
    {
      for j := i + 1 to |allocation|
        invariant score == fit - 2000.0 * (ConflictCount(allocation, i, conflictMatrix) +
                                           RowConflicts(allocation, i, j, conflictMatrix)) as real
      {
        var event1 := allocation[i].1;
        var event2 := allocation[j].1;
        RowConflictsStep(allocation, i, j, conflictMatrix);

        if allocation[i].0 == allocation[j].0 &&
           (event1, event2) in conflictMatrix && conflictMatrix[(event1, event2)] {
          score := score - 2000.0;
        }
      }
      ConflictCountStep(allocation, i, conflictMatrix);
    }
  }

  lemma RowConflictsStep(allocation: seq<Assignment>, i: int, j: int, conflictMatrix: map<(int, int), bool>)
    requires 0 <= i < j < |allocation|
    ensures RowConflicts(allocation, i, j + 1, conflictMatrix) ==
      RowConflicts(allocation, i, j, conflictMatrix) + (if Conflicting(allocation, i, j, conflictMatrix) then 1 else 0)
  {
  }

  lemma ConflictCountStep(allocation: seq<Assignment>, i: int, conflictMatrix: map<(int, int), bool>)
    requires 0 <= i < |allocation|
    ensures ConflictCount(allocation, i + 1, conflictMatrix) ==
      ConflictCount(allocation, i, conflictMatrix) + RowConflicts(allocation, i, |allocation|, conflictMatrix)
  {
  }

  lemma FitScoreStep(
    allocation: seq<Assignment>, k: int, venueCapacities: map<int, int>, eventAttendees: map<int, int>,
    venuePreferences: map<int, seq<int>>)
    requires 0 <= k < |allocation|
    ensures FitScore(allocation[..k + 1], venueCapacities, eventAttendees, venuePreferences) ==
      FitScore(allocation[..k], venueCapacities, eventAttendees, venuePreferences) +
      AssignmentScore(allocation[k], venueCapacities, eventAttendees, venuePreferences)
  {
    assert allocation[..k + 1][..k] == allocation[..k];
  }

  /** An empty allocation scores 0. */
  lemma EmptyAllocationScoresZero(
    venueCapacities: map<int, int>, eventAttendees: map<int, int>,
    venuePreferences: map<int, seq<int>>, conflictMatrix: map<(int, int), bool>)
    ensures AllocationScore([], venueCapacities, eventAttendees, venuePreferences, conflictMatrix) == 0.0
  {
  }

  /** The assignments together score at most 50 each. */
  lemma {:induction false} FitScoreAtMostFiftyEach(
    allocation: seq<Assignment>, venueCapacities: map<int, int>, eventAttendees: map<int, int>,
    venuePreferences: map<int, seq<int>>)
    ensures FitScore(allocation, venueCapacities, eventAttendees, venuePreferences) <= 50.0 * |allocation| as real
    decreases |allocation|
  {
    if allocation != [] {
      FitScoreAtMostFiftyEach(allocation[..|allocation| - 1], venueCapacities, eventAttendees, venuePreferences);
    }
  }

  lemma {:induction false} RowConflictsZeroIff(
    allocation: seq<Assignment>, i: int, upTo: int, conflictMatrix: map<(int, int), bool>)
    requires 0 <= i < |allocation| && upTo <= |allocation|
    ensures RowConflicts(allocation, i, upTo, conflictMatrix) == 0 <==>
      forall j :: i < j < upTo ==> !Conflicting(allocation, i, j, conflictMatrix)
    decreases upTo
  {
    if upTo > i + 1 {
      RowConflictsZeroIff(allocation, i, upTo - 1, conflictMatrix);
    }
  }

  /** No pair is penalised exactly when no two assignments at the same
      venue have a conflict entry (event i, event j) set to true. */
  lemma {:induction false} ConflictFreeIff(allocation: seq<Assignment>, rows: int, conflictMatrix: map<(int, int), bool>)
    requires 0 <= rows <= |allocation|
    ensures ConflictCount(allocation, rows, conflictMatrix) == 0 <==>
      forall i, j :: 0 <= i < rows && i < j < |allocation| ==> !Conflicting(allocation, i, j, conflictMatrix)
    decreases rows
  {
    if rows > 0 {
      ConflictFreeIff(allocation, rows - 1, conflictMatrix);
      RowConflictsZeroIff(allocation, rows - 1, |allocation|, conflictMatrix);
    }
  }

  /** A conflict-free allocation scores what its assignments score, and any
      conflict costs at least 2000. */
  lemma ConflictPenalty(
    allocation: seq<Assignment>, venueCapacities: map<int, int>, eventAttendees: map<int, int>,
    venuePreferences: map<int, seq<int>>, conflictMatrix: map<(int, int), bool>)
    ensures var total := AllocationScore(allocation, venueCapacities, eventAttendees, venuePreferences, conflictMatrix);
      var fit := FitScore(allocation, venueCapacities, eventAttendees, venuePreferences);
      ((forall i, j :: 0 <= i < j < |allocation| ==> !Conflicting(allocation, i, j, conflictMatrix)) <==> total == fit) &&
      (total != fit ==> total <= fit - 2000.0)
  {
    ConflictFreeIff(allocation, |allocation|, conflictMatrix);
  }

  /** Only the ordered key is consulted: two events at venue 1, with the
      matrix entry written for (second, first), cost nothing, while the entry
      for (first, second) costs 2000. */
  lemma ConflictKeyIsOrdered()
    ensures ConflictCount([(1, 10), (1, 20)], 2, map[(20, 10) := true]) == 0
    ensures ConflictCount([(1, 10), (1, 20)], 2, map[(10, 20) := true]) == 1
  {
    assert !Conflicting([(1, 10), (1, 20)], 0, 1, map[(20, 10) := true]);
    assert Conflicting([(1, 10), (1, 20)], 0, 1, map[(10, 20) := true]);
  }
}
