/** The earlier matchmaker at the repository root (matchmaker.py): the same
    candidate pairs and assignment constraints as the newer one, an
    objective without the soft-constraint penalty, one pairability bound per
    upper-triangle index pair, and the counting done after solving. */
module LegacyMatchMaker {
  import opened Wrappers
  import opened Seqs
  import opened MatchTracking
  import opened MatchMaking
  import opened LegacyPerson

  /** The index pairs `(idx, idx2)` with `idx <= idx2`, rows `0 .. m-1`, in the
      order of the nested `enumerate` loops. */
  function TriangleRows(m: nat, n: nat): seq<Key>
  {
    if m == 0 then [] else TriangleRows(m - 1, n) + Row(m - 1, m - 1, n)
  }

  /** All the index pairs the pairability loop visits with `idx <= idx2`. */
  function UpperTriangle(n: nat): seq<Key>
  {
    TriangleRows(n, n)
  }

  lemma {:induction false} RowMembership(i: int, j: int, n: int, key: Key)
    ensures key in Row(i, j, n) <==> key.0 == i && j <= key.1 < n
    decreases n - j
  {
    if j < n {
      RowMembership(i, j + 1, n, key);
    }
  }

  lemma {:induction false} TriangleRowsMembership(m: nat, n: nat, key: Key)
    ensures key in TriangleRows(m, n) <==> 0 <= key.0 < m && key.0 <= key.1 < n
  {
    if m > 0 {
      TriangleRowsMembership(m - 1, n, key);
      RowMembership(m - 1, m - 1, n, key);
      assert key in TriangleRows(m, n) <==> key in TriangleRows(m - 1, n) || key in Row(m - 1, m - 1, n);
    }
  }

  lemma {:induction false} TriangleRowsLength(m: nat, n: nat)
    requires m <= n
    ensures 2 * |TriangleRows(m, n)| == m * (2 * n - m + 1)
  {
    if m > 0 {
      TriangleRowsLength(m - 1, n);
      RowShape(m - 1, m - 1, n);
      assert |TriangleRows(m, n)| == |TriangleRows(m - 1, n)| + (n - m + 1);
      TriangleStep(m, n);
    }
  }

  /** The closed form grows by two rows' worth of pairs per row. */
  lemma TriangleStep(m: int, n: int)
    ensures m * (2 * n - m + 1) == (m - 1) * (2 * n - (m - 1) + 1) + 2 * (n - m + 1)
  {
  }

  /** Every pair of the first `m` rows precedes every pair of row `m`. */
  lemma TriangleRowsBelowRow(m: nat, n: nat)
    ensures forall x, y :: 0 <= x < |TriangleRows(m, n)| && 0 <= y < |Row(m, m, n)| ==>
      LexLess(TriangleRows(m, n)[x], Row(m, m, n)[y])
  {
    var rows, row := TriangleRows(m, n), Row(m, m, n);
    RowShape(m, m, n);
    forall x, y | 0 <= x < |rows| && 0 <= y < |row| ensures LexLess(rows[x], row[y]) {
      assert rows[x] in rows;
      TriangleRowsMembership(m, n, rows[x]);
    }
  }

  lemma {:induction false} TriangleRowsIncreasing(m: nat, n: nat)
    ensures StrictlyIncreasing(TriangleRows(m, n))
  {
    if m > 0 {
      TriangleRowsIncreasing(m - 1, n);
      RowIncreasing(m - 1, m - 1, n);
      TriangleRowsBelowRow(m - 1, n);
      ConcatIncreasing(TriangleRows(m - 1, n), Row(m - 1, m - 1, n));
    }
  }

  /** The pairability loop visits the same keys as the candidate list, so
      every `variables[(idx, idx2)]` it looks up exists. */
  lemma UpperTriangleKeys(n: nat)
    ensures forall key :: key in UpperTriangle(n) <==> 0 <= key.0 <= key.1 < n
    ensures forall key :: key in UpperTriangle(n) <==> key in Candidates(n)
  {
    forall key: Key ensures key in UpperTriangle(n) <==> 0 <= key.0 <= key.1 < n {
      TriangleRowsMembership(n, n, key);
    }
    CandidatesShape(n);
  }

  /** It visits each of them once, `n(n+1)/2` in all, in row-major order. */
  lemma UpperTriangleOnce(n: nat)
    ensures 2 * |UpperTriangle(n)| == n * (n + 1)
    ensures StrictlyIncreasing(UpperTriangle(n)) && Distinct(UpperTriangle(n))
  {
    TriangleRowsLength(n, n);
    TriangleRowsIncreasing(n, n);
  }

  /** `_create_match_variables`: the 2-combinations with two distinct
      members, then `+=` the self-pairs; one variable per key. */
  method CreateMatchVariables(n: nat) returns (possibleMatches: seq<Key>)
    ensures possibleMatches == Candidates(n)
    ensures forall key :: key in possibleMatches <==> 0 <= key.0 <= key.1 < n
    ensures |possibleMatches| == n * (n - 1) / 2 + n
  {
    possibleMatches := KeepDistinctPairs(AllCombinations(n));
    possibleMatches := possibleMatches + SelfPairs(n);
    RealPairsFromAllCombinations(n);
    CandidatesShape(n);
  }

  /** The similarity of each candidate pair, 0 off the participants. */
  function SimilarityOf(persons: seq<LegacyPerson.Person>, cosine: Persons.CosineDistance): Key -> real
  {
    (key: Key) =>
      if 0 <= key.0 < |persons| && 0 <= key.1 < |persons|
      then MatrixSimilarity(persons[key.0], persons[key.1], cosine)
      else 0.0
  }

  /** What the legacy `_initialse_problem` assembles: one `variable *
      matrix_similarity` term per candidate; one assignment constraint per
      participant; then one bound per upper-triangle pair, each at most
      `is_pairable`. */
  ghost predicate IsLegacyModel(prob: LpProblem, persons: seq<LegacyPerson.Person>, cosine: Persons.CosineDistance)
  {
    var n := |persons|;
    var c := Candidates(n);
    var t := UpperTriangle(n);
    && (forall k :: 0 <= k < |c| ==> 0 <= c[k].0 <= c[k].1 < n)
    && (forall k :: 0 <= k < |t| ==> 0 <= t[k].0 <= t[k].1 < n)
    && |prob.objective| == |c|
    && (forall k :: 0 <= k < |c| ==>
          prob.objective[k] == Term(c[k], MatrixSimilarity(persons[c[k].0], persons[c[k].1], cosine)))
    && |prob.constraints| == n + |t|
    && (forall idx :: 0 <= idx < n ==> prob.constraints[idx] == SumEquals(Filter(c, Touches(idx)), 1))
    && (forall k :: 0 <= k < |t| ==>
          prob.constraints[n + k] == AtMost(t[k], BoolToInt(IsPairable(persons[t[k].0], persons[t[k].1]))))
  }

  /** The objective part: `variables[(idx1, idx2)] * matrix_similarity`. */
  method ObjectiveTerms(persons: seq<LegacyPerson.Person>, possibleMatches: seq<Key>, cosine: Persons.CosineDistance)
    returns (r: seq<Term>)
    requires possibleMatches == Candidates(|persons|)
    ensures |r| == |possibleMatches|
    ensures forall k :: 0 <= k < |r| ==>
      && r[k].variable == possibleMatches[k]
      && r[k].coefficient == SimilarityOf(persons, cosine)(possibleMatches[k])
      && (possibleMatches[k].0 == possibleMatches[k].1 ==> r[k].coefficient == 0.0)
  {
    CandidatesInRange(|persons|);
    r := [];
    var i := 0;
    while i < |possibleMatches|
      invariant 0 <= i <= |possibleMatches|
      invariant |r| == i
      invariant forall k :: 0 <= k < i ==>
        r[k] == Term(possibleMatches[k], MatrixSimilarity(persons[possibleMatches[k].0], persons[possibleMatches[k].1], cosine))
    {
      var (idx1, idx2) := possibleMatches[i];
      r := r + [Term((idx1, idx2), MatrixSimilarity(persons[idx1], persons[idx2], cosine))];
      i := i + 1;
    }
  }

  /** The assignment part: for each participant, the nested loop collects the
      variables whose key contains its index, and their sum must be 1. */
  method AssignmentConstraints(persons: seq<LegacyPerson.Person>, possibleMatches: seq<Key>)
    returns (r: seq<LpConstraint>)
    requires possibleMatches == Candidates(|persons|)
    ensures |r| == |persons|
    ensures forall idx :: 0 <= idx < |r| ==> r[idx] == SumEquals(Filter(possibleMatches, Touches(idx)), 1)
    ensures forall idx :: 0 <= idx < |r| ==> |r[idx].variables| == |persons|
  {
    r := [];
    var idx := 0;
    while idx < |persons|
      invariant 0 <= idx <= |persons|
      invariant |r| == idx
      invariant forall j :: 0 <= j < idx ==> r[j] == SumEquals(Filter(possibleMatches, Touches(j)), 1)
    {
      var bMatchesForPerson := MatchesForPerson(possibleMatches, idx);
      r := r + [SumEquals(bMatchesForPerson, 1)];
      idx := idx + 1;
    }
    forall idx | 0 <= idx < |r| ensures |r[idx].variables| == |persons| {
      VariablesForPersonShape(|persons|, idx);
    }
  }

  /** The inner loop of the assignment part: `if idx in possible_match`. */
  method MatchesForPerson(possibleMatches: seq<Key>, idx: int) returns (b: seq<Key>)
    ensures b == Filter(possibleMatches, Touches(idx))
  {
    b := [];
    var j := 0;
    while j < |possibleMatches|
      invariant 0 <= j <= |possibleMatches|
      invariant b == Filter(possibleMatches[..j], Touches(idx))
    {
      var possibleMatch := possibleMatches[j];
      FilterSnoc(possibleMatches[..j], possibleMatch, Touches(idx));
      assert possibleMatches[..j + 1] == possibleMatches[..j] + [possibleMatch];
      if idx == possibleMatch.0 || idx == possibleMatch.1 {
        b := b + [possibleMatch];
      }
      j := j + 1;
    }
    assert possibleMatches[..j] == possibleMatches;
  }

  /** The pairability part: for every `idx <= idx2`, in loop order, the
      variable is at most `is_pairable`, which is 1 for every pair. */
  method PairabilityConstraints(persons: seq<LegacyPerson.Person>) returns (r: seq<LpConstraint>)
    ensures |r| == |UpperTriangle(|persons|)|
    ensures forall k :: 0 <= k < |r| ==>
      var key := UpperTriangle(|persons|)[k];
      0 <= key.0 <= key.1 < |persons| &&
      r[k] == AtMost(key, BoolToInt(IsPairable(persons[key.0], persons[key.1])))
    ensures forall k :: 0 <= k < |r| ==> r[k] == AtMost(UpperTriangle(|persons|)[k], 1)
  {
    var n := |persons|;
    r := [];
    ghost var keys: seq<Key> := [];
    var idx := 0;
    while idx < n
      invariant 0 <= idx <= n
      invariant keys == TriangleRows(idx, n)
      invariant |r| == |keys|
      invariant forall k :: 0 <= k < |keys| ==> 0 <= keys[k].0 <= keys[k].1 < n
      invariant forall k :: 0 <= k < |r| ==>
        r[k] == AtMost(keys[k], BoolToInt(IsPairable(persons[keys[k].0], persons[keys[k].1])))
    {
      var row;
      row := PairabilityRow(persons, idx);
      RowShape(idx, idx, n);
      r := r + row;
      keys := keys + Row(idx, idx, n);
      idx := idx + 1;
    }
  }

  /** The inner loop of the pairability part, for one `idx`: the bounds of
      `(idx, idx)` up to `(idx, n - 1)`. */
  method PairabilityRow(persons: seq<LegacyPerson.Person>, idx: int) returns (r: seq<LpConstraint>)
    requires 0 <= idx < |persons|
    ensures |r| == |persons| - idx
    ensures forall k :: 0 <= k < |r| ==>
      r[k] == AtMost((idx, idx + k), BoolToInt(IsPairable(persons[idx], persons[idx + k])))
  {
    var n := |persons|;
    r := [];
    var idx2 := 0;
    while idx2 < n
      invariant 0 <= idx2 <= n
      invariant |r| == if idx2 <= idx then 0 else idx2 - idx
      invariant forall k :: 0 <= k < |r| ==>
        r[k] == AtMost((idx, idx + k), BoolToInt(IsPairable(persons[idx], persons[idx + k])))
    {
      if idx <= idx2 {
        r := r + [AtMost((idx, idx2), BoolToInt(IsPairable(persons[idx], persons[idx2])))];
      }
      idx2 := idx2 + 1;
    }
  }

  /** `_initialse_problem`, without writing the LP file: the objective, the
      assignment constraints, then the pairability constraints. It cannot
      fail: `matrix_similarity` asserts nothing. */
  method InitialiseProblem(persons: seq<LegacyPerson.Person>, possibleMatches: seq<Key>, cosine: Persons.CosineDistance)
    returns (prob: LpProblem)
    requires possibleMatches == Candidates(|persons|)
    ensures IsLegacyModel(prob, persons, cosine)
  {
    var objective := ObjectiveTerms(persons, possibleMatches, cosine);
    var assignment := AssignmentConstraints(persons, possibleMatches);
    var pairability := PairabilityConstraints(persons);
    prob := LpProblem(objective, assignment + pairability);
    CandidatesShape(|persons|);
    assert forall k :: 0 <= k < |pairability| ==> prob.constraints[|assignment| + k] == pairability[k];
  }

  /** Every pairability bound is 1, so under a 0/1 valuation those
      constraints exclude nothing: the problem's constraints are met exactly
      when the assignment constraints are. */
  lemma BoundsExcludeNothing(prob: LpProblem, persons: seq<LegacyPerson.Person>, cosine: Persons.CosineDistance, value: Valuation)
    requires IsLegacyModel(prob, persons, cosine)
    requires Binary(Candidates(|persons|), value)
    ensures Satisfies(prob, value) <==>
      forall idx :: 0 <= idx < |persons| ==> ConstraintHolds(prob.constraints[idx], value)
  {
    var n, t := |persons|, UpperTriangle(|persons|);
    forall k | n <= k < |prob.constraints| ensures ConstraintHolds(prob.constraints[k], value) {
      var key := t[k - n];
      assert prob.constraints[k] == AtMost(key, 1);
      BinaryAtMostOne(n, value, key);
    }
  }

  /** A candidate's value under a 0/1 valuation is at most 1. */
  lemma BinaryAtMostOne(n: nat, value: Valuation, key: Key)
    requires Binary(Candidates(n), value)
    requires 0 <= key.0 <= key.1 < n
    ensures value(key) <= 1.0
  {
    CandidatesShape(n);
    var c := Candidates(n);
    assert key in c;
    var j :| 0 <= j < |c| && c[j] == key;
  }

  /** Whatever two participants seek and whichever days they chose, the
      legacy problem bounds the variable of their pair by 1. */
  lemma AnyPairPermitted(prob: LpProblem, persons: seq<LegacyPerson.Person>, cosine: Persons.CosineDistance, i: int, j: int)
    requires IsLegacyModel(prob, persons, cosine)
    requires 0 <= i <= j < |persons|
    ensures exists k :: |persons| <= k < |prob.constraints| && prob.constraints[k] == AtMost((i, j), 1)
  {
    var n, t := |persons|, UpperTriangle(|persons|);
    TriangleRowsMembership(n, n, (i, j));
    var k :| 0 <= k < |t| && t[k] == (i, j);
    assert prob.constraints[n + k] == AtMost((i, j), 1);
  }

  /** Under a 0/1 valuation the objective is the sum of the similarities of
      the selected real pairs; the self-pairs add nothing. */
  lemma ObjectiveValueIsSimilaritySum(prob: LpProblem, persons: seq<LegacyPerson.Person>, cosine: Persons.CosineDistance,
                                      value: Valuation)
    requires IsLegacyModel(prob, persons, cosine)
    requires Binary(Candidates(|persons|), value)
    ensures ObjectiveValue(prob.objective, value) ==
      ScoreSum(Filter(SelectedPairs(|persons|, value), IsRealPair()), SimilarityOf(persons, cosine))
  {
    ObjectiveAsScoreSum(prob.objective, Candidates(|persons|), SimilarityOf(persons, cosine), value);
  }

  /** The mean the legacy `solve` logs, when the reported objective value is
      that of the solved 0/1 valuation: the sum of the similarities of the
      selected real pairs over the number of participants. */
  lemma MeanScoreIsMatchedSimilarity(prob: LpProblem, persons: seq<LegacyPerson.Person>, cosine: Persons.CosineDistance,
                                     value: Valuation, objectiveValue: real)
    requires IsLegacyModel(prob, persons, cosine)
    requires Binary(Candidates(|persons|), value)
    requires objectiveValue == ObjectiveValue(prob.objective, value)
    requires |persons| > 0
    ensures objectiveValue / |persons| as real ==
      ScoreSum(Filter(SelectedPairs(|persons|, value), IsRealPair()), SimilarityOf(persons, cosine)) / |persons| as real
  {
    ObjectiveValueIsSimilaritySum(prob, persons, cosine, value);
  }

  /** What the legacy `solve` reports: the mean score, the similarity of each
      selected pair, the number matched and the number not matched. */
  datatype LegacyReport = LegacyReport(meanScore: real, scores: seq<real>, numMatches: nat, notMatched: int)

  /** `solve`, after the solver has run. The mean is the objective over the
      number of participants -- half of what the newer version logs for the
      same objective value -- and is computed first, so no participants
      raises ZeroDivisionError before anything else. */
  method Solve(persons: seq<LegacyPerson.Person>, possibleMatches: seq<Key>, value: Valuation, objectiveValue: real,
               cosine: Persons.CosineDistance)
    returns (r: Result<LegacyReport>)
    requires possibleMatches == Candidates(|persons|)
    ensures r.Err? <==> |persons| == 0
    ensures r.Err? ==> r.error == ZeroDivisionError
    ensures r.Ok? ==> r.value.meanScore * |persons| as real == objectiveValue
    ensures r.Ok? ==> var selected := Filter(possibleMatches, IsSelected(value));
      && |r.value.scores| == |selected|
      && (forall k :: 0 <= k < |selected| ==> r.value.scores[k] == SimilarityOf(persons, cosine)(selected[k]))
      && r.value.numMatches == 2 * |Filter(selected, IsRealPair())|
      && r.value.notMatched == |persons| - r.value.numMatches
  {
    var n := |persons|;
    if n == 0 {
      return Err(ZeroDivisionError);
    }
    var meanScore := objectiveValue / n as real;
    CandidatesInRange(n);
    var scores, numMatches := CountMatches(persons, possibleMatches, value, cosine);
    r := Ok(LegacyReport(meanScore, scores, numMatches, n - numMatches));
  }

  /** The similarity of each of `keys`, in order. */
  function Scores(keys: seq<Key>, persons: seq<LegacyPerson.Person>, cosine: Persons.CosineDistance): (r: seq<real>)
    ensures |r| == |keys| && forall k :: 0 <= k < |keys| ==> r[k] == SimilarityOf(persons, cosine)(keys[k])
  {
    seq(|keys|, k requires 0 <= k < |keys| => SimilarityOf(persons, cosine)(keys[k]))
  }

  lemma ScoresSnoc(keys: seq<Key>, key: Key, persons: seq<LegacyPerson.Person>, cosine: Persons.CosineDistance)
    ensures Scores(keys + [key], persons, cosine) == Scores(keys, persons, cosine) + [SimilarityOf(persons, cosine)(key)]
  {
  }

  /** The loop of `solve`: for each candidate with a positive value, its
      similarity, and 2 more matched people when its indices differ. */
  method CountMatches(persons: seq<LegacyPerson.Person>, possibleMatches: seq<Key>, value: Valuation,
                      cosine: Persons.CosineDistance)
    returns (scores: seq<real>, numMatches: nat)
    requires forall k :: 0 <= k < |possibleMatches| ==>
      0 <= possibleMatches[k].0 < |persons| && 0 <= possibleMatches[k].1 < |persons|
    ensures var selected := Filter(possibleMatches, IsSelected(value));
      && |scores| == |selected|
      && (forall k :: 0 <= k < |selected| ==> scores[k] == SimilarityOf(persons, cosine)(selected[k]))
      && numMatches == 2 * |Filter(selected, IsRealPair())|
  {
    scores := [];
    numMatches := 0;
    ghost var selected: seq<Key> := [];
    var i := 0;
    while i < |possibleMatches|
      invariant 0 <= i <= |possibleMatches|
      invariant selected == Filter(possibleMatches[..i], IsSelected(value))
      invariant scores == Scores(selected, persons, cosine)
      invariant numMatches == 2 * |Filter(selected, IsRealPair())|
    {
      var (idx1, idx2) := possibleMatches[i];
      FilterSnoc(possibleMatches[..i], possibleMatches[i], IsSelected(value));
      assert possibleMatches[..i + 1] == possibleMatches[..i] + [possibleMatches[i]];
      if value((idx1, idx2)) > 0.0 {
        scores := scores + [MatrixSimilarity(persons[idx1], persons[idx2], cosine)];
        ScoresSnoc(selected, (idx1, idx2), persons, cosine);
        FilterSnoc(selected, (idx1, idx2), IsRealPair());
        selected := selected + [(idx1, idx2)];
        if idx1 != idx2 {
          numMatches := numMatches + 2;
        }
      }
      i := i + 1;
    }
    assert possibleMatches[..i] == possibleMatches;
  }

  /** Under a 0/1 valuation that meets the constraints, the reported number
      of people not matched is never negative: it is exactly the number of
      selected self-pairs. */
  lemma NotMatchedIsSelfPairs(prob: LpProblem, persons: seq<LegacyPerson.Person>, cosine: Persons.CosineDistance,
                              value: Valuation)
    requires IsLegacyModel(prob, persons, cosine)
    requires Binary(Candidates(|persons|), value) && Satisfies(prob, value)
    ensures var selected := SelectedPairs(|persons|, value);
      |persons| - 2 * |Filter(selected, IsRealPair())| == |Filter(selected, IsSelf())|
  {
    var n := |persons|;
    FeasibleRealPairsBound(prob, n, value);
    FilterComplement(SelectedPairs(n, value), IsRealPair(), IsSelf());
  }
}
