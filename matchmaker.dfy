/** Model assembly and result statistics (date_matching/matching/matchmaker.py):
    the objective and the constraints handed to the MILP solver, and what is
    read back from a solved valuation. The solver itself is external: its
    result is a `Valuation` and a reported objective value. */
module MatchMaking {
  import opened Wrappers
  import opened PyStr
  import opened Seqs
  import opened Dicts
  import opened EnumClasses
  import opened Persons
  import opened MatchTracking

  /** `PENALTY_MULTIPLIER` (date_matching/config.py). */
  const PENALTY_MULTIPLIER: real := 0.1

  /** `variable * score`: one term of the linear objective. */
  datatype Term = Term(variable: Key, coefficient: real)

  /** `lpSum(variables) == total` and `variable <= bound`. */
  datatype LpConstraint =
    | SumEquals(variables: seq<Key>, total: int)
    | AtMost(variable: Key, bound: int)

  /** The `LpProblem` as assembled: the objective to maximise and the
      constraints, each in the order it was added with `+=`. */
  datatype LpProblem = LpProblem(objective: seq<Term>, constraints: seq<LpConstraint>)

  /** Python's `bool` used as an `int`. */
  function BoolToInt(b: bool): int
  {
    if b then 1 else 0
  }

  /** `reward - PENALTY_MULTIPLIER * penalty`, the penalty being
      `1 - is_pairing_preferred`; it fails where the score's assertion does. */
  function Coefficient(a: Person, b: Person, penaltyMultiplier: real, cosine: CosineDistance): (r: Result<real>)
    ensures r.Ok? <==> CompatibilityScore(a, b, cosine).Ok?
    ensures r.Err? ==> r.error == AssertionError
    ensures r.Ok? && IsPairingPreferred(a, b) ==> r.value == CompatibilityScore(a, b, cosine).value
    ensures r.Ok? && !IsPairingPreferred(a, b) ==> r.value == CompatibilityScore(a, b, cosine).value - penaltyMultiplier
  {
    match CompatibilityScore(a, b, cosine)
    case Err(e) => Err(e)
    case Ok(reward) =>
      var penalty := 1 - BoolToInt(IsPairingPreferred(a, b));
      Ok(reward - penaltyMultiplier * penalty as real)
  }

  /** A self-pair (or a pair of equal records) has coefficient exactly 0:
      score 0, and preferred, so no penalty. */
  lemma SelfCoefficientZero(a: Person, b: Person, penaltyMultiplier: real, cosine: CosineDistance)
    requires a == b
    ensures Coefficient(a, b, penaltyMultiplier, cosine) == Ok(0.0)
  {
  }

  /** With no penalty the coefficient is the compatibility score. */
  lemma ZeroPenaltyCoefficientIsScore(a: Person, b: Person, cosine: CosineDistance)
    ensures Coefficient(a, b, 0.0, cosine) == CompatibilityScore(a, b, cosine)
  {
  }

  /** With a penalty in the documented range the coefficient lies in
      [-penalty, 1], and only an unpreferred pair goes below 0. */
  lemma CoefficientRange(a: Person, b: Person, penaltyMultiplier: real, cosine: CosineDistance)
    requires 0.0 <= penaltyMultiplier
    requires Coefficient(a, b, penaltyMultiplier, cosine).Ok?
    ensures -penaltyMultiplier <= Coefficient(a, b, penaltyMultiplier, cosine).value <= 1.0
    ensures Coefficient(a, b, penaltyMultiplier, cosine).value < 0.0 ==> !IsPairingPreferred(a, b)
  {
  }

  /** A real pair with a participant whose year answer parsed to None always
      carries the full penalty. */
  lemma MissingPreferencePenalised(a: Person, b: Person, penaltyMultiplier: real, cosine: CosineDistance)
    requires a.yearPreference == None || b.yearPreference == None
    requires a != b
    requires Coefficient(a, b, penaltyMultiplier, cosine).Ok?
    ensures Coefficient(a, b, penaltyMultiplier, cosine).value ==
      CompatibilityScore(a, b, cosine).value - penaltyMultiplier
  {
  }

  /** Every candidate's score is defined: none of the source's assertions fails. */
  ghost predicate ScoresDefined(persons: seq<Person>, keys: seq<Key>, cosine: CosineDistance)
  {
    forall key :: key in keys ==>
      0 <= key.0 < |persons| && 0 <= key.1 < |persons| && CompatibilityScore(persons[key.0], persons[key.1], cosine).Ok?
  }

  /** What `_initialse_problem` assembles for `persons`: one objective term per
      candidate, in candidate order; then one assignment constraint per
      participant over that participant's variables; then one pairability
      bound per candidate. */
  ghost predicate IsMatchModel(prob: LpProblem, persons: seq<Person>, penaltyMultiplier: real, cosine: CosineDistance)
  {
    var n := |persons|;
    var c := Candidates(n);
    && (forall k :: 0 <= k < |c| ==> 0 <= c[k].0 <= c[k].1 < n)
    && |prob.objective| == |c|
    && (forall k :: 0 <= k < |c| ==>
          && prob.objective[k].variable == c[k]
          && Coefficient(persons[c[k].0], persons[c[k].1], penaltyMultiplier, cosine) == Ok(prob.objective[k].coefficient))
    && |prob.constraints| == n + |c|
    && (forall idx :: 0 <= idx < n ==> prob.constraints[idx] == SumEquals(Filter(c, Touches(idx)), 1))
    && (forall k :: 0 <= k < |c| ==>
          prob.constraints[n + k] == AtMost(c[k], BoolToInt(IsPairable(persons[c[k].0], persons[c[k].1]))))
  }

  /** The objective part of `_initialse_problem`: one `variable * score` term
      per candidate, in candidate order. It raises (here: returns the
      AssertionError) as soon as one candidate's score fails its assertion. */
  method ObjectiveTerms(tracker: MatchTracker, penaltyMultiplier: real, cosine: CosineDistance)
    returns (r: Result<seq<Term>>)
    requires tracker.Valid()
    ensures r.Ok? <==> ScoresDefined(tracker.persons, tracker.possibleMatches, cosine)
    ensures r.Err? ==> r.error == AssertionError
    ensures r.Ok? ==> |r.value| == |tracker.possibleMatches|
    ensures r.Ok? ==> forall k :: 0 <= k < |r.value| ==>
      && r.value[k].variable == tracker.possibleMatches[k]
      && Coefficient(tracker.persons[tracker.possibleMatches[k].0], tracker.persons[tracker.possibleMatches[k].1],
                     penaltyMultiplier, cosine) == Ok(r.value[k].coefficient)
  {
    var persons, matches := tracker.persons, tracker.possibleMatches;
    var triples := tracker.VariablesToPeople();
    var scoreVars: seq<Term> := [];
    var i := 0;
    while i < |triples|
      invariant 0 <= i <= |triples|
      invariant |scoreVars| == i
      invariant forall k :: 0 <= k < i ==> CompatibilityScore(persons[matches[k].0], persons[matches[k].1], cosine).Ok?
      invariant forall k :: 0 <= k < i ==>
        && scoreVars[k].variable == matches[k]
        && Coefficient(persons[matches[k].0], persons[matches[k].1], penaltyMultiplier, cosine) == Ok(scoreVars[k].coefficient)
    {
      var (variable, person1, person2) := triples[i];
      var reward := CompatibilityScore(person1, person2, cosine);
      if reward.Err? {
        assert matches[i] in matches;
        return Err(reward.error);
      }
      var penalty := 1 - BoolToInt(IsPairingPreferred(person1, person2));
      var score := reward.value - penaltyMultiplier * penalty as real;
      scoreVars := scoreVars + [Term(variable, score)];
      i := i + 1;
    }
    forall key | key in matches
      ensures 0 <= key.0 < |persons| && 0 <= key.1 < |persons| && CompatibilityScore(persons[key.0], persons[key.1], cosine).Ok?
    {
      var k :| 0 <= k < |matches| && matches[k] == key;
    }
    r := Ok(scoreVars);
  }

  /** The assignment part: for each participant, the sum of that
      participant's variables is 1 (matched exactly once, possibly to
      themself). */
  method AssignmentConstraints(tracker: MatchTracker) returns (r: seq<LpConstraint>)
    requires tracker.Valid()
    ensures |r| == |tracker.persons|
    ensures forall idx :: 0 <= idx < |r| ==> r[idx] == SumEquals(Filter(tracker.possibleMatches, Touches(idx)), 1)
  {
    r := [];
    var idx := 0;
    while idx < |tracker.persons|
      invariant 0 <= idx <= |tracker.persons|
      invariant |r| == idx
      invariant forall j :: 0 <= j < idx ==> r[j] == SumEquals(Filter(tracker.possibleMatches, Touches(j)), 1)
    {
      var variablesForPerson := tracker.VariablesForPerson(idx);
      r := r + [SumEquals(variablesForPerson, 1)];
      idx := idx + 1;
    }
  }

  /** The pairability part: each variable is at most `is_pairable` of its two
      participants. */
  method PairabilityConstraints(tracker: MatchTracker) returns (r: seq<LpConstraint>)
    requires tracker.Valid()
    ensures |r| == |tracker.possibleMatches|
    ensures forall k :: 0 <= k < |r| ==>
      r[k] == AtMost(tracker.possibleMatches[k],
                     BoolToInt(IsPairable(tracker.persons[tracker.possibleMatches[k].0], tracker.persons[tracker.possibleMatches[k].1])))
  {
    var persons, matches := tracker.persons, tracker.possibleMatches;
    var triples := tracker.VariablesToPeople();
    r := [];
    var i := 0;
    while i < |triples|
      invariant 0 <= i <= |triples|
      invariant |r| == i
      invariant forall k :: 0 <= k < i ==>
        r[k] == AtMost(matches[k], BoolToInt(IsPairable(persons[matches[k].0], persons[matches[k].1])))
    {
      var (variable, person1, person2) := triples[i];
      r := r + [AtMost(variable, BoolToInt(IsPairable(person1, person2)))];
      i := i + 1;
    }
  }

  /** `_initialse_problem`, without writing the LP file: the objective, then
      the assignment constraints, then the pairability constraints. */
  method InitialiseProblem(tracker: MatchTracker, penaltyMultiplier: real, cosine: CosineDistance)
    returns (r: Result<LpProblem>)
    requires tracker.Valid()
    ensures r.Ok? <==> ScoresDefined(tracker.persons, tracker.possibleMatches, cosine)
    ensures r.Err? ==> r.error == AssertionError
    ensures r.Ok? ==> IsMatchModel(r.value, tracker.persons, penaltyMultiplier, cosine)
  {
    var objective := ObjectiveTerms(tracker, penaltyMultiplier, cosine);
    if objective.Err? {
      return Err(objective.error);
    }
    var assignment := AssignmentConstraints(tracker);
    var pairability := PairabilityConstraints(tracker);
    var prob := LpProblem(objective.value, assignment + pairability);
    assert forall k :: 0 <= k < |pairability| ==> prob.constraints[|assignment| + k] == pairability[k];
    r := Ok(prob);
  }

  /** The sum of the values of some variables. */
  function SumValues(variables: seq<Key>, value: Valuation): real
  {
    if variables == [] then 0.0 else value(variables[0]) + SumValues(variables[1..], value)
  }

  predicate ConstraintHolds(c: LpConstraint, value: Valuation)
  {
    match c
    case SumEquals(variables, total) => SumValues(variables, value) == total as real
    case AtMost(variable, bound) => value(variable) <= bound as real
  }

  /** The valuation meets every constraint of the problem. */
  ghost predicate Satisfies(prob: LpProblem, value: Valuation)
  {
    forall k :: 0 <= k < |prob.constraints| ==> ConstraintHolds(prob.constraints[k], value)
  }

  /** The variables are declared `LpInteger` in [0, 1]. */
  ghost predicate Binary(keys: seq<Key>, value: Valuation)
  {
    forall k :: 0 <= k < |keys| ==> value(keys[k]) == 0.0 || value(keys[k]) == 1.0
  }

  /** The value of the objective under a valuation. */
  function ObjectiveValue(objective: seq<Term>, value: Valuation): real
  {
    if objective == [] then 0.0
    else objective[0].coefficient * value(objective[0].variable) + ObjectiveValue(objective[1..], value)
  }

  /** Everybody unmatched: every self-pair 1, every real pair 0. */
  function AllSelfPairs(): Valuation
  {
    (key: Key) => if key.0 == key.1 then 1.0 else 0.0
  }

  /** Under a 0/1 valuation a sum of values counts the selected variables. */
  lemma {:induction false} BinarySumCounts(keys: seq<Key>, value: Valuation)
    requires Binary(keys, value)
    ensures SumValues(keys, value) == |Filter(keys, IsSelected(value))| as real
  {
    if keys != [] {
      BinarySumCounts(keys[1..], value);
    }
  }

  /** Binary on a list is binary on its filter. */
  lemma BinaryFilter(keys: seq<Key>, p: Key -> bool, value: Valuation)
    requires Binary(keys, value)
    ensures Binary(Filter(keys, p), value)
  {
    var f := Filter(keys, p);
    forall k | 0 <= k < |f| ensures value(f[k]) == 0.0 || value(f[k]) == 1.0 {
      assert f[k] in f;
      FilterMembership(keys, p, f[k]);
      var j :| 0 <= j < |keys| && keys[j] == f[k];
    }
  }

  /** The model is always feasible: everybody staying unmatched meets every
      assignment constraint (one self-pair each) and every pairability bound
      (a self-pair is always pairable, a real pair is 0). */
  lemma AllSelfPairsFeasible(prob: LpProblem, persons: seq<Person>, penaltyMultiplier: real, cosine: CosineDistance)
    requires IsMatchModel(prob, persons, penaltyMultiplier, cosine)
    ensures Binary(Candidates(|persons|), AllSelfPairs())
    ensures Satisfies(prob, AllSelfPairs())
  {
    var n, c, v := |persons|, Candidates(|persons|), AllSelfPairs();
    forall k | 0 <= k < |prob.constraints| ensures ConstraintHolds(prob.constraints[k], v) {
      if k < n {
        var ts := Filter(c, Touches(k));
        BinarySumCounts(ts, v);
        FilterCongruent(ts, IsSelected(v), IsSelf());
        SelfPairOfPerson(n, k);
      } else {
        var j := k - n;
        assert prob.constraints[k] == AtMost(c[j], BoolToInt(IsPairable(persons[c[j].0], persons[c[j].1])));
      }
    }
  }

  /** The selected candidates. */
  function SelectedPairs(n: nat, value: Valuation): seq<Key>
  {
    Filter(Candidates(n), IsSelected(value))
  }

  /** The first `n` constraints are the assignment constraints of `n`
      participants: each one's variables sum to 1. Both versions of the
      matchmaker add them first. */
  ghost predicate AssignsEachOnce(constraints: seq<LpConstraint>, n: nat)
  {
    && |constraints| >= n
    && forall idx :: 0 <= idx < n ==> constraints[idx] == SumEquals(Filter(Candidates(n), Touches(idx)), 1)
  }

  /** Under a 0/1 valuation that meets the constraints, every participant
      appears in exactly one selected pair. */
  lemma FeasibleCoversEachOnce(prob: LpProblem, n: nat, value: Valuation, idx: int)
    requires AssignsEachOnce(prob.constraints, n)
    requires Binary(Candidates(n), value) && Satisfies(prob, value)
    requires 0 <= idx < n
    ensures |Filter(SelectedPairs(n, value), Touches(idx))| == 1
  {
    var c := Candidates(n);
    var ts := Filter(c, Touches(idx));
    assert ConstraintHolds(prob.constraints[idx], value);
    BinaryFilter(c, Touches(idx), value);
    BinarySumCounts(ts, value);
    FilterCommutes(c, Touches(idx), IsSelected(value));
  }

  /** The test `idx1 != idx2`: a real pair. */
  function IsRealPair(): Key -> bool
  {
    (key: Key) => key.0 != key.1
  }

  /** How many participants below `m` a pair involves. */
  function Hits(key: Key, m: int): nat
    decreases m
  {
    if m <= 0 then 0 else Hits(key, m - 1) + (if key.0 == m - 1 || key.1 == m - 1 then 1 else 0)
  }

  /** The number of (pair, participant) incidences over participants below
      `m`. */
  function CoverSum(keys: seq<Key>, m: int): nat
    decreases m
  {
    if m <= 0 then 0 else CoverSum(keys, m - 1) + |Filter(keys, Touches(m - 1))|
  }

  lemma {:induction false} HitsInRange(key: Key, m: int)
    requires 0 <= key.0 < m && 0 <= key.1 < m
    ensures Hits(key, m) == if key.0 == key.1 then 1 else 2
    decreases m
  {
    HitsBelow(key, m);
  }

  lemma {:induction false} HitsBelow(key: Key, m: int)
    ensures Hits(key, m) ==
      (if 0 <= key.0 < m then 1 else 0) + (if key.1 != key.0 && 0 <= key.1 < m then 1 else 0)
    decreases m
  {
    if m > 0 {
      HitsBelow(key, m - 1);
    }
  }

  lemma {:induction false} CoverSumCons(key: Key, keys: seq<Key>, m: int)
    ensures CoverSum([key] + keys, m) == CoverSum(keys, m) + Hits(key, m)
    decreases m
  {
    if m > 0 {
      CoverSumCons(key, keys, m - 1);
      var p := Touches(m - 1);
      assert ([key] + keys)[0] == key && ([key] + keys)[1..] == keys;
      assert Filter([key] + keys, p) == (if p(key) then [key] else []) + Filter(keys, p);
      assert p(key) <==> key.0 == m - 1 || key.1 == m - 1;
    }
  }

  /** Double counting: each self-pair involves one participant and each real
      pair two. */
  lemma {:induction false} CoverSumCounts(keys: seq<Key>, n: int)
    requires forall k :: 0 <= k < |keys| ==> 0 <= keys[k].0 < n && 0 <= keys[k].1 < n
    ensures CoverSum(keys, n) == |keys| + |Filter(keys, IsRealPair())|
  {
    if keys == [] {
      CoverSumEmpty(n);
    } else {
      CoverSumCounts(keys[1..], n);
      CoverSumCons(keys[0], keys[1..], n);
      assert [keys[0]] + keys[1..] == keys;
      HitsInRange(keys[0], n);
    }
  }

  lemma {:induction false} CoverSumEmpty(m: int)
    ensures CoverSum([], m) == 0
    decreases m
  {
    if m > 0 {
      CoverSumEmpty(m - 1);
    }
  }

  lemma {:induction false} CoverSumOnes(keys: seq<Key>, m: int)
    requires forall idx :: 0 <= idx < m ==> |Filter(keys, Touches(idx))| == 1
    ensures CoverSum(keys, m) == if m <= 0 then 0 else m
    decreases m
  {
    if m > 0 {
      CoverSumOnes(keys, m - 1);
    }
  }

  /** Under a 0/1 valuation that meets the constraints, at most `n / 2` real
      pairs are selected, and every selected self-pair and real pair
      together account for each of the `n` participants once. */
  lemma FeasibleRealPairsBound(prob: LpProblem, n: nat, value: Valuation)
    requires AssignsEachOnce(prob.constraints, n)
    requires Binary(Candidates(n), value) && Satisfies(prob, value)
    ensures |SelectedPairs(n, value)| + |Filter(SelectedPairs(n, value), IsRealPair())| == n
    ensures 2 * |Filter(SelectedPairs(n, value), IsRealPair())| <= n
  {
    var s := SelectedPairs(n, value);
    forall idx | 0 <= idx < n ensures |Filter(s, Touches(idx))| == 1 {
      FeasibleCoversEachOnce(prob, n, value, idx);
    }
    CoverSumOnes(s, n);
    CandidatesShape(n);
    forall k | 0 <= k < |s| ensures 0 <= s[k].0 < n && 0 <= s[k].1 < n {
      assert s[k] in s;
      FilterMembership(Candidates(n), IsSelected(value), s[k]);
    }
    CoverSumCounts(s, n);
  }

  /** The score of each pair, 0 where it is undefined. */
  function PairScore(persons: seq<Person>, cosine: CosineDistance): Key -> real
  {
    (key: Key) =>
      if 0 <= key.0 < |persons| && 0 <= key.1 < |persons| && CompatibilityScore(persons[key.0], persons[key.1], cosine).Ok?
      then CompatibilityScore(persons[key.0], persons[key.1], cosine).value
      else 0.0
  }

  /** The sum of the scores of some pairs. */
  function ScoreSum(keys: seq<Key>, score: Key -> real): real
  {
    if keys == [] then 0.0 else score(keys[0]) + ScoreSum(keys[1..], score)
  }

  /** An objective whose coefficients are the pair scores, 0 on self-pairs,
      sums under a 0/1 valuation to the scores of the selected real pairs. */
  lemma {:induction false} ObjectiveAsScoreSum(objective: seq<Term>, keys: seq<Key>, score: Key -> real, value: Valuation)
    requires |objective| == |keys| && Binary(keys, value)
    requires forall k :: 0 <= k < |keys| ==>
      && objective[k].variable == keys[k]
      && objective[k].coefficient == score(keys[k])
      && (keys[k].0 == keys[k].1 ==> objective[k].coefficient == 0.0)
    ensures ObjectiveValue(objective, value) == ScoreSum(Filter(Filter(keys, IsSelected(value)), IsRealPair()), score)
  {
    if keys != [] {
      assert Binary(keys[1..], value) by {
        forall k | 0 <= k < |keys[1..]| ensures value(keys[1..][k]) == 0.0 || value(keys[1..][k]) == 1.0 {
          assert keys[1..][k] == keys[k + 1];
        }
      }
      ObjectiveAsScoreSum(objective[1..], keys[1..], score, value);
      var rest := Filter(Filter(keys[1..], IsSelected(value)), IsRealPair());
      var head := keys[0];
      assert value(head) == 0.0 || value(head) == 1.0;
      if value(head) > 0.0 && head.0 != head.1 {
        assert Filter(keys, IsSelected(value)) == [head] + Filter(keys[1..], IsSelected(value));
        assert Filter(Filter(keys, IsSelected(value)), IsRealPair()) == [head] + rest;
        assert ([head] + rest)[1..] == rest;
      } else if value(head) > 0.0 {
        assert Filter(keys, IsSelected(value)) == [head] + Filter(keys[1..], IsSelected(value));
        assert ([head] + Filter(keys[1..], IsSelected(value)))[1..] == Filter(keys[1..], IsSelected(value));
        assert Filter(Filter(keys, IsSelected(value)), IsRealPair()) == rest;
        assert objective[0].coefficient == 0.0;
      } else {
        assert Filter(keys, IsSelected(value)) == [] + Filter(keys[1..], IsSelected(value));
        assert [] + Filter(keys[1..], IsSelected(value)) == Filter(keys[1..], IsSelected(value));
      }
    }
  }

  /** With `PENALTY_MULTIPLIER = 0`, the objective under a 0/1 valuation is the
      sum of the scores of the selected real pairs: the soft constraint has
      no effect and the self-pairs add nothing. */
  lemma ObjectiveValueWithoutPenalty(prob: LpProblem, persons: seq<Person>, cosine: CosineDistance, value: Valuation)
    requires IsMatchModel(prob, persons, 0.0, cosine)
    requires Binary(Candidates(|persons|), value)
    ensures ObjectiveValue(prob.objective, value) ==
      ScoreSum(Filter(SelectedPairs(|persons|, value), IsRealPair()), PairScore(persons, cosine))
  {
    var c := Candidates(|persons|);
    forall k | 0 <= k < |c|
      ensures prob.objective[k].coefficient == PairScore(persons, cosine)(c[k])
      ensures c[k].0 == c[k].1 ==> prob.objective[k].coefficient == 0.0
    {
      ZeroPenaltyCoefficientIsScore(persons[c[k].0], persons[c[k].1], cosine);
    }
    ObjectiveAsScoreSum(prob.objective, c, PairScore(persons, cosine), value);
  }

  /** The objective coefficient of each pair, 0 where it is undefined. */
  function CoefficientOf(persons: seq<Person>, penaltyMultiplier: real, cosine: CosineDistance): Key -> real
  {
    (key: Key) =>
      if 0 <= key.0 < |persons| && 0 <= key.1 < |persons| && Coefficient(persons[key.0], persons[key.1], penaltyMultiplier, cosine).Ok?
      then Coefficient(persons[key.0], persons[key.1], penaltyMultiplier, cosine).value
      else 0.0
  }

  /** With any penalty, the objective under a 0/1 valuation is the sum of
      the coefficients of the selected real pairs. */
  lemma ObjectiveValueIsCoefficientSum(prob: LpProblem, persons: seq<Person>, penaltyMultiplier: real,
                                       cosine: CosineDistance, value: Valuation)
    requires IsMatchModel(prob, persons, penaltyMultiplier, cosine)
    requires Binary(Candidates(|persons|), value)
    ensures ObjectiveValue(prob.objective, value) ==
      ScoreSum(Filter(SelectedPairs(|persons|, value), IsRealPair()), CoefficientOf(persons, penaltyMultiplier, cosine))
  {
    var c := Candidates(|persons|);
    forall k | 0 <= k < |c|
      ensures prob.objective[k].coefficient == CoefficientOf(persons, penaltyMultiplier, cosine)(c[k])
      ensures c[k].0 == c[k].1 ==> prob.objective[k].coefficient == 0.0
    {
      if c[k].0 == c[k].1 {
        SelfCoefficientZero(persons[c[k].0], persons[c[k].1], penaltyMultiplier, cosine);
      }
    }
    ObjectiveAsScoreSum(prob.objective, c, CoefficientOf(persons, penaltyMultiplier, cosine), value);
  }

  /** The mean `solve` logs, when the reported objective value is that of
      the solved 0/1 valuation: twice the sum of the coefficients of the
      selected real pairs, over the number of participants. */
  lemma MeanScoreIsMatchedCoefficients(prob: LpProblem, persons: seq<Person>, penaltyMultiplier: real,
                                       cosine: CosineDistance, value: Valuation, objectiveValue: real)
    requires IsMatchModel(prob, persons, penaltyMultiplier, cosine)
    requires Binary(Candidates(|persons|), value)
    requires objectiveValue == ObjectiveValue(prob.objective, value)
    requires |persons| > 0
    ensures 2.0 * objectiveValue / |persons| as real ==
      2.0 * ScoreSum(Filter(SelectedPairs(|persons|, value), IsRealPair()), CoefficientOf(persons, penaltyMultiplier, cosine))
        / |persons| as real
  {
    ObjectiveValueIsCoefficientSum(prob, persons, penaltyMultiplier, cosine, value);
  }

  /** `person1 != person2` on the dataclass: structural inequality. */
  function DifferentRecords(): ((Person, Person)) -> bool
  {
    (m: (Person, Person)) => m.0 != m.1
  }

  /** What `solve` logs: the mean score per person, the score of each
      selected pair, and the number of people matched. */
  datatype SolveReport = SolveReport(meanScore: real, scores: seq<real>, numMatches: nat)

  /** `solve`, after the solver has run: `value` is the solved valuation and
      `objectiveValue` the value it reports for the objective. The mean
      divides by the number of participants and raises ZeroDivisionError
      for none; every selected pair's score is defined since the problem
      could be built. */
  method Solve(tracker: MatchTracker, value: Valuation, objectiveValue: real, cosine: CosineDistance)
    returns (r: Result<SolveReport>)
    requires tracker.Valid()
    requires ScoresDefined(tracker.persons, tracker.possibleMatches, cosine)
    ensures r.Err? <==> |tracker.persons| == 0
    ensures r.Err? ==> r.error == ZeroDivisionError
    ensures r.Ok? ==> r.value.meanScore == 2.0 * objectiveValue / |tracker.persons| as real
    ensures r.Ok? ==> |r.value.scores| == |tracker.Matches(value)|
    ensures r.Ok? ==> forall k :: 0 <= k < |r.value.scores| ==>
      CompatibilityScore(tracker.Matches(value)[k].0, tracker.Matches(value)[k].1, cosine) == Ok(r.value.scores[k])
    ensures r.Ok? ==> r.value.numMatches == 2 * |Filter(tracker.Matches(value), DifferentRecords())|
  {
    var n := |tracker.persons|;
    if n == 0 {
      return Err(ZeroDivisionError);
    }
    var meanScore := 2.0 * objectiveValue / n as real;
    MatchScoresDefined(tracker, value, cosine);
    var scores, numMatches := ScoreMatches(tracker.Matches(value), cosine);
    r := Ok(SolveReport(meanScore, scores, numMatches));
  }

  /** The loop of `solve` over the matches: the score of each, and 2 for
      each match of two different records. */
  method ScoreMatches(matches: seq<(Person, Person)>, cosine: CosineDistance) returns (scores: seq<real>, numMatches: nat)
    requires forall k :: 0 <= k < |matches| ==> CompatibilityScore(matches[k].0, matches[k].1, cosine).Ok?
    ensures |scores| == |matches|
    ensures forall k :: 0 <= k < |matches| ==> CompatibilityScore(matches[k].0, matches[k].1, cosine) == Ok(scores[k])
    ensures numMatches == 2 * |Filter(matches, DifferentRecords())|
  {
    scores := [];
    numMatches := 0;
    var i := 0;
    while i < |matches|
      invariant 0 <= i <= |matches|
      invariant |scores| == i
      invariant forall k :: 0 <= k < i ==> CompatibilityScore(matches[k].0, matches[k].1, cosine) == Ok(scores[k])
      invariant numMatches == 2 * |Filter(matches[..i], DifferentRecords())|
    {
      var (person1, person2) := matches[i];
      var score := CompatibilityScore(person1, person2, cosine);
      scores := scores + [score.value];
      FilterSnoc(matches[..i], matches[i], DifferentRecords());
      assert matches[..i + 1] == matches[..i] + [matches[i]];
      if person1 != person2 {
        numMatches := numMatches + 2;
      }
      i := i + 1;
    }
    assert matches[..i] == matches;
  }

  /** Every selected pair was scored when the problem was built. */
  lemma MatchScoresDefined(tracker: MatchTracker, value: Valuation, cosine: CosineDistance)
    requires tracker.Valid()
    requires ScoresDefined(tracker.persons, tracker.possibleMatches, cosine)
    ensures forall k :: 0 <= k < |tracker.Matches(value)| ==>
      CompatibilityScore(tracker.Matches(value)[k].0, tracker.Matches(value)[k].1, cosine).Ok?
  {
    var s := tracker.TruePossibleMatches(value);
    forall k | 0 <= k < |s| ensures CompatibilityScore(tracker.persons[s[k].0], tracker.persons[s[k].1], cosine).Ok? {
      assert s[k] in s;
      FilterMembership(tracker.possibleMatches, IsSelected(value), s[k]);
    }
  }

  /** Counting matched people by record inequality never exceeds counting
      them by index, and the two agree when no two participants have equal
      records. */
  lemma {:induction false} DifferentRecordsCount(ms: seq<(Person, Person)>, keys: seq<Key>, persons: seq<Person>)
    requires |ms| == |keys|
    requires forall k :: 0 <= k < |keys| ==>
      0 <= keys[k].0 < |persons| && 0 <= keys[k].1 < |persons| && ms[k] == (persons[keys[k].0], persons[keys[k].1])
    ensures |Filter(ms, DifferentRecords())| <= |Filter(keys, IsRealPair())|
    ensures (forall i, j :: 0 <= i < j < |persons| ==> persons[i] != persons[j]) ==>
      |Filter(ms, DifferentRecords())| == |Filter(keys, IsRealPair())|
  {
    if keys != [] {
      DifferentRecordsCount(ms[1..], keys[1..], persons);
      if keys[0].0 == keys[0].1 {
        assert ms[0].0 == ms[0].1;
      }
    }
  }

  /** Under a 0/1 valuation that meets the constraints, the logged
      "Number of people matched" is at most the number of participants; when
      no two records are equal the people it leaves out are exactly the
      selected self-pairs. */
  lemma NumMatchesBound(tracker: MatchTracker, prob: LpProblem, penaltyMultiplier: real, cosine: CosineDistance,
                        value: Valuation)
    requires tracker.Valid()
    requires IsMatchModel(prob, tracker.persons, penaltyMultiplier, cosine)
    requires Binary(Candidates(|tracker.persons|), value) && Satisfies(prob, value)
    ensures 2 * |Filter(tracker.Matches(value), DifferentRecords())| <= |tracker.persons|
    ensures (forall i, j :: 0 <= i < j < |tracker.persons| ==> tracker.persons[i] != tracker.persons[j]) ==>
      |tracker.persons| - 2 * |Filter(tracker.Matches(value), DifferentRecords())|
        == |Filter(tracker.TruePossibleMatches(value), IsSelf())|
  {
    var n, s := |tracker.persons|, tracker.TruePossibleMatches(value);
    FeasibleRealPairsBound(prob, n, value);
    forall k | 0 <= k < |s| ensures 0 <= s[k].0 < n && 0 <= s[k].1 < n {
      assert s[k] in s;
    }
    DifferentRecordsCount(tracker.Matches(value), s, tracker.persons);
    FilterComplement(s, IsRealPair(), IsSelf());
  }

  /** `get_day_or_either`: the first day unless it is "Either". */
  function GetDayOrEither(day1: string, day2: string): (r: string)
    ensures r == day1 || r == day2
    ensures day1 != EITHER ==> r == day1
    ensures r == EITHER ==> day1 == EITHER && day2 == EITHER
  {
    if day1 != EITHER then day1 else day2
  }

  /** For a pair that meets the day constraint, the day it is listed under
      does not depend on the order of the pair, and both can attend it. */
  lemma PairDayAgreed(a: Person, b: Person)
    requires DayPreferenceConstraint(a, b)
    ensures GetDayOrEither(a.dayChoice, b.dayChoice) == GetDayOrEither(b.dayChoice, a.dayChoice)
    ensures var d := GetDayOrEither(a.dayChoice, b.dayChoice);
      (a.dayChoice == d || a.dayChoice == EITHER) && (b.dayChoice == d || b.dayChoice == EITHER)
  {
  }

  /** The heading a selected pair is listed under by `log_scheduling_info`:
      "Unmatched" for a self-pair, otherwise the agreed day. */
  function DayBucket(persons: seq<Person>, key: Key): string
    requires 0 <= key.0 < |persons| && 0 <= key.1 < |persons|
  {
    if key.0 == key.1 then "Unmatched"
    else GetDayOrEither(persons[key.0].dayChoice, persons[key.1].dayChoice)
  }

  /** The heading of a pair in range, as the loop computes it. */
  lemma BucketOfPair(persons: seq<Person>, idx1: int, idx2: int)
    requires 0 <= idx1 < |persons| && 0 <= idx2 < |persons|
    ensures BucketOf(persons)((idx1, idx2)) ==
      if idx1 == idx2 then "Unmatched" else GetDayOrEither(persons[idx1].dayChoice, persons[idx2].dayChoice)
  {
  }

  /** DayBucket as a key function over all pairs (a pair out of range, which
      is never selected, goes under "Unmatched"). */
  function BucketOf(persons: seq<Person>): Key -> string
  {
    (key: Key) => if 0 <= key.0 < |persons| && 0 <= key.1 < |persons| then DayBucket(persons, key) else "Unmatched"
  }

  /** The grouping of `log_scheduling_info` (without printing): a
      `defaultdict(list)` from heading to the selected pairs under it. Each
      heading holds exactly its pairs in selection order, no heading is
      empty, and every selected pair is listed under its heading once. */
  method ScheduleByDay(tracker: MatchTracker, value: Valuation) returns (days: seq<(string, seq<Key>)>)
    requires tracker.Valid()
    ensures GroupsBy(days, tracker.TruePossibleMatches(value), BucketOf(tracker.persons))
  {
    var selected := tracker.TruePossibleMatches(value);
    assert forall k :: 0 <= k < |selected| ==> selected[k] in selected;
    days := GroupByDay(tracker.persons, selected);
    GroupAllGroupsBy(selected, BucketOf(tracker.persons));
  }

  /** The loop of `log_scheduling_info` over the selected pairs. */
  method GroupByDay(persons: seq<Person>, selected: seq<Key>) returns (days: seq<(string, seq<Key>)>)
    requires forall k :: 0 <= k < |selected| ==> 0 <= selected[k].0 < |persons| && 0 <= selected[k].1 < |persons|
    ensures days == GroupAll(selected, BucketOf(persons))
  {
    days := [];
    var i := 0;
    while i < |selected|
      invariant 0 <= i <= |selected|
      invariant days == GroupAll(selected[..i], BucketOf(persons))
    {
      var (idx1, idx2) := selected[i];
      var bucket;
      if idx1 == idx2 {
        bucket := "Unmatched";
      } else {
        bucket := GetDayOrEither(persons[idx1].dayChoice, persons[idx2].dayChoice);
      }
      BucketOfPair(persons, idx1, idx2);
      GroupAllSnoc(selected, i, BucketOf(persons));
      days := AppendTo(days, bucket, selected[i]);
      i := i + 1;
    }
    assert selected[..i] == selected;
  }

  /** A grouping lists each pair exactly under its own heading, and the
      lists together hold every selected pair. */
  lemma ScheduleListsEveryPair(days: seq<(string, seq<Key>)>, selected: seq<Key>, persons: seq<Person>, key: Key)
    requires GroupsBy(days, selected, BucketOf(persons))
    requires key in selected && 0 <= key.0 < |persons| && 0 <= key.1 < |persons|
    ensures exists e :: 0 <= e < |days| && days[e].0 == DayBucket(persons, key) && key in days[e].1
    ensures forall e :: 0 <= e < |days| && key in days[e].1 ==> days[e].0 == DayBucket(persons, key)
    ensures TotalLength(days) == |selected|
  {
    var k :| 0 <= k < |selected| && selected[k] == key;
    var e := IndexOf(days, BucketOf(persons)(key));
    FilterMembership(selected, KeyIs(BucketOf(persons), days[e].0), key);
    forall e' | 0 <= e' < |days| && key in days[e'].1 ensures days[e'].0 == DayBucket(persons, key) {
      FilterMembership(selected, KeyIs(BucketOf(persons), days[e'].0), key);
    }
  }

  /** A participant's gender as `gender.value.title()`. */
  function GenderLabel(g: Identity): string
  {
    Title(g.Value())
  }

  /** The key `log_gender_pairing_stats` counts a pair under: the two labels,
      smaller first, joined by "/". */
  function GenderPairKey(g1: Identity, g2: Identity): string
  {
    var l1, l2 := GenderLabel(g1), GenderLabel(g2);
    Min(l1, l2) + "/" + Max(l1, l2)
  }

  lemma ManLabel() ensures GenderLabel(Identity.MAN) == "Man" { }

  lemma WomanLabel() ensures GenderLabel(Identity.WOMAN) == "Woman" { TitleOfWord("WOMAN"); }

  lemma AnyLabel() ensures GenderLabel(Identity.ANY) == "Any" { }

  lemma UndefinedLabel() ensures GenderLabel(Identity.UNDEFINED) == "Undefined" { TitleOfWord("UNDEFINED"); }

  /** The labels as they appear in the log. */
  lemma GenderLabels(g: Identity)
    ensures GenderLabel(g) == match g
      case MAN => "Man"
      case WOMAN => "Woman"
      case ANY => "Any"
      case UNDEFINED => "Undefined"
  {
    match g
    case MAN => ManLabel();
    case WOMAN => WomanLabel();
    case ANY => AnyLabel();
    case UNDEFINED => UndefinedLabel();
  }

  /** A pair is counted under the same key whichever way round it was
      selected. */
  lemma GenderPairKeySymmetric(g1: Identity, g2: Identity)
    ensures GenderPairKey(g1, g2) == GenderPairKey(g2, g1)
  {
    MinMaxSymmetric(GenderLabel(g1), GenderLabel(g2));
  }

  /** GenderPairKey of a match. */
  function GenderKeyOf(): ((Person, Person)) -> string
  {
    (m: (Person, Person)) => GenderPairKey(m.0.gender, m.1.gender)
  }

  /** The counting of `log_gender_pairing_stats` (without printing): a
      `defaultdict(int)` from gender-pair key to the number of matches of
      two different records under it. No key has count 0, every such match
      is counted under its key, and the counts add up to those matches. */
  method GenderPairingStats(tracker: MatchTracker, value: Valuation) returns (num: seq<(string, nat)>)
    requires tracker.Valid()
    ensures CountsBy(num, tracker.Matches(value), DifferentRecords(), GenderKeyOf())
  {
    num := CountGenderPairs(tracker.Matches(value));
    CountAllCountsBy(tracker.Matches(value), DifferentRecords(), GenderKeyOf());
  }

  /** The loop of `log_gender_pairing_stats` over the matches. */
  method CountGenderPairs(matches: seq<(Person, Person)>) returns (num: seq<(string, nat)>)
    ensures num == CountAll(matches, DifferentRecords(), GenderKeyOf())
  {
    num := [];
    var i := 0;
    while i < |matches|
      invariant 0 <= i <= |matches|
      invariant num == CountAll(matches[..i], DifferentRecords(), GenderKeyOf())
    {
      var (person1, person2) := matches[i];
      assert matches[..i + 1][..i] == matches[..i] && matches[..i + 1][i] == matches[i];
      if person1 != person2 {
        num := Increment(num, GenderPairKey(person1.gender, person2.gender));
      }
      i := i + 1;
    }
    assert matches[..i] == matches;
  }
}
