/** A participant and the pairwise rules between two participants
    (date_matching/person.py): the compatibility score, the hard constraints
    (is_pairable) and the soft constraint (is_pairing_preferred). */
module Persons {
  import opened Wrappers
  import opened EnumClasses

  /** The `Person` dataclass. `yearPreference` is optional because
      `Person.build` stores whatever `YearPreference.from_string` returns,
      None included, for an answer naming none of the three choices. Dafny's `==` on this datatype compares every
      field, as the dataclass's generated `__eq__` does, so "the same person"
      below means "a record equal in every field", not "the same index". */
  datatype Person = Person(
    name: string,
    studentId: string,
    gender: Identity,
    seeking: Identity,
    matrix: map<string, real>,
    dayChoice: string,
    year: Year,
    yearPreference: Option<YearPreference>)

  /** The wildcard day answer. */
  const EITHER: string := "Either"

  /** `scipy.spatial.distance.cosine`, left uninterpreted: it is applied to the
      two trait vectors restricted to their common keys. */
  type CosineDistance = (map<string, real>, map<string, real>) -> real

  /** The trait keys the two participants share. */
  function CommonKeys(a: Person, b: Person): set<string>
  {
    a.matrix.Keys * b.matrix.Keys
  }

  function Restrict(m: map<string, real>, keys: set<string>): map<string, real>
  {
    map k | k in keys && k in m :: m[k]
  }

  /** `1 - cosine(vector1, vector2)` over the common keys. */
  function CosineScore(a: Person, b: Person, cosine: CosineDistance): real
  {
    var keys := CommonKeys(a, b);
    1.0 - cosine(Restrict(a.matrix, keys), Restrict(b.matrix, keys))
  }

  /** `compatibility_score`: 0 for the same person and for disjoint trait
      keys; otherwise the cosine similarity, which the source asserts to lie
      in [0, 1] (a failed assert is the AssertionError result). */
  function CompatibilityScore(a: Person, b: Person, cosine: CosineDistance): (r: Result<real>)
    ensures a == b ==> r == Ok(0.0)
    ensures a != b && CommonKeys(a, b) == {} ==> r == Ok(0.0)
    ensures r.Ok? ==> 0.0 <= r.value <= 1.0
    ensures r.Err? <==> a != b && CommonKeys(a, b) != {} && !(0.0 <= CosineScore(a, b, cosine) <= 1.0)
    ensures r.Err? ==> r.error == AssertionError
  {
    if a == b then Ok(0.0)
    else if CommonKeys(a, b) == {} then Ok(0.0)
    else
      var score := CosineScore(a, b, cosine);
      if 0.0 <= score <= 1.0 then Ok(score) else Err(AssertionError)
  }

  /** The set of common keys is the same from either side. */
  lemma CommonKeysSymmetric(a: Person, b: Person)
    ensures CommonKeys(a, b) == CommonKeys(b, a)
  {
  }

  /** Given a symmetric cosine distance, the score is symmetric, its
      assertion failures included. */
  lemma ScoreSymmetric(a: Person, b: Person, cosine: CosineDistance)
    requires forall u, v :: cosine(u, v) == cosine(v, u)
    ensures CompatibilityScore(a, b, cosine) == CompatibilityScore(b, a, cosine)
  {
    CommonKeysSymmetric(a, b);
  }

  /** When the cosine distance lies in [0, 1] -- as it does for vectors with
      non-negative entries -- the assertion cannot fail, and a shared key
      gives exactly the cosine similarity. */
  lemma ScoreDefinedWhenDistanceBounded(a: Person, b: Person, cosine: CosineDistance)
    requires 0.0 <= cosine(Restrict(a.matrix, CommonKeys(a, b)), Restrict(b.matrix, CommonKeys(a, b))) <= 1.0
    ensures CompatibilityScore(a, b, cosine).Ok?
    ensures a != b && CommonKeys(a, b) != {} ==> CompatibilityScore(a, b, cosine).value == CosineScore(a, b, cosine)
  {
  }

  /** `_gender_seeking_constraint`: each side seeks ANY or the other's gender. */
  predicate GenderSeekingConstraint(a: Person, b: Person)
  {
    var wanting := a.seeking == Identity.ANY || a.seeking == b.gender;
    var otherWanting := b.seeking == Identity.ANY || b.seeking == a.gender;
    wanting && otherWanting
  }

  /** `_day_preference_constraint`: the same day, or "Either" on one side. */
  predicate DayPreferenceConstraint(a: Person, b: Person)
  {
    a.dayChoice == b.dayChoice || a.dayChoice == EITHER || b.dayChoice == EITHER
  }

  /** `wants_same_year`: whether a preference accepts a partner of the same
      (or a different) year. A missing preference (None) equals none of the
      three members, so it accepts no one. */
  predicate WantsSameYear(preference: Option<YearPreference>, isSameYear: bool)
  {
    || preference == Some(YearPreference.ANY)
    || (preference == Some(YearPreference.SAME) && isSameYear)
    || (preference == Some(YearPreference.DIFFERENT) && !isSameYear)
  }

  /** `_year_preference_constraint`: both sides' year preferences are met. */
  predicate YearPreferenceConstraint(a: Person, b: Person)
  {
    var isSameYear := a.year == b.year;
    WantsSameYear(a.yearPreference, isSameYear) && WantsSameYear(b.yearPreference, isSameYear)
  }

  /** The bound methods `_evaluate_constraints` is handed. */
  datatype Constraint = GenderSeeking | DayPreference | YearPreferenceMatch

  predicate Holds(c: Constraint, a: Person, b: Person)
  {
    match c
    case GenderSeeking => GenderSeekingConstraint(a, b)
    case DayPreference => DayPreferenceConstraint(a, b)
    case YearPreferenceMatch => YearPreferenceConstraint(a, b)
  }

  /** `_evaluate_constraints(constraints)(other)`: `all` of the constraints,
      each called on `other`. */
  predicate EvaluateConstraints(constraints: seq<Constraint>, a: Person, b: Person)
  {
    if constraints == [] then true
    else Holds(constraints[0], a, b) && EvaluateConstraints(constraints[1..], a, b)
  }

  /** `_evaluate_constraints` is the conjunction of the listed constraints. */
  lemma {:induction false} EvaluateConstraintsIsConjunction(constraints: seq<Constraint>, a: Person, b: Person)
    ensures EvaluateConstraints(constraints, a, b) <==> forall c :: c in constraints ==> Holds(c, a, b)
  {
    if constraints != [] {
      EvaluateConstraintsIsConjunction(constraints[1..], a, b);
      assert forall c :: c in constraints <==> c == constraints[0] || c in constraints[1..];
    }
  }

  /** `is_pairable`: the hard constraints. */
  function IsPairable(a: Person, b: Person): (r: bool)
    ensures a == b ==> r
    ensures a != b ==> (r <==> GenderSeekingConstraint(a, b) && DayPreferenceConstraint(a, b))
  {
    if a == b then true
    else
      EvaluateConstraintsIsConjunction([GenderSeeking, DayPreference], a, b);
      EvaluateConstraints([GenderSeeking, DayPreference], a, b)
  }

  /** `is_pairing_preferred`: the soft constraint. */
  function IsPairingPreferred(a: Person, b: Person): (r: bool)
    ensures a == b ==> r
    ensures a != b ==> (r <==> YearPreferenceConstraint(a, b))
  {
    if a == b then true
    else
      EvaluateConstraintsIsConjunction([YearPreferenceMatch], a, b);
      EvaluateConstraints([YearPreferenceMatch], a, b)
  }

  /** The gender constraint holds iff each side seeks ANY or the other's
      gender, and reads the same from either side. */
  lemma GenderSeekingSymmetric(a: Person, b: Person)
    ensures GenderSeekingConstraint(a, b) <==>
      (a.seeking == Identity.ANY || a.seeking == b.gender) && (b.seeking == Identity.ANY || b.seeking == a.gender)
    ensures GenderSeekingConstraint(a, b) == GenderSeekingConstraint(b, a)
  {
  }

  /** The day constraint is symmetric. */
  lemma DayPreferenceSymmetric(a: Person, b: Person)
    ensures DayPreferenceConstraint(a, b) == DayPreferenceConstraint(b, a)
  {
  }

  /** The three year preferences: ANY is always met, SAME needs the same
      year, DIFFERENT needs different years; a missing one is never met. */
  lemma WantsSameYearCases(p: Option<YearPreference>, same: bool)
    ensures p == Some(YearPreference.ANY) ==> WantsSameYear(p, same)
    ensures p == Some(YearPreference.SAME) ==> (WantsSameYear(p, same) <==> same)
    ensures p == Some(YearPreference.DIFFERENT) ==> (WantsSameYear(p, same) <==> !same)
    ensures p == None ==> !WantsSameYear(p, same)
  {
  }

  /** The year constraint is symmetric. */
  lemma YearPreferenceSymmetric(a: Person, b: Person)
    ensures YearPreferenceConstraint(a, b) == YearPreferenceConstraint(b, a)
  {
  }

  /** A participant whose year answer parsed to None is preferred with no
      one but (a record equal to) themself, whoever the partner is. */
  lemma MissingPreferenceNeverPreferred(a: Person, b: Person)
    requires a.yearPreference == None
    ensures IsPairingPreferred(a, b) <==> a == b
    ensures IsPairingPreferred(b, a) <==> a == b
  {
  }

  /** Both pairwise predicates are symmetric. */
  lemma PairingSymmetric(a: Person, b: Person)
    ensures IsPairable(a, b) == IsPairable(b, a)
    ensures IsPairingPreferred(a, b) == IsPairingPreferred(b, a)
  {
    GenderSeekingSymmetric(a, b);
    DayPreferenceSymmetric(a, b);
    YearPreferenceSymmetric(a, b);
  }

  /** Two participants whose records are equal in every field are "self" to
      each other: always pairable, always preferred, score 0, whatever their
      genders and days. */
  lemma EqualRecordsAreSelf(a: Person, b: Person, cosine: CosineDistance)
    requires a == b
    ensures IsPairable(a, b) && IsPairingPreferred(a, b)
    ensures CompatibilityScore(a, b, cosine) == Ok(0.0)
  {
  }

  /** A participant seeking a gender nobody else has is pairable with no one
      but (a record equal to) themself. */
  lemma UnreachableSeekerOnlySelf(a: Person, b: Person)
    requires a.seeking != Identity.ANY && a.seeking != b.gender
    ensures IsPairable(a, b) <==> a == b
  {
  }
}
