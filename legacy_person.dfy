/** The earlier participant model at the repository root (person.py): its
    own identity enum, a trait-vector similarity without the range check,
    and an `is_pairable` whose constraints are built but never called. */
module LegacyPerson {
  import opened Wrappers
  import opened PyStr
  import opened EnumClasses
  import Persons

  /** The `Identification` enum. */
  datatype Identification = MAN | WOMAN | ANY | UNDEFINED
  {
    /** The member's `value`, which is also what `__str__` returns. */
    function Value(): string
    {
      match this
      case MAN => "MAN"
      case WOMAN => "WOMAN"
      case ANY => "ANY"
      case UNDEFINED => "UNDEFINED"
    }
  }

  /** `gender_map` of `Identification.from_string`. */
  const IdentificationAliases: AliasTable<Identification> :=
    [ (Identification.ANY, ["NON-BINARY", "EVERYONE", "ANYONE", "ANY", "ALL"]),
      (Identification.WOMAN, ["WOMAN", "WOMEN"]),
      (Identification.MAN, ["MAN", "MEN"]) ]

  /** `Identification.from_string(s)`: upper-case `s`, return the first member
      whose aliases hold it, else UNDEFINED. */
  function IdentificationFromString(s: string): (r: Identification)
    ensures Upper(s) in ["NON-BINARY", "EVERYONE", "ANYONE", "ANY", "ALL"] <==> r == Identification.ANY
    ensures Upper(s) in ["WOMAN", "WOMEN"] <==> r == Identification.WOMAN
    ensures Upper(s) in ["MAN", "MEN"] <==> r == Identification.MAN
  {
    match LookupAlias(IdentificationAliases, Upper(s))
    case Some(g) => g
    case None => Identification.UNDEFINED
  }

  /** The member of the newer `Identity` enum with the same value. */
  function AsIdentity(g: Identification): (r: Identity)
    ensures r.Value() == g.Value()
  {
    match g
    case MAN => Identity.MAN
    case WOMAN => Identity.WOMAN
    case ANY => Identity.ANY
    case UNDEFINED => Identity.UNDEFINED
  }

  /** The two enums carry the same values, so the correspondence is one to
      one. */
  lemma AsIdentityInjective(g1: Identification, g2: Identification)
    ensures AsIdentity(g1) == AsIdentity(g2) <==> g1 == g2
  {
    if AsIdentity(g1) == AsIdentity(g2) {
      assert g1.Value() == g2.Value();
    }
  }

  /** The legacy parser and the newer one agree on every input: same alias
      table, same case folding, same fallback. */
  lemma IdentificationAgrees(s: string)
    ensures AsIdentity(IdentificationFromString(s)) == IdentityFromString(s)
  {
  }

  /** The legacy `Person` dataclass; `==` compares every field. */
  datatype Person = Person(
    name: string,
    studentId: string,
    gender: Identification,
    seeking: Identification,
    matrix: map<string, real>,
    dayChoice: string)

  function CommonKeys(a: Person, b: Person): set<string>
  {
    a.matrix.Keys * b.matrix.Keys
  }

  /** `matrix_similarity`: 0 for the same person and for disjoint trait keys,
      otherwise `1 - cosine` over the common keys; unlike the newer
      `compatibility_score` it asserts no range. */
  function MatrixSimilarity(a: Person, b: Person, cosine: Persons.CosineDistance): (r: real)
    ensures a == b ==> r == 0.0
    ensures a != b && CommonKeys(a, b) == {} ==> r == 0.0
    ensures a != b && CommonKeys(a, b) != {} ==>
      r == 1.0 - cosine(Persons.Restrict(a.matrix, CommonKeys(a, b)), Persons.Restrict(b.matrix, CommonKeys(a, b)))
  {
    if a == b then 0.0
    else
      var keys := CommonKeys(a, b);
      if |keys| == 0 then 0.0
      else 1.0 - cosine(Persons.Restrict(a.matrix, keys), Persons.Restrict(b.matrix, keys))
  }

  /** Given a symmetric cosine distance, the similarity is symmetric. */
  lemma SimilaritySymmetric(a: Person, b: Person, cosine: Persons.CosineDistance)
    requires forall u, v :: cosine(u, v) == cosine(v, u)
    ensures MatrixSimilarity(a, b, cosine) == MatrixSimilarity(b, a, cosine)
  {
    assert CommonKeys(a, b) == CommonKeys(b, a);
  }

  /** The newer record for a legacy one: the same fields, the genders mapped
      by value, and a year and year preference the legacy survey did not
      ask for. */
  function Upgrade(p: Person, year: Year, preference: Option<YearPreference>): (r: Persons.Person)
    ensures r.matrix == p.matrix && r.dayChoice == p.dayChoice
    ensures r.gender.Value() == p.gender.Value() && r.seeking.Value() == p.seeking.Value()
  {
    Persons.Person(p.name, p.studentId, AsIdentity(p.gender), AsIdentity(p.seeking), p.matrix, p.dayChoice, year, preference)
  }

  /** Two legacy records upgraded with the same year data are equal exactly
      when they were equal. */
  lemma UpgradeInjective(a: Person, b: Person, year: Year, preference: Option<YearPreference>)
    ensures Upgrade(a, year, preference) == Upgrade(b, year, preference) <==> a == b
  {
    AsIdentityInjective(a.gender, b.gender);
    AsIdentityInjective(a.seeking, b.seeking);
  }

  /** The newer `compatibility_score` is the legacy similarity with the
      range check added: it returns the similarity when that lies in [0, 1]
      and fails its assertion otherwise. */
  lemma ScoreIsCheckedSimilarity(a: Person, b: Person, year: Year, preference: Option<YearPreference>, cosine: Persons.CosineDistance)
    ensures var sim := MatrixSimilarity(a, b, cosine);
      Persons.CompatibilityScore(Upgrade(a, year, preference), Upgrade(b, year, preference), cosine) ==
        if 0.0 <= sim <= 1.0 then Ok(sim) else Err(AssertionError)
  {
    UpgradeInjective(a, b, year, preference);
  }

  /** `_gender_seeking_constraint`. */
  predicate GenderSeekingConstraint(a: Person, b: Person)
  {
    var wanting := a.seeking == Identification.ANY || a.seeking == b.gender;
    var otherWanting := b.seeking == Identification.ANY || b.seeking == a.gender;
    wanting && otherWanting
  }

  /** `_day_preference_constraint`: the same day, or "Either" on one side. */
  predicate DayPreferenceConstraint(a: Person, b: Person)
  {
    a.dayChoice == b.dayChoice || a.dayChoice == Persons.EITHER || b.dayChoice == Persons.EITHER
  }

  /** Both constraints are symmetric. */
  lemma ConstraintsSymmetric(a: Person, b: Person)
    ensures GenderSeekingConstraint(a, b) == GenderSeekingConstraint(b, a)
    ensures DayPreferenceConstraint(a, b) == DayPreferenceConstraint(b, a)
  {
  }

  /** The two constraints are the newer ones, read on the upgraded records. */
  lemma ConstraintsAgree(a: Person, b: Person, year: Year, preference: Option<YearPreference>)
    ensures GenderSeekingConstraint(a, b) ==
      Persons.GenderSeekingConstraint(Upgrade(a, year, preference), Upgrade(b, year, preference))
    ensures DayPreferenceConstraint(a, b) ==
      Persons.DayPreferenceConstraint(Upgrade(a, year, preference), Upgrade(b, year, preference))
  {
    AsIdentityInjective(a.seeking, b.gender);
    AsIdentityInjective(b.seeking, a.gender);
  }

  /** The two bound methods `is_pairable` lists. */
  datatype ConstraintMethod = GenderSeeking | DayPreference

  /** `partial(func, other)`: a constraint of `self` with `other` bound, not
      yet called. */
  datatype Partial = Partial(func: ConstraintMethod, self: Person, other: Person)

  /** The truth value of a `functools.partial` object: it defines neither
      `__bool__` nor `__len__`, so it is always true. */
  predicate Truthy(p: Partial)
  {
    true
  }

  /** Calling the partial object: what the constraint would have returned. */
  predicate Call(p: Partial)
  {
    match p.func
    case GenderSeeking => GenderSeekingConstraint(p.self, p.other)
    case DayPreference => DayPreferenceConstraint(p.self, p.other)
  }

  /** `all(xs)`: every element is truthy. */
  predicate All(ps: seq<Partial>)
  {
    if ps == [] then true else Truthy(ps[0]) && All(ps[1..])
  }

  /** `all(map(constraint, constraints))`: the partial objects themselves. */
  function Partials(constraints: seq<ConstraintMethod>, a: Person, b: Person): (r: seq<Partial>)
    ensures |r| == |constraints|
    ensures forall i :: 0 <= i < |r| ==> r[i] == Partial(constraints[i], a, b)
  {
    seq(|constraints|, i requires 0 <= i < |constraints| => Partial(constraints[i], a, b))
  }

  /** `all` of partial objects holds, whatever they would compute. */
  lemma {:induction false} AllPartialsTruthy(ps: seq<Partial>)
    ensures All(ps)
  {
    if ps != [] {
      AllPartialsTruthy(ps[1..]);
    }
  }

  /** `is_pairable` as written: true for every pair of participants. */
  function IsPairable(a: Person, b: Person): (r: bool)
    ensures r
  {
    if a == b then true
    else
      var ps := Partials([GenderSeeking, DayPreference], a, b);
      AllPartialsTruthy(ps);
      All(ps)
  }

  /** Two different participants who both seek women, are both men and want
      different days are still pairable. */
  lemma IsPairableIgnoresConstraints()
    ensures var a := Person("A", "u1", Identification.MAN, Identification.WOMAN, map[], "Monday");
      var b := Person("B", "u2", Identification.MAN, Identification.WOMAN, map[], "Tuesday");
      && a != b
      && IsPairable(a, b)
      && !GenderSeekingConstraint(a, b)
      && !DayPreferenceConstraint(a, b)
  {
  }

  /** `all(c(other) for c in constraints)`: every listed constraint, called. */
  predicate AllCalled(ps: seq<Partial>)
  {
    if ps == [] then true else Call(ps[0]) && AllCalled(ps[1..])
  }

  /** Calling every partial object is the conjunction of their results. */
  lemma {:induction false} AllCalledIsConjunction(ps: seq<Partial>)
    ensures AllCalled(ps) <==> forall i :: 0 <= i < |ps| ==> Call(ps[i])
  {
    if ps != [] {
      AllCalledIsConjunction(ps[1..]);
      assert forall i :: 1 <= i < |ps| ==> ps[i] == ps[1..][i - 1];
    }
  }

  /** `is_pairable` with each constraint called, as its docstring describes:
      the same person, or both constraints hold. */
  function IntendedIsPairable(a: Person, b: Person): (r: bool)
    ensures a == b ==> r
    ensures a != b ==> (r <==> GenderSeekingConstraint(a, b) && DayPreferenceConstraint(a, b))
  {
    var ps := Partials([GenderSeeking, DayPreference], a, b);
    AllCalledIsConjunction(ps);
    a == b || AllCalled(ps)
  }

  /** The intended rule is symmetric and is what the newer `is_pairable`
      computes on the upgraded records. */
  lemma IntendedIsPairableAgrees(a: Person, b: Person, year: Year, preference: Option<YearPreference>)
    ensures IntendedIsPairable(a, b) == IntendedIsPairable(b, a)
    ensures IntendedIsPairable(a, b) ==
      Persons.IsPairable(Upgrade(a, year, preference), Upgrade(b, year, preference))
  {
    ConstraintsSymmetric(a, b);
    ConstraintsAgree(a, b, year, preference);
    UpgradeInjective(a, b, year, preference);
  }

  /** `is_pairing_preferred`: a docstring and no statement, so it returns
      None for every pair. */
  function IsPairingPreferred(a: Person, b: Person): (r: Option<bool>)
    ensures r.None?
  {
    None
  }
}
