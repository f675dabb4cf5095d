/** The closed categories a survey answer is coerced into, and the three
    `from_string` parsers (date_matching/enum_classes.py). */
module EnumClasses {
  import opened Wrappers
  import opened PyStr

  /** A gender identity, also used for "the genders I am seeking". */
  datatype Identity = MAN | WOMAN | ANY | UNDEFINED
  {
    /** The member's `value`. */
    function Value(): string
    {
      match this
      case MAN => "MAN"
      case WOMAN => "WOMAN"
      case ANY => "ANY"
      case UNDEFINED => "UNDEFINED"
    }
  }

  /** An alias table: each entry names a member and the upper-case strings
      that stand for it, in the dictionary's insertion order. */
  type AliasTable<E> = seq<(E, seq<string>)>

  /** The `for ... in gender_map.items()` search: the first entry whose
      aliases contain `s`. */
  function LookupAlias<E>(table: AliasTable<E>, s: string): (r: Option<E>)
    ensures r.Some? ==> exists i :: 0 <= i < |table| && table[i].0 == r.value && s in table[i].1
    ensures r.None? <==> forall i :: 0 <= i < |table| ==> s !in table[i].1
  {
    if table == [] then None
    else if s in table[0].1 then Some(table[0].0)
    else
      var r := LookupAlias(table[1..], s);
      assert forall i :: 1 <= i < |table| ==> table[i] == table[1..][i - 1];
      r
  }

  /** No string is an alias of two entries. */
  ghost predicate DisjointAliases<E>(table: AliasTable<E>)
  {
    forall i, j, a :: 0 <= i < |table| && 0 <= j < |table| && i != j && a in table[i].1 ==> a !in table[j].1
  }

  /** `gender_map` of `Identity.from_string`. */
  const GenderAliases: AliasTable<Identity> :=
    [ (Identity.ANY, ["NON-BINARY", "EVERYONE", "ANYONE", "ANY", "ALL"]),
      (Identity.WOMAN, ["WOMAN", "WOMEN"]),
      (Identity.MAN, ["MAN", "MEN"]) ]

  /** `Identity.from_string(s)`: upper-case `s`, look it up among the aliases,
      and fall back to UNDEFINED for anything else; it never raises. */
  function IdentityFromString(s: string): (r: Identity)
    ensures Upper(s) in ["NON-BINARY", "EVERYONE", "ANYONE", "ANY", "ALL"] <==> r == Identity.ANY
    ensures Upper(s) in ["WOMAN", "WOMEN"] <==> r == Identity.WOMAN
    ensures Upper(s) in ["MAN", "MEN"] <==> r == Identity.MAN
  {
    match LookupAlias(GenderAliases, Upper(s))
    case Some(g) => g
    case None => Identity.UNDEFINED
  }

  /** In a table whose alias lists are disjoint, the search finds the one
      entry that holds the alias, wherever that entry stands. */
  lemma {:induction false} LookupFindsOwner<E>(table: AliasTable<E>, s: string, i: int)
    requires DisjointAliases(table)
    requires 0 <= i < |table| && s in table[i].1
    ensures LookupAlias(table, s) == Some(table[i].0)
  {
    var r := LookupAlias(table, s);
    var j :| 0 <= j < |table| && table[j].0 == r.value && s in table[j].1;
    assert j == i;
  }

  /** With disjoint alias lists, the result of the search does not depend on
      the order in which the dictionary yields its entries. */
  lemma LookupIgnoresOrder<E>(t1: AliasTable<E>, t2: AliasTable<E>, s: string)
    requires DisjointAliases(t1) && DisjointAliases(t2)
    requires multiset(t1) == multiset(t2)
    ensures LookupAlias(t1, s) == LookupAlias(t2, s)
  {
    if i :| 0 <= i < |t1| && s in t1[i].1 {
      assert t1[i] in multiset(t2);
      var j :| 0 <= j < |t2| && t2[j] == t1[i];
      LookupFindsOwner(t1, s, i);
      LookupFindsOwner(t2, s, j);
    } else {
      forall j | 0 <= j < |t2|
        ensures s !in t2[j].1
      {
        assert t2[j] in multiset(t1);
      }
    }
  }

  /** The three alias lists of `gender_map` are pairwise disjoint. */
  lemma GenderAliasesDisjoint()
    ensures DisjointAliases(GenderAliases)
  {
  }

  /** `Identity.from_string` depends only on the upper-cased input, so it is
      insensitive to case. */
  lemma IdentityCaseInsensitive(s: string)
    ensures IdentityFromString(Upper(s)) == IdentityFromString(s)
    ensures IdentityFromString(Lower(s)) == IdentityFromString(s)
  {
    UpperIdempotent(s);
    UpperOfLower(s);
  }

  /** Any string off the alias lists, in any case, becomes UNDEFINED. */
  lemma IdentityFallback(s: string)
    requires Upper(s) !in ["NON-BINARY", "EVERYONE", "ANYONE", "ANY", "ALL", "WOMAN", "WOMEN", "MAN", "MEN"]
    ensures IdentityFromString(s) == Identity.UNDEFINED
  {
  }

  /** A year of study. */
  datatype Year = FIRST | SECOND | THIRD | FOURTH | POSTGRAD
  {
    function Value(): string
    {
      match this
      case FIRST => "1st Year"
      case SECOND => "2nd Year"
      case THIRD => "3rd Year"
      case FOURTH => "4th Year"
      case POSTGRAD => "Postgraduate"
    }
  }

  /** `Year.from_string(s)`, that is `Year(s)`: the member whose value is
      exactly `s` (case-sensitive); any other string raises ValueError. */
  function YearFromString(s: string): (r: Result<Year>)
    ensures r.Ok? <==> s in ["1st Year", "2nd Year", "3rd Year", "4th Year", "Postgraduate"]
    ensures r.Ok? ==> r.value.Value() == s
    ensures r.Err? ==> r.error == ValueError
  {
    if s == Year.FIRST.Value() then Ok(Year.FIRST)
    else if s == Year.SECOND.Value() then Ok(Year.SECOND)
    else if s == Year.THIRD.Value() then Ok(Year.THIRD)
    else if s == Year.FOURTH.Value() then Ok(Year.FOURTH)
    else if s == Year.POSTGRAD.Value() then Ok(Year.POSTGRAD)
    else Err(ValueError)
  }

  /** Every member is recovered from its value. */
  lemma YearRoundTrip(y: Year)
    ensures YearFromString(y.Value()) == Ok(y)
  {
  }

  /** The partner's year a participant would like. */
  datatype YearPreference = ANY | SAME | DIFFERENT

  /** `YearPreference.from_string(s)`: upper-case `s`, then SAME if it contains
      "SAME", else DIFFERENT if it contains "DIFFERENT", else ANY if it
      contains "OPEN"; otherwise the function falls off its end and returns
      None. */
  function YearPreferenceFromString(s: string): (r: Option<YearPreference>)
    ensures r == Some(YearPreference.SAME) <==> Contains(Upper(s), "SAME")
    ensures r == Some(YearPreference.DIFFERENT) <==> !Contains(Upper(s), "SAME") && Contains(Upper(s), "DIFFERENT")
    ensures r == Some(YearPreference.ANY) <==>
      !Contains(Upper(s), "SAME") && !Contains(Upper(s), "DIFFERENT") && Contains(Upper(s), "OPEN")
  {
    var u := Upper(s);
    if Contains(u, "SAME") then Some(YearPreference.SAME)
    else if Contains(u, "DIFFERENT") then Some(YearPreference.DIFFERENT)
    else if Contains(u, "OPEN") then Some(YearPreference.ANY)
    else None
  }

  /** None exactly when none of the three words occurs, in any case. */
  lemma YearPreferenceNone(s: string)
    ensures YearPreferenceFromString(s) == None <==>
      !Contains(Upper(s), "SAME") && !Contains(Upper(s), "DIFFERENT") && !Contains(Upper(s), "OPEN")
  {
  }

  /** The parser is insensitive to case. */
  lemma YearPreferenceCaseInsensitive(s: string)
    ensures YearPreferenceFromString(Lower(s)) == YearPreferenceFromString(s)
    ensures YearPreferenceFromString(Upper(s)) == YearPreferenceFromString(s)
  {
    UpperIdempotent(s);
    UpperOfLower(s);
  }
}
