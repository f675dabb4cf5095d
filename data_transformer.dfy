/** The pure parts of the survey export transformer (data_transformer.py):
    student-id normalisation, the derived e-mail address, and the literal
    value tables that translate the export's answers into the labels the
    category parsers read. */
module DataTransformer {
  import opened Wrappers
  import opened PyStr
  import opened Dicts
  import opened EnumClasses
  import opened Persons

  /** `format_student_id`: strip, lower-case, and prefix "u" unless it is
      already there. The result starts with "u", has no white space at its
      ends, is lower-case, and ends with the normalised input. */
  function FormatStudentId(studentId: string): (r: string)
    ensures StartsWith(r, "u")
    ensures Stripped(r) && Lower(r) == r
    ensures var t := Lower(Strip(studentId));
      |t| <= |r| <= |t| + 1 && r[|r| - |t|..] == t
    ensures var t := Lower(Strip(studentId));
      StartsWith(t, "u") ==> r == t
  {
    var t := Lower(Strip(studentId));
    StripIsStripped(studentId);
    LowerKeepsStripped(Strip(studentId));
    LowerIdempotent(Strip(studentId));
    if !StartsWith(t, "u") then
      PrefixU(t);
      "u" + t
    else
      t
  }

  /** Prefixing "u" to stripped lower-case text keeps it stripped and
      lower-case. */
  lemma PrefixU(t: string)
    requires Stripped(t) && Lower(t) == t
    ensures StartsWith("u" + t, "u") && ("u" + t)[1..] == t
    ensures Stripped("u" + t) && Lower("u" + t) == "u" + t
  {
    var r := "u" + t;
    assert forall i :: 1 <= i < |r| ==> r[i] == t[i - 1];
    assert forall i :: 0 <= i < |r| ==> Lower(r)[i] == r[i];
  }

  /** Formatting an already formatted id changes nothing. */
  lemma FormatStudentIdIdempotent(studentId: string)
    ensures FormatStudentId(FormatStudentId(studentId)) == FormatStudentId(studentId)
  {
    var r := FormatStudentId(studentId);
    StrippedFixed(r);
  }

  /** The id is lost only in white space and letter case: two raw ids give
      the same formatted id when they agree after stripping and lower-casing. */
  lemma FormatStudentIdNormalises(a: string, b: string)
    requires Lower(Strip(a)) == Lower(Strip(b))
    ensures FormatStudentId(a) == FormatStudentId(b)
  {
  }

  const EMAIL_DOMAIN: string := "@warwick.ac.uk"

  /** The `Email Address` column: the formatted id at the university domain. */
  function EmailAddress(studentId: string): (r: string)
    ensures |r| == |FormatStudentId(studentId)| + |EMAIL_DOMAIN|
    ensures r[..|FormatStudentId(studentId)|] == FormatStudentId(studentId)
    ensures r[|FormatStudentId(studentId)|..] == EMAIL_DOMAIN
    ensures StartsWith(r, "u")
  {
    FormatStudentId(studentId) + EMAIL_DOMAIN
  }

  /** A literal dictionary used with `Series.map`: a missing answer gives
      no value (NaN). */
  type ValueTable = seq<(string, string)>

  function MapAnswer(table: ValueTable, answer: string): (r: Option<string>)
    ensures r.None? <==> answer !in KeysOf(table)
    ensures r.Some? ==> exists i :: 0 <= i < |table| && table[i] == (answer, r.value)
  {
    var i := IndexOf(table, answer);
    if i == -1 then None else Some(table[i].1)
  }

  /** `gender_map` */
  const GenderMap: ValueTable := [("male", "Man"), ("female", "Woman"), ("non-binary", "Non-Binary")]

  /** `date_map` */
  const DateMap: ValueTable := [("11/21/24", "Thursday, 21st Nov"), ("11/22/24", "Friday, 22nd Nov")]

  /** `year_map` */
  const YearMap: ValueTable :=
    [("1", "1st Year"), ("2", "2nd Year"), ("3", "3rd Year"), ("4", "4th Year"), ("postgraduate", "Postgraduate")]

  /** `year_pref_map` */
  const YearPrefMap: ValueTable :=
    [("same", "Same year as me"), ("different", "Different year as me"), ("any", "Open to any year")]

  /** `partner_pref_map` */
  const PartnerPrefMap: ValueTable := [("men", "Men"), ("women", "Women"), ("everyone", "Everyone")]

  /** Every year the transformer writes is a `Year` label, so
      `Year.from_string` accepts it. */
  lemma YearMapParses(answer: string)
    requires answer in KeysOf(YearMap)
    ensures MapAnswer(YearMap, answer).Some?
    ensures YearFromString(MapAnswer(YearMap, answer).value).Ok?
    ensures answer == "1" ==> YearFromString(MapAnswer(YearMap, answer).value) == Ok(Year.FIRST)
    ensures answer == "postgraduate" ==> YearFromString(MapAnswer(YearMap, answer).value) == Ok(Year.POSTGRAD)
  {
  }

  /** The year preferences the transformer writes parse to the intended
      member, never to no value. */
  lemma YearPrefMapParses()
    ensures YearPreferenceFromString(MapAnswer(YearPrefMap, "same").value) == Some(YearPreference.SAME)
    ensures YearPreferenceFromString(MapAnswer(YearPrefMap, "different").value) == Some(YearPreference.DIFFERENT)
    ensures YearPreferenceFromString(MapAnswer(YearPrefMap, "any").value) == Some(YearPreference.ANY)
  {
    SameYearParses();
    DifferentYearParses();
    AnyYearParses();
  }

  lemma SameYearParses()
    ensures YearPreferenceFromString("Same year as me") == Some(YearPreference.SAME)
  {
    UpperIs("Same year as me", "SAME YEAR AS ME");
    StartsWithContains("SAME YEAR AS ME", "SAME");
  }

  lemma DifferentYearParses()
    ensures YearPreferenceFromString("Different year as me") == Some(YearPreference.DIFFERENT)
  {
    UpperIs("Different year as me", "DIFFERENT YEAR AS ME");
    NotContainsByPair("DIFFERENT YEAR AS ME", "SAME");
    StartsWithContains("DIFFERENT YEAR AS ME", "DIFFERENT");
  }

  lemma AnyYearParses()
    ensures YearPreferenceFromString("Open to any year") == Some(YearPreference.ANY)
  {
    UpperIs("Open to any year", "OPEN TO ANY YEAR");
    NotContainsByPair("OPEN TO ANY YEAR", "SAME");
    NotContainsByPair("OPEN TO ANY YEAR", "DIFFERENT");
    StartsWithContains("OPEN TO ANY YEAR", "OPEN");
  }

  /** The identities the transformer writes are all recognised: none
      parses to UNDEFINED, and "Non-Binary" parses to ANY. */
  lemma GenderMapRecognised()
    ensures IdentityFromString(MapAnswer(GenderMap, "male").value) == Identity.MAN
    ensures IdentityFromString(MapAnswer(GenderMap, "female").value) == Identity.WOMAN
    ensures IdentityFromString(MapAnswer(GenderMap, "non-binary").value) == Identity.ANY
  {
    UpperIs("Man", "MAN");
    UpperIs("Woman", "WOMAN");
    UpperIs("Non-Binary", "NON-BINARY");
  }

  /** The partner preferences the transformer writes are all recognised:
      none parses to UNDEFINED, and "Everyone" parses to ANY. */
  lemma PartnerPrefMapRecognised()
    ensures IdentityFromString(MapAnswer(PartnerPrefMap, "men").value) == Identity.MAN
    ensures IdentityFromString(MapAnswer(PartnerPrefMap, "women").value) == Identity.WOMAN
    ensures IdentityFromString(MapAnswer(PartnerPrefMap, "everyone").value) == Identity.ANY
  {
    UpperIs("Men", "MEN");
    UpperIs("Women", "WOMEN");
    UpperIs("Everyone", "EVERYONE");
  }

  /** No written day is the "Either" wildcard, so for two participants whose
      days come from the transformer the day constraint is plain equality. */
  lemma DateMapHasNoWildcard(a: Person, b: Person)
    requires exists i :: 0 <= i < |DateMap| && a.dayChoice == DateMap[i].1
    requires exists j :: 0 <= j < |DateMap| && b.dayChoice == DateMap[j].1
    ensures DayPreferenceConstraint(a, b) <==> a.dayChoice == b.dayChoice
  {
  }
}
