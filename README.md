# Date-pairing matching engine, modelled in Dafny

The system pairs survey respondents for dates. Each participant has a gender, the gender they seek, a preferred day, and a year of study with a year preference. They also have a vector of numeric trait answers. For every pair `(i, j)` with `i < j`, and for each self-pair `(i, i)` ("left unmatched"), the engine declares one binary variable. It then builds an integer linear program:

- maximise the sum of the selected pairs' compatibility scores, less a penalty when a pair's year preferences are not met;
- each participant lies in exactly one selected pair;
- a pair may be selected only if the two participants seek each other's gender and can meet on the same day.

After an external solver has run, the engine reports several statistics:
- the mean score;
- the score of each selected pair;
- how many people were matched;
- the pairs grouped by day;
- a count of matches by gender combination.

A separate transformer normalises a survey export: student ids, e-mail addresses, and the answer tables.

The model follows the source file by file:

| module | file | form |
|---|---|---|
| `EnumClasses` | `enum_classes.dfy` | functions: the three `from_string` parsers |
| `Persons` | `person.dfy` | datatype `Person` and pure predicates |
| `MatchTracking` | `matchtracker.dfy` | class `MatchTracker` with the candidate list and its getters |
| `MatchMaking` | `matchmaker.dfy` | methods with loops that assemble the problem and compute the statistics |
| `DataTransformer` | `data_transformer.dfy` | pure functions and the literal tables |
| `LegacyPerson`, `LegacyMatchMaker` | `legacy_person.dfy`, `legacy_matchmaker.dfy` | the earlier version at the repository root |

Shared modules model Python idioms:
- `Wrappers` holds Option and Result with the Python exceptions as errors.
- `PyStr` holds ASCII `upper`, `lower`, `title`, `strip`, `startswith`, `in` and string `<`.
- `Seqs` holds list comprehensions with an `if`.
- `Dicts` holds insertion-ordered dictionaries and the two `defaultdict` updates.

The solver is outside the model. Its result is a `Valuation`, a function from each variable's key to its `varValue`, together with the objective value it reports. The cosine distance is a parameter.

Several proofs are about any solution the solver might return: a 0/1 valuation that meets the constraints. These are:
- everybody left unmatched is always feasible;
- every participant lies in exactly one selected pair;
- at most `n/2` real pairs are selected, and "people matched" never exceeds `n`;
- without the penalty, the objective is the sum of the selected real pairs' scores.

## Model

| member | source | states |
|---|---|---|
| EnumClasses.LookupAlias | date_matching/enum_classes.py:25-27 | the first table entry whose alias list holds `s`, and None exactly when no list holds it |
| EnumClasses.LookupFindsOwner | date_matching/enum_classes.py:25-27 | with disjoint alias lists, an alias is always mapped to the member that owns it |
| EnumClasses.IdentityFromString | date_matching/enum_classes.py:15-29 | the upper-cased input selects ANY, WOMAN or MAN exactly when it is one of that member's aliases; anything else is UNDEFINED |
| EnumClasses.LookupIgnoresOrder | date_matching/enum_classes.py:20-27 | with disjoint alias lists, the dictionary's iteration order cannot change the result |
| EnumClasses.GenderAliasesDisjoint | date_matching/enum_classes.py:20-24 | no alias belongs to two members |
| EnumClasses.IdentityCaseInsensitive | date_matching/enum_classes.py:17 | the parse does not depend on letter case |
| EnumClasses.IdentityFallback | date_matching/enum_classes.py:29 | every string off the alias lists parses to UNDEFINED |
| EnumClasses.YearFromString | date_matching/enum_classes.py:32-41 | succeeds exactly on the five year labels and returns the member with that value; otherwise ValueError |
| EnumClasses.YearRoundTrip | date_matching/enum_classes.py:39-41 | every member is recovered from its value |
| EnumClasses.YearPreferenceFromString | date_matching/enum_classes.py:49-57 | SAME iff the upper-cased text contains "SAME"; DIFFERENT iff not that but "DIFFERENT"; ANY iff neither but "OPEN" |
| EnumClasses.YearPreferenceNone | date_matching/enum_classes.py:50-57 | the function falls off its end (None) exactly when none of the three words occurs |
| EnumClasses.YearPreferenceCaseInsensitive | date_matching/enum_classes.py:51 | the parse does not depend on letter case |
| Persons.CompatibilityScore | date_matching/person.py:38-55 | 0 for an equal record and for disjoint trait keys; otherwise the cosine similarity, in [0, 1]; AssertionError exactly when that similarity leaves [0, 1] |
| Persons.CommonKeysSymmetric | date_matching/person.py:45 | the common keys are the same from either side |
| Persons.ScoreSymmetric | date_matching/person.py:38-55 | given a symmetric cosine distance the score is symmetric, assertion failures included |
| Persons.ScoreDefinedWhenDistanceBounded | date_matching/person.py:53-54 | a cosine distance in [0, 1] never fails the assertion and gives `1 - distance` |
| Persons.EvaluateConstraintsIsConjunction | date_matching/person.py:118-119 | `_evaluate_constraints` holds iff every listed constraint holds |
| Persons.IsPairable | date_matching/person.py:57-72 | true for an equal record; otherwise iff the gender-seeking and the day constraints both hold |
| Persons.IsPairingPreferred | date_matching/person.py:74-86 | true for an equal record; otherwise iff the year-preference constraint holds |
| Persons.GenderSeekingSymmetric | date_matching/person.py:104-110 | each side seeks ANY or the other's gender; symmetric |
| Persons.DayPreferenceSymmetric | date_matching/person.py:112-116 | the day constraint is symmetric |
| Persons.WantsSameYearCases | date_matching/person.py:92-97 | ANY is always met, SAME needs the same year, DIFFERENT a different one, and a missing (None) preference is never met |
| Persons.YearPreferenceSymmetric | date_matching/person.py:88-102 | the year constraint is symmetric |
| Persons.MissingPreferenceNeverPreferred | date_matching/person.py:74-102 | a participant whose stored year preference is None is preferred, from either side, only with an equal record |
| Persons.PairingSymmetric | date_matching/person.py:57-86 | `is_pairable` and `is_pairing_preferred` are symmetric |
| Persons.EqualRecordsAreSelf | date_matching/person.py:42-43 | records equal in every field are pairable, preferred and score 0 |
| Persons.UnreachableSeekerOnlySelf | date_matching/person.py:67-72 | someone seeking a gender the other lacks is pairable only with an equal record |
| MatchTracking.AllCombinations | date_matching/matching/matchtracker.py:13 | PuLP's `allcombinations(range(n), 2)` yields combinations of one or two members |
| MatchTracking.DistinctCountOfShort | date_matching/matching/matchtracker.py:13 | `len(set(c)) == 2` holds exactly for a two-member combination of different indices |
| MatchTracking.RealPairsFromAllCombinations | date_matching/matching/matchtracker.py:13 | keeping the combinations with two distinct members leaves exactly the `i < j` pairs, in lexicographic order |
| MatchTracking.CandidatesShape | date_matching/matching/matchtracker.py:13-14 | the candidates are exactly the pairs `i <= j < n`, each once, `n(n-1)/2 + n` in all; the real pairs come first in strict lexicographic order, then the self-pairs |
| MatchTracking.VariablesForPersonShape | date_matching/matching/matchtracker.py:17-18 | a participant has exactly `n` variables, the pairs containing its index; another index has none |
| MatchTracking.SelfPairOfPerson | date_matching/matching/matchtracker.py:14-18 | a participant's only self-pair is `(idx, idx)` |
| MatchTracking.MatchTracker.constructor | date_matching/matching/matchtracker.py:11-14 | stores the participants, then builds the filtered combinations and `+=` the self-pairs |
| MatchTracking.MatchTracker.VariablesForPerson | date_matching/matching/matchtracker.py:17-18 | the candidates containing `idx`, `n` of them for a participant |
| MatchTracking.MatchTracker.VariablesToPeople | date_matching/matching/matchtracker.py:21-25 | one `(variable, persons[i], persons[j])` per candidate, in order |
| MatchTracking.MatchTracker.TruePossibleMatches | date_matching/matching/matchtracker.py:38-41 | the candidates whose value is positive, in candidate order, without repeats |
| MatchTracking.MatchTracker.TrueVariables | date_matching/matching/matchtracker.py:28-29 | the variables of the selected candidates |
| MatchTracking.MatchTracker.Matches | date_matching/matching/matchtracker.py:32-36 | the two participants of each selected candidate, in order |
| MatchMaking.Coefficient | date_matching/matching/matchmaker.py:45-47 | the score when the pair is preferred, the score less the penalty multiplier when not; AssertionError when the score fails |
| MatchMaking.SelfCoefficientZero | date_matching/matching/matchmaker.py:45-47 | a self-pair's coefficient is exactly 0 |
| MatchMaking.ZeroPenaltyCoefficientIsScore | date_matching/matching/matchmaker.py:47 | with a zero multiplier every coefficient is the score |
| MatchMaking.CoefficientRange | date_matching/matching/matchmaker.py:45-47 | a coefficient lies in [-multiplier, 1], and is negative only for a pair that is not preferred |
| MatchMaking.MissingPreferencePenalised | date_matching/matching/matchmaker.py:45-47 | a real pair with a None year preference on either side always carries the full penalty |
| MatchMaking.ObjectiveTerms | date_matching/matching/matchmaker.py:43-49 | one term per candidate, in order, with its coefficient; AssertionError exactly when some candidate's score fails |
| MatchMaking.AssignmentConstraints | date_matching/matching/matchmaker.py:52-54 | one constraint per participant: its variables sum to 1 |
| MatchMaking.PairabilityConstraints | date_matching/matching/matchmaker.py:57-58 | one bound per candidate: at most 1 if pairable, else 0 |
| MatchMaking.InitialiseProblem | date_matching/matching/matchmaker.py:35-61 | the objective, then `n` assignment constraints, then one pairability bound per candidate; fails exactly when a score does |
| MatchMaking.BinarySumCounts | date_matching/matching/matchmaker.py:54 | under a 0/1 valuation a sum of variables counts the selected ones |
| MatchMaking.AllSelfPairsFeasible | date_matching/matching/matchmaker.py:52-58 | everybody unmatched meets every constraint, so the problem is always feasible |
| MatchMaking.FeasibleCoversEachOnce | date_matching/matching/matchmaker.py:52-54 | under any feasible 0/1 valuation every participant lies in exactly one selected pair |
| MatchMaking.FeasibleRealPairsBound | date_matching/matching/matchmaker.py:52-54 | selected pairs plus selected real pairs number `n`, and at most `n/2` real pairs are selected |
| MatchMaking.ObjectiveAsScoreSum | date_matching/matching/matchmaker.py:43-49 | an objective of scores, 0 on self-pairs, sums under a 0/1 valuation to the scores of the selected real pairs |
| MatchMaking.ObjectiveValueWithoutPenalty | date_matching/matching/matchmaker.py:43-49 | with a zero multiplier the objective is the sum of the scores of the selected real pairs |
| MatchMaking.ObjectiveValueIsCoefficientSum | date_matching/matching/matchmaker.py:43-49 | with any multiplier the objective under a 0/1 valuation is the sum of the coefficients of the selected real pairs |
| MatchMaking.MeanScoreIsMatchedCoefficients | date_matching/matching/matchmaker.py:68 | when the reported objective is that of the solved 0/1 valuation, the logged mean is twice the selected real pairs' coefficient sum over `n` |
| MatchMaking.Solve | date_matching/matching/matchmaker.py:63-79 | ZeroDivisionError exactly when there is nobody; otherwise the mean is `2 * objective / n`, each match's score is in order, and the matched count is 2 per match of two different records |
| MatchMaking.ScoreMatches | date_matching/matching/matchmaker.py:70-76 | the loop: the scores in order, and 2 per match whose records differ |
| MatchMaking.MatchScoresDefined | date_matching/matching/matchmaker.py:73-74 | every selected pair's score is defined once the problem could be built |
| MatchMaking.DifferentRecordsCount | date_matching/matching/matchmaker.py:75-76 | counting by record inequality gives at most the number of real pairs, and exactly that when records are pairwise distinct |
| MatchMaking.NumMatchesBound | date_matching/matching/matchmaker.py:70-79 | under a feasible 0/1 valuation the matched count is at most `n`; with distinct records, `n` minus it is the number of selected self-pairs |
| MatchMaking.GetDayOrEither | date_matching/matching/matchmaker.py:96-97 | one of the two days, the first whenever it is not "Either", and "Either" only when both are |
| MatchMaking.PairDayAgreed | date_matching/matching/matchmaker.py:96-104 | for a pair meeting the day constraint the listed day is the same from either side and suits both |
| MatchMaking.ScheduleByDay | date_matching/matching/matchmaker.py:99-106 | the buckets group the selected pairs by day, self-pairs under "Unmatched": one entry per heading, each in selection order, none empty, all pairs counted |
| MatchMaking.GroupByDay | date_matching/matching/matchmaker.py:99-106 | the loop leaves the dictionary that appending each selected pair under its heading, in order, builds |
| MatchMaking.ScheduleListsEveryPair | date_matching/matching/matchmaker.py:99-106 | each selected pair is listed under its own heading and under no other |
| MatchMaking.GenderLabels | date_matching/matching/matchmaker.py:123 | `gender.value.title()` is "Man", "Woman", "Any" or "Undefined" |
| MatchMaking.GenderPairKeySymmetric | date_matching/matching/matchmaker.py:124-125 | sorting the two labels makes the key independent of the pair's order |
| MatchMaking.GenderPairingStats | date_matching/matching/matchmaker.py:118-125 | for each key, the number of matches of two different records with that key; no zero or missing keys; the counts sum to the number of such matches |
| MatchMaking.CountGenderPairs | date_matching/matching/matchmaker.py:120-125 | the loop leaves the dictionary that counting each match of two different records under its key, in order, builds |
| DataTransformer.FormatStudentId | data_transformer.py:5-18 | starts with "u", stripped and lower-case, ends with the stripped lower-cased input and is at most one longer; unchanged if that already starts with "u" |
| DataTransformer.FormatStudentIdIdempotent | data_transformer.py:15-18 | formatting twice is formatting once |
| DataTransformer.FormatStudentIdNormalises | data_transformer.py:15 | ids that agree after strip and lower format alike |
| DataTransformer.EmailAddress | data_transformer.py:38-40 | the formatted id followed by "@warwick.ac.uk" |
| DataTransformer.MapAnswer | data_transformer.py:50 | the table's value for the answer, none exactly when the answer is no key |
| DataTransformer.YearMapParses | data_transformer.py:60-67 | every year the transformer writes is accepted by `Year.from_string` |
| DataTransformer.YearPrefMapParses | data_transformer.py:70-75 | the three year preferences written parse to SAME, DIFFERENT and ANY |
| DataTransformer.SameYearParses | data_transformer.py:71 | "Same year as me" parses to SAME |
| DataTransformer.DifferentYearParses | data_transformer.py:72 | "Different year as me" parses to DIFFERENT |
| DataTransformer.AnyYearParses | data_transformer.py:73 | "Open to any year" parses to ANY |
| DataTransformer.GenderMapRecognised | data_transformer.py:45-50 | "male" and "female" become MAN and WOMAN; "non-binary" becomes ANY |
| DataTransformer.PartnerPrefMapRecognised | data_transformer.py:84-89 | "men", "women" and "everyone" become MAN, WOMAN and ANY |
| DataTransformer.DateMapHasNoWildcard | data_transformer.py:53-57 | the transformer's two days include no "Either", so the day constraint then means the same day |
| LegacyPerson.IdentificationFromString | person.py:15-29 | the same alias lists, case folding and fallback as the newer parser |
| LegacyPerson.AsIdentity | person.py:9-13 | the newer enum member with the same value |
| LegacyPerson.AsIdentityInjective | person.py:9-13 | the correspondence between the two enums is one to one |
| LegacyPerson.IdentificationAgrees | person.py:15-29 | the legacy and the newer gender parsers agree on every input |
| LegacyPerson.MatrixSimilarity | person.py:59-74 | 0 for an equal record and for disjoint keys, otherwise `1 - cosine` over the common keys, with no range check |
| LegacyPerson.SimilaritySymmetric | person.py:59-74 | given a symmetric cosine distance the similarity is symmetric |
| LegacyPerson.Upgrade | person.py:35-42 | a legacy record as a newer one with the same fields |
| LegacyPerson.UpgradeInjective | person.py:35-42 | upgraded records are equal exactly when the legacy ones are |
| LegacyPerson.ScoreIsCheckedSimilarity | person.py:59-74 | the newer score is the legacy similarity if in [0, 1], AssertionError otherwise |
| LegacyPerson.ConstraintsSymmetric | person.py:102-114 | both constraint helpers are symmetric |
| LegacyPerson.ConstraintsAgree | person.py:102-114 | both helpers are the newer constraints read on upgraded records |
| LegacyPerson.IsPairable | person.py:86-94 | always true: the partial objects are truthy and are never called |
| LegacyPerson.IsPairableIgnoresConstraints | person.py:86-94 | two men who both seek women and chose different days are still pairable |
| LegacyPerson.AllCalledIsConjunction | person.py:89-94 | calling every partial object is the conjunction of the constraints |
| LegacyPerson.IntendedIsPairable | person.py:76-94 | with the constraints called: an equal record, or both constraints hold |
| LegacyPerson.IntendedIsPairableAgrees | person.py:76-94 | the intended rule is symmetric and equals the newer `is_pairable` on upgraded records |
| LegacyPerson.IsPairingPreferred | person.py:96-100 | returns None for every pair |
| LegacyMatchMaker.UpperTriangleKeys | matchmaker.py:50-53 | the pairs the pairability loop visits are exactly the candidate keys |
| LegacyMatchMaker.UpperTriangleOnce | matchmaker.py:50-53 | it visits `n(n+1)/2` pairs, each once, in row-major order |
| LegacyMatchMaker.CreateMatchVariables | matchmaker.py:23-25 | the candidate list is the newer one: the pairs `i <= j < n`, `n(n-1)/2 + n` of them |
| LegacyMatchMaker.ObjectiveTerms | matchmaker.py:33-38 | one term per candidate with the plain similarity as coefficient (no penalty), 0 on self-pairs |
| LegacyMatchMaker.AssignmentConstraints | matchmaker.py:41-46 | one constraint per participant over exactly its `n` variables, summing to 1 |
| LegacyMatchMaker.MatchesForPerson | matchmaker.py:43-45 | the inner loop collects the candidates containing `idx`, in order |
| LegacyMatchMaker.PairabilityConstraints | matchmaker.py:50-53 | one bound per upper-triangle pair in loop order, at most `is_pairable`, which is 1 every time |
| LegacyMatchMaker.PairabilityRow | matchmaker.py:51-53 | the inner loop emits the bounds of `(idx, idx)` up to `(idx, n-1)` |
| LegacyMatchMaker.InitialiseProblem | matchmaker.py:29-55 | the objective, `n` assignment constraints, then the `n(n+1)/2` bounds; it cannot fail |
| LegacyMatchMaker.BoundsExcludeNothing | matchmaker.py:50-53 | under a 0/1 valuation the constraints hold exactly when the assignment constraints do |
| LegacyMatchMaker.AnyPairPermitted | matchmaker.py:50-53 | every pair's variable is bounded by 1, whatever the genders and days |
| LegacyMatchMaker.ObjectiveValueIsSimilaritySum | matchmaker.py:33-38 | under a 0/1 valuation the objective is the sum of the selected real pairs' similarities |
| LegacyMatchMaker.MeanScoreIsMatchedSimilarity | matchmaker.py:62 | when the reported objective is that of the solved 0/1 valuation, the logged mean is the selected real pairs' similarity sum over `n` |
| LegacyMatchMaker.Solve | matchmaker.py:58-80 | ZeroDivisionError exactly when there is nobody; otherwise mean times `n` is the objective (half the newer figure); each selected candidate's similarity in order; 2 matched per selected real pair; not matched is `n` minus that |
| LegacyMatchMaker.CountMatches | matchmaker.py:64-71 | the loop over candidates with positive value: scores in order, 2 per pair of different indices |
| LegacyMatchMaker.NotMatchedIsSelfPairs | matchmaker.py:79-80 | under a feasible 0/1 valuation "not matched" is the number of selected self-pairs, never negative |

## Left out

- Solving: the PuLP/CBC call, solver status, `writeLP` and the LP file. The solver's answer is a parameter: the valuation plus the objective value it reports.
- The numerics of `scipy.spatial.distance.cosine` (floating point, NaN, vector order over a set). The distance is an uninterpreted function of the two trait maps restricted to their common keys; reals stand in for floats.
- `Person.build` (both versions) and `_initialise_participants`: they read pandas rows and select columns by `isinstance(v, float)`. Participants are given as values.
- The body of `transform_csv_for_matching` beyond its literal tables and the e-mail column: CSV and DataFrame I/O, timestamp formatting, `str.capitalize`, the `purchased` filter and the float rounding.
- `main.py`, `v1.py`, `v1.1.py`, `date_matching/matching/utils.py`, and every `print` and `logging` call. The logged values are returned instead.
- `log_matches`: it only calls the two logging methods, which are modelled without their printing.
- `MatchMaker` as a class. Its fields are written once in `__init__`, so its methods take the tracker (or the participants and candidates) as parameters.
- PyStr: case mapping and `title` cover ASCII letters only. `str(student_id)` of a non-string id is not modelled; ids are strings.
- `varValue` before solving (None) is not modelled; the valuation is total.
- MatchMaking.Solve requires every candidate's score to be defined. A `MatchMaker` exists only once `_initialse_problem` has scored every candidate without an AssertionError.
- MatchMaking.Solve: `num_matches` counts, as the source does, matches of two records that differ in some field. MatchMaking.DifferentRecordsCount relates this to the number of selected real pairs: the two are equal when no two participants have identical records.
- LegacyMatchMaker.Solve: the mean divides by `n` as a real number. A Python `value(...)` of None is not modelled.

## Findings

| source | as written | input that shows it | evidently intended | confidence | as-written member | corrected member |
|---|---|---|---|---|---|---|
| person.py:86-94 | `is_pairable` returns `all(map(constraint, constraints))` over `functools.partial` objects that are never called; a partial object is always truthy, so every pair is pairable and the legacy pairability bounds are all 1 | two different participants, both MAN seeking WOMAN, who chose "Monday" and "Tuesday" | call each constraint on `other`: an equal record, or both the gender-seeking and the day constraint hold (what date_matching/person.py:57-72 does) | not executed | LegacyPerson.IsPairableIgnoresConstraints | LegacyPerson.IntendedIsPairable |
