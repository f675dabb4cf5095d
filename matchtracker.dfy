/** The candidate-pair space (date_matching/matching/matchtracker.py): every
    pair `(i, j)` with `i < j`, then every self-pair `(i, i)` ("i stays
    unmatched"), each standing for one binary decision variable. */
module MatchTracking {
  import opened Seqs
  import opened Persons

  /** A candidate pair of participant indices; it also names its variable. */
  type Key = (int, int)

  /** The solver's `varValue` for each variable, once it has solved. */
  type Valuation = Key -> real

  /** `itertools.combinations(range(n), 2)` from the pair `(i, j)` on: row `i`
      with second components `j .. n-1`. */
  function Row(i: int, j: int, n: int): seq<Key>
    decreases n - j
  {
    if j >= n then [] else [(i, j)] + Row(i, j + 1, n)
  }

  /** The 2-combinations of `range(n)` whose first component is at least `i`,
      in lexicographic order. */
  function PairsFrom(i: int, n: int): seq<Key>
    decreases n - i
  {
    if i >= n then [] else Row(i, i + 1, n) + PairsFrom(i + 1, n)
  }

  /** PuLP's `allcombinations(range(n), k=2)`: the 1-combinations, then the
      2-combinations. */
  function AllCombinations(n: nat): (r: seq<seq<int>>)
    ensures forall c :: c in r ==> 1 <= |c| <= 2
  {
    var pairs := PairsFrom(0, n);
    seq(n, i => [i]) + seq(|pairs|, k requires 0 <= k < |pairs| => [pairs[k].0, pairs[k].1])
  }

  lemma DistinctCountOfShort(c: seq<int>)
    requires 1 <= |c| <= 2
    ensures |set x | x in c| == 2 <==> |c| == 2 && c[0] != c[1]
  {
    if |c| == 1 {
      assert (set x | x in c) == {c[0]};
    } else {
      assert (set x | x in c) == {c[0], c[1]};
    }
  }

  /** `[tuple(c) for c in combinations if len(set(c)) == 2]`. */
  function KeepDistinctPairs(cs: seq<seq<int>>): seq<Key>
    requires forall c :: c in cs ==> 1 <= |c| <= 2
  {
    if cs == [] then []
    else
      DistinctCountOfShort(cs[0]);
      (if |set x | x in cs[0]| == 2 then [(cs[0][0], cs[0][1])] else []) + KeepDistinctPairs(cs[1..])
  }

  /** The self-pairs `(0,0) .. (n-1,n-1)`. */
  function SelfPairs(n: nat): seq<Key>
  {
    seq(n, i => (i, i))
  }

  /** The whole candidate list `possible_matches` for `n` participants. */
  function Candidates(n: nat): seq<Key>
  {
    PairsFrom(0, n) + SelfPairs(n)
  }

  lemma {:induction false} RowShape(i: int, j: int, n: int)
    ensures |Row(i, j, n)| == if j < n then n - j else 0
    ensures forall k :: 0 <= k < |Row(i, j, n)| ==> Row(i, j, n)[k] == (i, j + k)
    decreases n - j
  {
    if j < n {
      RowShape(i, j + 1, n);
    }
  }

  lemma {:induction false} PairsFromMembership(i: int, n: int, key: Key)
    ensures key in PairsFrom(i, n) <==> i <= key.0 < key.1 < n
    decreases n - i
  {
    if i < n {
      PairsFromMembership(i + 1, n, key);
      RowShape(i, i + 1, n);
      var row := Row(i, i + 1, n);
      if key.0 == i && i < key.1 < n {
        assert row[key.1 - i - 1] == key;
      }
    }
  }

  lemma {:induction false} PairsFromLength(i: int, n: int)
    requires i <= n
    ensures 2 * |PairsFrom(i, n)| == (n - i) * (n - i - 1)
    decreases n - i
  {
    if i < n {
      PairsFromLength(i + 1, n);
      RowShape(i, i + 1, n);
    }
  }

  /** Strict lexicographic order on pairs. */
  predicate LexLess(a: Key, b: Key)
  {
    a.0 < b.0 || (a.0 == b.0 && a.1 < b.1)
  }

  ghost predicate StrictlyIncreasing(s: seq<Key>)
  {
    forall x, y :: 0 <= x < y < |s| ==> LexLess(s[x], s[y])
  }

  /** Two increasing runs, the first wholly below the second, make an
      increasing run. */
  lemma ConcatIncreasing(a: seq<Key>, b: seq<Key>)
    requires StrictlyIncreasing(a) && StrictlyIncreasing(b)
    requires forall x, y :: 0 <= x < |a| && 0 <= y < |b| ==> LexLess(a[x], b[y])
    ensures StrictlyIncreasing(a + b)
  {
    var s := a + b;
    forall x, y | 0 <= x < y < |s| ensures LexLess(s[x], s[y]) {
      if y < |a| {
        assert s[x] == a[x] && s[y] == a[y];
      } else if x < |a| {
        assert s[x] == a[x] && s[y] == b[y - |a|];
      } else {
        assert s[x] == b[x - |a|] && s[y] == b[y - |a|];
      }
    }
  }

  lemma RowIncreasing(i: int, j: int, n: int)
    ensures StrictlyIncreasing(Row(i, j, n))
  {
    RowShape(i, j, n);
  }

  lemma {:induction false} PairsFromIncreasing(i: int, n: int)
    ensures StrictlyIncreasing(PairsFrom(i, n))
    decreases n - i
  {
    if i < n {
      PairsFromIncreasing(i + 1, n);
      RowShape(i, i + 1, n);
      RowIncreasing(i, i + 1, n);
      var row, rest := Row(i, i + 1, n), PairsFrom(i + 1, n);
      forall x, y | 0 <= x < |row| && 0 <= y < |rest| ensures LexLess(row[x], rest[y]) {
        assert rest[y] in rest;
        PairsFromMembership(i + 1, n, rest[y]);
      }
      ConcatIncreasing(row, rest);
    }
  }

  lemma {:induction false} KeepDistinctPairsAppend(cs: seq<seq<int>>, ds: seq<seq<int>>)
    requires forall c :: c in cs ==> 1 <= |c| <= 2
    requires forall c :: c in ds ==> 1 <= |c| <= 2
    ensures KeepDistinctPairs(cs + ds) == KeepDistinctPairs(cs) + KeepDistinctPairs(ds)
  {
    if cs == [] {
      assert cs + ds == ds;
    } else {
      assert cs[0] in cs;
      DistinctCountOfShort(cs[0]);
      var h := if |set x | x in cs[0]| == 2 then [(cs[0][0], cs[0][1])] else [];
      assert (cs + ds)[0] == cs[0] && (cs + ds)[1..] == cs[1..] + ds;
      assert KeepDistinctPairs(cs + ds) == h + KeepDistinctPairs(cs[1..] + ds);
      KeepDistinctPairsAppend(cs[1..], ds);
      assert h + (KeepDistinctPairs(cs[1..]) + KeepDistinctPairs(ds)) == (h + KeepDistinctPairs(cs[1..])) + KeepDistinctPairs(ds);
    }
  }

  lemma {:induction false} KeepDistinctPairsDropsSingletons(cs: seq<seq<int>>)
    requires forall c :: c in cs ==> |c| == 1
    ensures KeepDistinctPairs(cs) == []
  {
    if cs != [] {
      DistinctCountOfShort(cs[0]);
      KeepDistinctPairsDropsSingletons(cs[1..]);
    }
  }

  lemma {:induction false} KeepDistinctPairsKeepsPairs(ps: seq<Key>, cs: seq<seq<int>>)
    requires |cs| == |ps|
    requires forall k :: 0 <= k < |ps| ==> cs[k] == [ps[k].0, ps[k].1] && ps[k].0 < ps[k].1
    ensures KeepDistinctPairs(cs) == ps
  {
    if cs != [] {
      DistinctCountOfShort(cs[0]);
      KeepDistinctPairsKeepsPairs(ps[1..], cs[1..]);
    }
  }

  /** Line 13: filtering `allcombinations(range(n), k=2)` for two distinct
      members leaves exactly the `i < j` pairs, in lexicographic order. */
  lemma RealPairsFromAllCombinations(n: nat)
    ensures KeepDistinctPairs(AllCombinations(n)) == PairsFrom(0, n)
  {
    var pairs := PairsFrom(0, n);
    var singles: seq<seq<int>> := seq(n, i => [i]);
    var doubles: seq<seq<int>> := seq(|pairs|, k requires 0 <= k < |pairs| => [pairs[k].0, pairs[k].1]);
    assert AllCombinations(n) == singles + doubles;
    KeepDistinctPairsAppend(singles, doubles);
    KeepDistinctPairsDropsSingletons(singles);
    forall k | 0 <= k < |pairs| ensures pairs[k].0 < pairs[k].1 {
      assert pairs[k] in pairs;
      PairsFromMembership(0, n, pairs[k]);
    }
    KeepDistinctPairsKeepsPairs(pairs, doubles);
  }

  /** Every candidate is a pair of participant indices, smaller first. */
  lemma CandidatesInRange(n: nat)
    ensures forall k :: 0 <= k < |Candidates(n)| ==> 0 <= Candidates(n)[k].0 <= Candidates(n)[k].1 < n
  {
    CandidatesShape(n);
    assert forall k :: 0 <= k < |Candidates(n)| ==> Candidates(n)[k] in Candidates(n);
  }

  /** The candidate list holds exactly the pairs `i <= j < n`, one each,
      `n(n-1)/2 + n` of them; its first part is in strict lexicographic
      order and is followed by the self-pairs in index order. */
  lemma CandidatesShape(n: nat)
    ensures forall key :: key in Candidates(n) <==> 0 <= key.0 <= key.1 < n
    ensures |Candidates(n)| == n * (n - 1) / 2 + n
    ensures Distinct(Candidates(n))
    ensures StrictlyIncreasing(Candidates(n)[..n * (n - 1) / 2])
    ensures Candidates(n)[n * (n - 1) / 2..] == SelfPairs(n)
  {
    var pairs := PairsFrom(0, n);
    var c := Candidates(n);
    PairsFromLength(0, n);
    PairsFromIncreasing(0, n);
    assert |pairs| == n * (n - 1) / 2;
    forall key ensures key in c <==> 0 <= key.0 <= key.1 < n {
      PairsFromMembership(0, n, key);
      if key.0 == key.1 && 0 <= key.0 < n {
        assert SelfPairs(n)[key.0] == key;
      }
    }
    forall x, y | 0 <= x < y < |c| ensures c[x] != c[y] {
      if y < |pairs| {
        assert LexLess(pairs[x], pairs[y]);
      } else if x < |pairs| {
        assert c[x] in pairs;
        PairsFromMembership(0, n, c[x]);
      }
    }
    assert c[..|pairs|] == pairs;
  }

  /** The test `idx in possible_match`. */
  function Touches(idx: int): Key -> bool
  {
    (key: Key) => key.0 == idx || key.1 == idx
  }

  /** The test `variables[possible_match].varValue > 0`. */
  function IsSelected(value: Valuation): Key -> bool
  {
    (key: Key) => value(key) > 0.0
  }

  /** The test `idx1 == idx2`: a self-pair. */
  function IsSelf(): Key -> bool
  {
    (key: Key) => key.0 == key.1
  }

  lemma {:induction false} RowTouching(r: int, j: int, n: int, idx: int)
    requires r < j
    ensures |Filter(Row(r, j, n), Touches(idx))| ==
      if r == idx then (if j < n then n - j else 0) else if j <= idx < n then 1 else 0
    decreases n - j
  {
    if j < n {
      RowTouching(r, j + 1, n, idx);
    }
  }

  lemma {:induction false} PairsFromTouching(i: int, n: int, idx: int)
    requires 0 <= i && 0 <= idx < n
    ensures |Filter(PairsFrom(i, n), Touches(idx))| == if i <= idx then n - 1 - i else 0
    decreases n - i
  {
    if i < n {
      PairsFromTouching(i + 1, n, idx);
      RowTouching(i, i + 1, n, idx);
      FilterAppend(Row(i, i + 1, n), PairsFrom(i + 1, n), Touches(idx));
    }
  }

  lemma {:induction false} SelfPairsTouching(n: nat, m: nat, idx: int)
    requires m <= n
    ensures Filter(SelfPairs(n)[m..], Touches(idx)) == if m <= idx < n then [(idx, idx)] else []
    decreases n - m
  {
    if m < n {
      var s := SelfPairs(n)[m..];
      SelfPairsTouching(n, m + 1, idx);
      assert s[1..] == SelfPairs(n)[m + 1..];
    }
  }

  /** `get_variables_for_person(idx)` over the candidate list: for a
      participant it is exactly `n` variables -- the `n - 1` real pairs that
      contain `idx` and its self-pair -- and for any other index none. */
  lemma VariablesForPersonShape(n: nat, idx: int)
    ensures forall key :: key in Filter(Candidates(n), Touches(idx)) <==>
      0 <= key.0 <= key.1 < n && (key.0 == idx || key.1 == idx)
    ensures 0 <= idx < n ==> |Filter(Candidates(n), Touches(idx))| == n
    ensures !(0 <= idx < n) ==> Filter(Candidates(n), Touches(idx)) == []
  {
    var c := Candidates(n);
    CandidatesShape(n);
    forall key ensures key in Filter(c, Touches(idx)) <==> 0 <= key.0 <= key.1 < n && (key.0 == idx || key.1 == idx) {
      FilterMembership(c, Touches(idx), key);
    }
    if 0 <= idx < n {
      FilterAppend(PairsFrom(0, n), SelfPairs(n), Touches(idx));
      PairsFromTouching(0, n, idx);
      SelfPairsTouching(n, 0, idx);
      assert SelfPairs(n)[0..] == SelfPairs(n);
    } else {
      forall k | 0 <= k < |c| ensures !Touches(idx)(c[k]) {
        assert c[k] in c;
      }
      FilterNone(c, Touches(idx));
    }
  }

  /** The self-pair of `idx` is the only self-pair among its variables. */
  lemma SelfPairOfPerson(n: nat, idx: int)
    requires 0 <= idx < n
    ensures Filter(Filter(Candidates(n), Touches(idx)), IsSelf()) == [(idx, idx)]
  {
    var isSelf := IsSelf();
    FilterCommutes(Candidates(n), Touches(idx), isSelf);
    FilterAppend(PairsFrom(0, n), SelfPairs(n), isSelf);
    forall k | 0 <= k < |PairsFrom(0, n)| ensures !isSelf(PairsFrom(0, n)[k]) {
      assert PairsFrom(0, n)[k] in PairsFrom(0, n);
      PairsFromMembership(0, n, PairsFrom(0, n)[k]);
    }
    FilterNone(PairsFrom(0, n), isSelf);
    FilterAll(SelfPairs(n), isSelf);
    assert Filter(Candidates(n), isSelf) == SelfPairs(n);
    SelfPairsTouching(n, 0, idx);
    assert SelfPairs(n)[0..] == SelfPairs(n);
  }

  /** Holds the participants and their candidate pairs. */
  class MatchTracker {
    var persons: seq<Person>
    var possibleMatches: seq<Key>

    ghost predicate Valid()
      reads this
    {
      && possibleMatches == Candidates(|persons|)
      && forall k :: 0 <= k < |possibleMatches| ==> 0 <= possibleMatches[k].0 <= possibleMatches[k].1 < |persons|
    }

    /** `__init__`: the filtered 2-combinations, then `+=` the self-pairs. */
    constructor (persons: seq<Person>)
      ensures Valid() && this.persons == persons
      ensures possibleMatches == PairsFrom(0, |persons|) + SelfPairs(|persons|)
    {
      this.persons := persons;
      possibleMatches := KeepDistinctPairs(AllCombinations(|persons|));
      possibleMatches := possibleMatches + SelfPairs(|persons|);
      new;
      RealPairsFromAllCombinations(|persons|);
      CandidatesShape(|persons|);
      forall k | 0 <= k < |possibleMatches|
        ensures 0 <= possibleMatches[k].0 <= possibleMatches[k].1 < |persons|
      {
        assert possibleMatches[k] in possibleMatches;
      }
    }

    /** `get_variables_for_person(idx)` */
    function VariablesForPerson(idx: int): (r: seq<Key>)
      reads this
      requires Valid()
      ensures r == Filter(possibleMatches, Touches(idx))
      ensures forall key :: key in r <==> 0 <= key.0 <= key.1 < |persons| && (key.0 == idx || key.1 == idx)
      ensures 0 <= idx < |persons| ==> |r| == |persons|
      ensures !(0 <= idx < |persons|) ==> r == []
    {
      VariablesForPersonShape(|persons|, idx);
      Filter(possibleMatches, Touches(idx))
    }

    /** `get_variables_to_people()`: one `(variable, persons[i], persons[j])`
        per candidate, in candidate order. */
    function VariablesToPeople(): (r: seq<(Key, Person, Person)>)
      reads this
      requires Valid()
      ensures |r| == |possibleMatches|
      ensures forall k :: 0 <= k < |r| ==>
        r[k].0 == possibleMatches[k] && r[k].1 == persons[possibleMatches[k].0] && r[k].2 == persons[possibleMatches[k].1]
    {
      var matches, people := possibleMatches, persons;
      seq(|matches|, k requires 0 <= k < |matches| => (matches[k], people[matches[k].0], people[matches[k].1]))
    }

    /** `get_true_possible_matches()`: the candidates whose value is strictly
        positive, in candidate order. */
    function TruePossibleMatches(value: Valuation): (r: seq<Key>)
      reads this
      requires Valid()
      ensures r == Filter(possibleMatches, IsSelected(value))
      ensures forall key :: key in r <==> 0 <= key.0 <= key.1 < |persons| && value(key) > 0.0
      ensures Distinct(r)
    {
      CandidatesShape(|persons|);
      FilterDistinct(possibleMatches, IsSelected(value));
      forall key ensures key in Filter(possibleMatches, IsSelected(value)) <==> key in possibleMatches && value(key) > 0.0 {
        FilterMembership(possibleMatches, IsSelected(value), key);
      }
      Filter(possibleMatches, IsSelected(value))
    }

    /** `get_true_variables()`: a variable is named by its key, so these are
        the selected candidates themselves. */
    function TrueVariables(value: Valuation): (r: seq<Key>)
      reads this
      requires Valid()
      ensures r == TruePossibleMatches(value)
    {
      var selected := TruePossibleMatches(value);
      seq(|selected|, k requires 0 <= k < |selected| => selected[k])
    }

    /** `get_matches()`: the two participants of each selected candidate, in
        the same order. */
    function Matches(value: Valuation): (r: seq<(Person, Person)>)
      reads this
      requires Valid()
      ensures |r| == |TruePossibleMatches(value)|
      ensures forall k :: 0 <= k < |r| ==>
        r[k] == (persons[TruePossibleMatches(value)[k].0], persons[TruePossibleMatches(value)[k].1])
    {
      var selected, people := TruePossibleMatches(value), persons;
      assert forall k :: 0 <= k < |selected| ==> selected[k] in selected;
      seq(|selected|, k requires 0 <= k < |selected| => (people[selected[k].0], people[selected[k].1]))
    }
  }
}
