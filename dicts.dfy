/** Python dictionaries keep insertion order, and the result statistics are
    reported in that order; a dictionary is modelled as a list of
    `(key, value)` entries with distinct keys. `AppendTo` and `Increment` are
    the two `defaultdict` updates the core performs. */
module Dicts {
  import opened Seqs

  function KeysOf<K, V>(d: seq<(K, V)>): (r: seq<K>)
    ensures |r| == |d| && forall i :: 0 <= i < |d| ==> r[i] == d[i].0
  {
    seq(|d|, i requires 0 <= i < |d| => d[i].0)
  }

  ghost predicate DistinctKeys<K, V>(d: seq<(K, V)>)
  {
    forall i, j :: 0 <= i < j < |d| ==> d[i].0 != d[j].0
  }

  /** The position of key `k`, or -1 when it is absent. */
  function IndexOf<K(==), V>(d: seq<(K, V)>, k: K): (r: int)
    ensures r == -1 <==> k !in KeysOf(d)
    ensures r != -1 ==> 0 <= r < |d| && d[r].0 == k
  {
    if d == [] then -1
    else if d[0].0 == k then 0
    else
      var r := IndexOf(d[1..], k);
      assert KeysOf(d) == [d[0].0] + KeysOf(d[1..]);
      if r == -1 then -1 else r + 1
  }

  /** `d[k].append(x)` on a `defaultdict(list)`: a missing key is first
      inserted, at the end, with an empty list. */
  function AppendTo<K(==), V>(d: seq<(K, seq<V>)>, k: K, x: V): seq<(K, seq<V>)>
  {
    var i := IndexOf(d, k);
    if i == -1 then d + [(k, [x])] else d[i := (k, d[i].1 + [x])]
  }

  /** `d[k] += 1` on a `defaultdict(int)`. */
  function Increment<K(==)>(d: seq<(K, nat)>, k: K): seq<(K, nat)>
  {
    var i := IndexOf(d, k);
    if i == -1 then d + [(k, 1)] else d[i := (k, d[i].1 + 1)]
  }

  /** The number of items over all lists. */
  function TotalLength<K, V>(d: seq<(K, seq<V>)>): nat
  {
    if d == [] then 0 else |d[0].1| + TotalLength(d[1..])
  }

  /** The sum of the counts. */
  function TotalCount<K>(d: seq<(K, nat)>): nat
  {
    if d == [] then 0 else d[0].1 + TotalCount(d[1..])
  }

  lemma {:induction false} TotalLengthSnoc<K, V>(d: seq<(K, seq<V>)>, e: (K, seq<V>))
    ensures TotalLength(d + [e]) == TotalLength(d) + |e.1|
  {
    if d != [] {
      TotalLengthSnoc(d[1..], e);
      assert (d + [e])[1..] == d[1..] + [e];
    }
  }

  lemma {:induction false} TotalLengthUpdate<K, V>(d: seq<(K, seq<V>)>, i: int, e: (K, seq<V>))
    requires 0 <= i < |d|
    ensures TotalLength(d[i := e]) == TotalLength(d) - |d[i].1| + |e.1|
  {
    if i > 0 {
      TotalLengthUpdate(d[1..], i - 1, e);
      assert d[i := e][1..] == d[1..][i - 1 := e];
    }
  }

  lemma {:induction false} TotalCountSnoc<K>(d: seq<(K, nat)>, e: (K, nat))
    ensures TotalCount(d + [e]) == TotalCount(d) + e.1
  {
    if d != [] {
      TotalCountSnoc(d[1..], e);
      assert (d + [e])[1..] == d[1..] + [e];
    }
  }

  lemma {:induction false} TotalCountUpdate<K>(d: seq<(K, nat)>, i: int, e: (K, nat))
    requires 0 <= i < |d|
    ensures TotalCount(d[i := e]) == TotalCount(d) - d[i].1 + e.1
  {
    if i > 0 {
      TotalCountUpdate(d[1..], i - 1, e);
      assert d[i := e][1..] == d[1..][i - 1 := e];
    }
  }

  /** Appending to a `defaultdict(list)`: keys stay distinct, the key is
      present afterwards, its list grows by `x` at the end, every other entry
      is unchanged, and one more item is held in all. */
  lemma AppendToEffect<K, V>(d: seq<(K, seq<V>)>, k: K, x: V)
    requires DistinctKeys(d)
    ensures var d' := AppendTo(d, k, x);
      && DistinctKeys(d')
      && k in KeysOf(d')
      && (forall j :: j in KeysOf(d) ==> j in KeysOf(d'))
      && (forall j :: j in KeysOf(d') ==> j in KeysOf(d) || j == k)
      && TotalLength(d') == TotalLength(d) + 1
      && (forall e :: 0 <= e < |d'| && d'[e].0 != k ==> d'[e] in d)
      && (forall e :: 0 <= e < |d'| && d'[e].0 == k ==>
            if k in KeysOf(d) then d'[e].1 == d[IndexOf(d, k)].1 + [x] else d'[e].1 == [x])
  {
    var i := IndexOf(d, k);
    var d' := AppendTo(d, k, x);
    if i == -1 {
      TotalLengthSnoc(d, (k, [x]));
      assert forall e :: 0 <= e < |d| ==> d'[e] == d[e];
      assert KeysOf(d')[|d|] == k;
    } else {
      TotalLengthUpdate(d, i, (k, d[i].1 + [x]));
      assert forall e :: 0 <= e < |d| && e != i ==> d'[e] == d[e];
      assert KeysOf(d')[i] == k;
    }
  }

  /** Counting in a `defaultdict(int)`: the analogue of AppendToEffect, with
      the total count growing by one. */
  lemma IncrementEffect<K>(d: seq<(K, nat)>, k: K)
    requires DistinctKeys(d)
    ensures var d' := Increment(d, k);
      && DistinctKeys(d')
      && k in KeysOf(d')
      && (forall j :: j in KeysOf(d) ==> j in KeysOf(d'))
      && (forall j :: j in KeysOf(d') ==> j in KeysOf(d) || j == k)
      && TotalCount(d') == TotalCount(d) + 1
      && (forall e :: 0 <= e < |d'| && d'[e].0 != k ==> d'[e] in d)
      && (forall e :: 0 <= e < |d'| && d'[e].0 == k ==>
            if k in KeysOf(d) then d'[e].1 == d[IndexOf(d, k)].1 + 1 else d'[e].1 == 1)
  {
    var i := IndexOf(d, k);
    var d' := Increment(d, k);
    if i == -1 {
      TotalCountSnoc(d, (k, 1));
      assert forall e :: 0 <= e < |d| ==> d'[e] == d[e];
      assert KeysOf(d')[|d|] == k;
    } else {
      TotalCountUpdate(d, i, (k, d[i].1 + 1));
      assert forall e :: 0 <= e < |d| && e != i ==> d'[e] == d[e];
      assert KeysOf(d')[i] == k;
    }
  }

  /** The items whose key is `k`. */
  function KeyIs<T, K(==)>(keyOf: T -> K, k: K): T -> bool
  {
    (x: T) => keyOf(x) == k
  }

  /** The counted items whose key is `k`. */
  function CountedUnder<T, K(==)>(counted: T -> bool, keyOf: T -> K, k: K): T -> bool
  {
    (x: T) => counted(x) && keyOf(x) == k
  }

  /** `d` groups the items of `s` by `keyOf`: one entry per key that occurs,
      holding that key's items in order. */
  ghost predicate GroupsBy<T, K>(d: seq<(K, seq<T>)>, s: seq<T>, keyOf: T -> K)
  {
    && DistinctKeys(d)
    && (forall e :: 0 <= e < |d| ==> d[e].1 != [] && d[e].1 == Filter(s, KeyIs(keyOf, d[e].0)))
    && (forall i :: 0 <= i < |s| ==> keyOf(s[i]) in KeysOf(d))
    && TotalLength(d) == |s|
  }

  /** `d` counts the counted items of `s` by `keyOf`: one entry per key that
      occurs, holding how many counted items have it. */
  ghost predicate CountsBy<T, K>(d: seq<(K, nat)>, s: seq<T>, counted: T -> bool, keyOf: T -> K)
  {
    && DistinctKeys(d)
    && (forall e :: 0 <= e < |d| ==> d[e].1 > 0 && d[e].1 == |Filter(s, CountedUnder(counted, keyOf, d[e].0))|)
    && (forall i :: 0 <= i < |s| && counted(s[i]) ==> keyOf(s[i]) in KeysOf(d))
    && TotalCount(d) == |Filter(s, counted)|
  }

  lemma GroupsByEmpty<T, K>(keyOf: T -> K)
    ensures GroupsBy([], [], keyOf)
  {
  }

  /** Appending the next item under its key extends the grouping. */
  lemma GroupStep<T, K>(d: seq<(K, seq<T>)>, s: seq<T>, x: T, keyOf: T -> K)
    requires GroupsBy(d, s, keyOf)
    ensures GroupsBy(AppendTo(d, keyOf(x), x), s + [x], keyOf)
  {
    var k := keyOf(x);
    var d' := AppendTo(d, k, x);
    AppendToEffect(d, k, x);
    forall e | 0 <= e < |d'|
      ensures d'[e].1 != [] && d'[e].1 == Filter(s + [x], KeyIs(keyOf, d'[e].0))
    {
      FilterSnoc(s, x, KeyIs(keyOf, d'[e].0));
      if d'[e].0 != k {
        var j :| 0 <= j < |d| && d[j] == d'[e];
      } else if k !in KeysOf(d) {
        FilterNone(s, KeyIs(keyOf, k));
      }
    }
    forall i | 0 <= i < |s + [x]| ensures keyOf((s + [x])[i]) in KeysOf(d') {
      if i < |s| {
        assert (s + [x])[i] == s[i];
      }
    }
  }

  lemma CountsByEmpty<T, K>(counted: T -> bool, keyOf: T -> K)
    ensures CountsBy([], [], counted, keyOf)
  {
  }

  /** Counting the next item under its key extends the count. */
  lemma CountStep<T, K>(d: seq<(K, nat)>, s: seq<T>, x: T, counted: T -> bool, keyOf: T -> K)
    requires CountsBy(d, s, counted, keyOf) && counted(x)
    ensures CountsBy(Increment(d, keyOf(x)), s + [x], counted, keyOf)
  {
    var k := keyOf(x);
    var d' := Increment(d, k);
    IncrementEffect(d, k);
    FilterSnoc(s, x, counted);
    forall e | 0 <= e < |d'|
      ensures d'[e].1 > 0 && d'[e].1 == |Filter(s + [x], CountedUnder(counted, keyOf, d'[e].0))|
    {
      FilterSnoc(s, x, CountedUnder(counted, keyOf, d'[e].0));
      if d'[e].0 != k {
        var j :| 0 <= j < |d| && d[j] == d'[e];
      } else if k !in KeysOf(d) {
        forall i | 0 <= i < |s| ensures !CountedUnder(counted, keyOf, k)(s[i]) {
        }
        FilterNone(s, CountedUnder(counted, keyOf, k));
      }
    }
    forall i | 0 <= i < |s + [x]| && counted((s + [x])[i]) ensures keyOf((s + [x])[i]) in KeysOf(d') {
      if i < |s| {
        assert (s + [x])[i] == s[i];
      }
    }
  }

  /** An item that is not counted leaves the count as it is. */
  lemma SkipStep<T, K>(d: seq<(K, nat)>, s: seq<T>, x: T, counted: T -> bool, keyOf: T -> K)
    requires CountsBy(d, s, counted, keyOf) && !counted(x)
    ensures CountsBy(d, s + [x], counted, keyOf)
  {
    FilterSnoc(s, x, counted);
    forall e | 0 <= e < |d| ensures d[e].1 == |Filter(s + [x], CountedUnder(counted, keyOf, d[e].0))| {
      FilterSnoc(s, x, CountedUnder(counted, keyOf, d[e].0));
    }
    forall i | 0 <= i < |s + [x]| && counted((s + [x])[i]) ensures keyOf((s + [x])[i]) in KeysOf(d) {
      if i < |s| {
        assert (s + [x])[i] == s[i];
      }
    }
  }

  /** One step of a grouping loop over `s`: the grouping of `s[..i]`
      extended by `s[i]` is the grouping of `s[..i + 1]`. */
  lemma GroupNext<T, K>(d: seq<(K, seq<T>)>, s: seq<T>, i: int, keyOf: T -> K)
    requires 0 <= i < |s| && GroupsBy(d, s[..i], keyOf)
    ensures GroupsBy(AppendTo(d, keyOf(s[i]), s[i]), s[..i + 1], keyOf)
  {
    assert s[..i + 1] == s[..i] + [s[i]];
    GroupStep(d, s[..i], s[i], keyOf);
  }

  /** The counting loop as a fold: each counted item of `s`, in order,
      incremented under its key. */
  function CountAll<T, K(==)>(s: seq<T>, counted: T -> bool, keyOf: T -> K): seq<(K, nat)>
  {
    if s == [] then []
    else
      var d := CountAll(s[..|s| - 1], counted, keyOf);
      if counted(s[|s| - 1]) then Increment(d, keyOf(s[|s| - 1])) else d
  }

  /** The fold counts by key. */
  lemma {:induction false} CountAllCountsBy<T, K>(s: seq<T>, counted: T -> bool, keyOf: T -> K)
    ensures CountsBy(CountAll(s, counted, keyOf), s, counted, keyOf)
  {
    if s == [] {
      CountsByEmpty(counted, keyOf);
    } else {
      var i := |s| - 1;
      CountAllCountsBy(s[..i], counted, keyOf);
      assert s[..i + 1] == s;
      CountNext(CountAll(s[..i], counted, keyOf), s, i, counted, keyOf);
    }
  }

  /** The grouping loop as a fold: each item of `s`, in order, appended
      under its key. */
  function GroupAll<T, K(==)>(s: seq<T>, keyOf: T -> K): seq<(K, seq<T>)>
  {
    if s == [] then []
    else AppendTo(GroupAll(s[..|s| - 1], keyOf), keyOf(s[|s| - 1]), s[|s| - 1])
  }

  /** One more item: the fold appends it under its key. */
  lemma GroupAllSnoc<T, K>(s: seq<T>, i: int, keyOf: T -> K)
    requires 0 <= i < |s|
    ensures GroupAll(s[..i + 1], keyOf) == AppendTo(GroupAll(s[..i], keyOf), keyOf(s[i]), s[i])
  {
    assert s[..i + 1][..i] == s[..i];
  }

  /** The fold groups by key. */
  lemma {:induction false} GroupAllGroupsBy<T, K>(s: seq<T>, keyOf: T -> K)
    ensures GroupsBy(GroupAll(s, keyOf), s, keyOf)
  {
    if s == [] {
      GroupsByEmpty(keyOf);
    } else {
      var i := |s| - 1;
      GroupAllGroupsBy(s[..i], keyOf);
      assert s[..i + 1] == s;
      GroupNext(GroupAll(s[..i], keyOf), s, i, keyOf);
    }
  }

  /** One step of a counting loop over `s`: a counted item is counted under
      its key, another one changes nothing. */
  lemma CountNext<T, K>(d: seq<(K, nat)>, s: seq<T>, i: int, counted: T -> bool, keyOf: T -> K)
    requires 0 <= i < |s| && CountsBy(d, s[..i], counted, keyOf)
    ensures counted(s[i]) ==> CountsBy(Increment(d, keyOf(s[i])), s[..i + 1], counted, keyOf)
    ensures !counted(s[i]) ==> CountsBy(d, s[..i + 1], counted, keyOf)
  {
    assert s[..i + 1] == s[..i] + [s[i]];
    if counted(s[i]) {
      CountStep(d, s[..i], s[i], counted, keyOf);
    } else {
      SkipStep(d, s[..i], s[i], counted, keyOf);
    }
  }
}
