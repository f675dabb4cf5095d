/** The Python `str` operations the core relies on (`upper`, `lower`,
    `strip`, `startswith`, `in`, `title` and the `<` ordering), on text whose
    letters are ASCII. */
module PyStr {

  predicate IsAsciiUpper(c: char) { 'A' <= c <= 'Z' }

  predicate IsAsciiLower(c: char) { 'a' <= c <= 'z' }

  /** A cased character in the sense of `str.title`. */
  predicate IsAsciiLetter(c: char) { IsAsciiUpper(c) || IsAsciiLower(c) }

  function UpperChar(c: char): char
  {
    if IsAsciiLower(c) then (c as int - 32) as char else c
  }

  function LowerChar(c: char): char
  {
    if IsAsciiUpper(c) then (c as int + 32) as char else c
  }

  /** `s.upper()` */
  function Upper(s: string): (r: string)
    ensures |r| == |s|
    ensures forall i :: 0 <= i < |s| ==> r[i] == UpperChar(s[i])
  {
    seq(|s|, i requires 0 <= i < |s| => UpperChar(s[i]))
  }

  /** `s.lower()` */
  function Lower(s: string): (r: string)
    ensures |r| == |s|
    ensures forall i :: 0 <= i < |s| ==> r[i] == LowerChar(s[i])
  {
    seq(|s|, i requires 0 <= i < |s| => LowerChar(s[i]))
  }

  /** The characters for which Python's `str.isspace()` holds. */
  predicate IsSpace(c: char)
  {
    var n := c as int;
    n == 0x20 || 0x09 <= n <= 0x0D || 0x1C <= n <= 0x1F || n == 0x85 || n == 0xA0
    || n == 0x1680 || 0x2000 <= n <= 0x200A || n == 0x2028 || n == 0x2029
    || n == 0x202F || n == 0x205F || n == 0x3000
  }

  function LStrip(s: string): string
  {
    if |s| > 0 && IsSpace(s[0]) then LStrip(s[1..]) else s
  }

  function RStrip(s: string): string
  {
    if |s| > 0 && IsSpace(s[|s| - 1]) then RStrip(s[..|s| - 1]) else s
  }

  /** `s.strip()` with no argument. */
  function Strip(s: string): string
  {
    RStrip(LStrip(s))
  }

  /** Neither end of `s` is white space: what `strip()` leaves. */
  predicate Stripped(s: string)
  {
    |s| == 0 || (!IsSpace(s[0]) && !IsSpace(s[|s| - 1]))
  }

  /** `s.startswith(p)` */
  predicate StartsWith(s: string, p: string)
  {
    |p| <= |s| && s[..|p|] == p
  }

  /** `t` occurs in `s` at position `p`. */
  predicate OccursAt(s: string, t: string, p: int)
  {
    0 <= p <= |s| - |t| && s[p..p + |t|] == t
  }

  /** `t in s` for strings: `t` occurs in `s` as a contiguous substring. */
  predicate Contains(s: string, t: string)
  {
    exists p :: 0 <= p <= |s| - |t| && OccursAt(s, t, p)
  }

  function TitleFrom(s: string, previousCased: bool): string
  {
    if s == [] then []
    else
      var c := s[0];
      var t := if !IsAsciiLetter(c) then c else if previousCased then LowerChar(c) else UpperChar(c);
      [t] + TitleFrom(s[1..], IsAsciiLetter(c))
  }

  /** `s.title()`: each run of letters starts upper-case and goes on lower-case. */
  function Title(s: string): string
  {
    TitleFrom(s, false)
  }

  lemma {:induction false} TitleAfterLetter(s: string)
    requires forall i :: 0 <= i < |s| ==> IsAsciiLetter(s[i])
    ensures TitleFrom(s, true) == Lower(s)
  {
    if s != [] {
      TitleAfterLetter(s[1..]);
    }
  }

  /** The title case of one word of letters: its first letter upper-case,
      the rest lower-case. */
  lemma TitleOfWord(s: string)
    requires |s| > 0 && forall i :: 0 <= i < |s| ==> IsAsciiLetter(s[i])
    ensures Title(s) == [UpperChar(s[0])] + Lower(s[1..])
  {
    TitleAfterLetter(s[1..]);
  }

  /** Python's `a < b` on strings: lexicographic by code point, a proper
      prefix being smaller. (Dafny's own `<` on sequences is "proper prefix".) */
  predicate Less(a: string, b: string)
    decreases |a|
  {
    if |a| == 0 then |b| > 0
    else if |b| == 0 then false
    else if a[0] != b[0] then a[0] < b[0]
    else Less(a[1..], b[1..])
  }

  /** `min(a, b)`: the first argument unless the second is strictly smaller. */
  function Min(a: string, b: string): string
  {
    if Less(b, a) then b else a
  }

  /** `max(a, b)`: the first argument unless the second is strictly greater. */
  function Max(a: string, b: string): string
  {
    if Less(a, b) then b else a
  }

  lemma UpperIdempotent(s: string)
    ensures Upper(Upper(s)) == Upper(s)
  {
  }

  lemma UpperOfLower(s: string)
    ensures Upper(Lower(s)) == Upper(s)
  {
  }

  lemma LowerIdempotent(s: string)
    ensures Lower(Lower(s)) == Lower(s)
  {
  }

  lemma {:induction false} LessTrichotomy(a: string, b: string)
    ensures a == b || Less(a, b) || Less(b, a)
    ensures !(Less(a, b) && Less(b, a))
    decreases |a|
  {
    if |a| > 0 && |b| > 0 {
      LessTrichotomy(a[1..], b[1..]);
      if a[0] == b[0] && a[1..] == b[1..] {
        assert a == [a[0]] + a[1..] && b == [b[0]] + b[1..];
      }
    }
  }

  /** `(min(a, b), max(a, b))` does not depend on the order of the arguments. */
  lemma {:induction false} MinMaxSymmetric(a: string, b: string)
    ensures Min(a, b) == Min(b, a) && Max(a, b) == Max(b, a)
    ensures Min(a, b) == a || Min(a, b) == b
    ensures !Less(Max(a, b), Min(a, b))
  {
    LessTrichotomy(a, b);
  }

  lemma {:induction false} LStripShape(s: string)
    ensures |LStrip(s)| == 0 || !IsSpace(LStrip(s)[0])
    ensures exists k :: 0 <= k <= |s| && LStrip(s) == s[k..]
    decreases |s|
  {
    if |s| > 0 && IsSpace(s[0]) {
      LStripShape(s[1..]);
      var k :| 0 <= k <= |s[1..]| && LStrip(s[1..]) == s[1..][k..];
      assert LStrip(s) == s[k + 1..];
    } else {
      assert LStrip(s) == s[0..];
    }
  }

  lemma {:induction false} RStripShape(s: string)
    ensures |RStrip(s)| == 0 || !IsSpace(RStrip(s)[|RStrip(s)| - 1])
    ensures exists k :: 0 <= k <= |s| && RStrip(s) == s[..k]
    decreases |s|
  {
    if |s| > 0 && IsSpace(s[|s| - 1]) {
      RStripShape(s[..|s| - 1]);
      var k :| 0 <= k <= |s| - 1 && RStrip(s[..|s| - 1]) == s[..|s| - 1][..k];
      assert RStrip(s) == s[..k];
    } else {
      assert RStrip(s) == s[..|s|];
    }
  }

  /** What `strip()` returns has no white space at either end. */
  lemma StripIsStripped(s: string)
    ensures Stripped(Strip(s))
  {
    var l := LStrip(s);
    LStripShape(s);
    RStripShape(l);
    var k :| 0 <= k <= |l| && RStrip(l) == l[..k];
  }

  /** `strip()` leaves text with no white space at its ends unchanged. */
  lemma StrippedFixed(s: string)
    requires Stripped(s)
    ensures Strip(s) == s
  {
  }

  /** Lower-casing neither creates nor removes white space at the ends. */
  lemma LowerKeepsStripped(s: string)
    requires Stripped(s)
    ensures Stripped(Lower(s))
  {
  }

  /** Upper-casing character by character: the way to compute `upper` of a
      given text. */
  lemma UpperIs(s: string, u: string)
    requires |s| == |u| && forall i :: 0 <= i < |s| ==> UpperChar(s[i]) == u[i]
    ensures Upper(s) == u
  {
  }

  /** A prefix is a substring. */
  lemma StartsWithContains(s: string, t: string)
    requires StartsWith(s, t)
    ensures Contains(s, t)
  {
    assert OccursAt(s, t, 0);
  }

  /** `t` does not occur in `s` when no position of `s` starts with the
      first two characters of `t`. */
  lemma NotContainsByPair(s: string, t: string)
    requires |t| >= 2
    requires forall p :: 0 <= p && p + |t| <= |s| ==> !(s[p] == t[0] && s[p + 1] == t[1])
    ensures !Contains(s, t)
  {
    forall p | 0 <= p <= |s| - |t| ensures !OccursAt(s, t, p) {
      assert s[p..p + |t|][0] == s[p] && s[p..p + |t|][1] == s[p + 1];
    }
  }
}
