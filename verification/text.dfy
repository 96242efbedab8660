/**
 * String primitives with the meaning Python gives them, restricted to ASCII:
 * whitespace, strip, lower-casing, substring tests and replace-all.
 */
module Text {

  /** Python's `str.isspace` on ASCII: `\t \n \v \f \r`, the separators `\x1c`-`\x1f` and space. */
  predicate IsSpace(c: char) {
    9 <= c as int <= 13 || 28 <= c as int <= 32
  }

  /** Drops the longest prefix whose characters all satisfy `drop`. */
  function TrimStart(s: string, drop: char -> bool): (r: string)
    ensures |r| <= |s| && r == s[|s| - |r|..]
    ensures forall k :: 0 <= k < |s| - |r| ==> drop(s[k])
    ensures r == [] || !drop(r[0])
  {
    if s != [] && drop(s[0]) then TrimStart(s[1..], drop) else s
  }

  /** Drops the longest suffix whose characters all satisfy `drop`. */
  function TrimEnd(s: string, drop: char -> bool): (r: string)
    ensures |r| <= |s| && r == s[..|r|]
    ensures forall k :: |r| <= k < |s| ==> drop(s[k])
    ensures r == [] || !drop(r[|r| - 1])
  {
    if s != [] && drop(s[|s| - 1]) then TrimEnd(s[..|s| - 1], drop) else s
  }

  /**
   * Strips both ends: the result is the infix of `s` left after removing every
   * leading and trailing character that satisfies `drop`.
   */
  function StripBy(s: string, drop: char -> bool): (r: string)
    ensures var i := |s| - |TrimStart(s, drop)|;
      && i + |r| <= |s|
      && r == s[i..i + |r|]
      && (forall k :: 0 <= k < i ==> drop(s[k]))
      && (forall k :: i + |r| <= k < |s| ==> drop(s[k]))
    ensures r == [] || (!drop(r[0]) && !drop(r[|r| - 1]))
  {
    var t := TrimStart(s, drop);
    var r := TrimEnd(t, drop);
    assert r == s[|s| - |t|..|s| - |t| + |r|];
    r
  }

  /** Python's `s.strip()`. */
  function Strip(s: string): string {
    StripBy(s, IsSpace)
  }

  /** Python's `s.strip(c)` for a single character `c`. */
  function StripChar(s: string, c: char): string {
    StripBy(s, x => x == c)
  }

  /** A string with no whitespace at either end. */
  predicate IsStripped(s: string) {
    s == [] || (!IsSpace(s[0]) && !IsSpace(s[|s| - 1]))
  }

  lemma StripOfStripped(s: string)
    requires IsStripped(s)
    ensures Strip(s) == s
  {
  }

  /** Stripping twice is stripping once. */
  lemma StripIdempotent(s: string)
    ensures Strip(Strip(s)) == Strip(s)
  {
    StripOfStripped(Strip(s));
  }

  /** Position of the first `c` in `s`, or `|s|`. */
  function IndexOf(s: string, c: char): (i: nat)
    ensures i <= |s|
    ensures c !in s[..i]
    ensures i < |s| ==> s[i] == c
  {
    if s == [] || s[0] == c then 0
    else
      var i := 1 + IndexOf(s[1..], c);
      assert s[..i] == [s[0]] + s[1..][..i - 1];
      i
  }

  lemma {:induction false} IndexOfAfter(a: string, c: char, b: string)
    requires c !in a
    ensures IndexOf(a + [c] + b, c) == |a|
    decreases |a|
  {
    if a != [] {
      assert (a + [c] + b)[1..] == a[1..] + [c] + b;
      IndexOfAfter(a[1..], c, b);
    }
  }

  /** Python's `str.lower` on ASCII letters. */
  function LowerChar(c: char): char {
    if 'A' <= c <= 'Z' then (c as int + 32) as char else c
  }

  function Lower(s: string): (r: string)
    ensures |r| == |s|
    ensures forall k :: 0 <= k < |s| ==> r[k] == LowerChar(s[k])
  {
    seq(|s|, k requires 0 <= k < |s| => LowerChar(s[k]))
  }

  /** Every character is already lower case. */
  predicate IsLower(s: string) {
    forall k :: 0 <= k < |s| ==> !('A' <= s[k] <= 'Z')
  }

  lemma LowerIsLower(s: string)
    ensures IsLower(Lower(s))
    ensures IsLower(s) ==> Lower(s) == s
  {
  }

  /** Python's `s.startswith(p)`. */
  predicate StartsWith(s: string, p: string) {
    |p| <= |s| && s[..|p|] == p
  }

  /** A prefix test fails on a string that is too short or starts differently. */
  lemma NotStartsWith(s: string, p: string)
    requires |s| < |p| || (s != [] && p != [] && s[0] != p[0])
    ensures !StartsWith(s, p)
  {
    if |p| <= |s| {
      assert s[..|p|][0] == s[0];
    }
  }

  predicate EndsWith(s: string, p: string) {
    |p| <= |s| && s[|s| - |p|..] == p
  }

  /** `pat` occurs in `s` at position `i`. */
  predicate OccursAt(s: string, pat: string, i: int) {
    0 <= i && i + |pat| <= |s| && s[i..i + |pat|] == pat
  }

  /** Python's `pat in s`. */
  predicate Contains(s: string, pat: string) {
    exists i :: 0 <= i <= |s| - |pat| && OccursAt(s, pat, i)
  }

  /** An occurrence in the tail of `u` is an occurrence in `u`, one position later. */
  lemma OccursShift(u: string, pat: string)
    requires u != []
    ensures forall i :: 0 <= i ==> (OccursAt(u[1..], pat, i) <==> OccursAt(u, pat, i + 1))
  {
    forall i | 0 <= i
      ensures OccursAt(u[1..], pat, i) <==> OccursAt(u, pat, i + 1)
    {
      if i + |pat| <= |u| - 1 {
        assert u[1..][i..i + |pat|] == u[i + 1..i + 1 + |pat|];
      }
    }
  }

  /** A string is contained in any concatenation that has it as a middle part. */
  lemma ContainsMiddle(a: string, x: string, b: string)
    ensures Contains(a + x + b, x)
  {
    assert OccursAt(a + x + b, x, |a|) by {
      assert (a + x + b)[|a|..|a| + |x|] == x;
    }
  }

  /** Python's `s.replace(x, y)` on single characters. */
  function ReplaceChar(s: string, x: char, y: char): (r: string)
    ensures |r| == |s|
    ensures forall k :: 0 <= k < |s| ==> r[k] == (if s[k] == x then y else s[k])
  {
    seq(|s|, k requires 0 <= k < |s| => if s[k] == x then y else s[k])
  }

  /** Python's `s.replace(x, "")` on a single character. */
  function RemoveChar(s: string, x: char): (r: string)
    ensures |r| <= |s|
    ensures forall k :: 0 <= k < |r| ==> r[k] != x
    ensures forall c :: c in s && c != x ==> c in r
  {
    if s == [] then []
    else
      assert forall c :: c in s ==> c == s[0] || c in s[1..];
      if s[0] == x then RemoveChar(s[1..], x) else [s[0]] + RemoveChar(s[1..], x)
  }

  /**
   * Python's `s.replace(pat, rep)` for a non-empty pattern: the leftmost
   * occurrence is replaced, then scanning resumes after it.
   */
  function ReplaceAll(s: string, pat: string, rep: string): string
    requires pat != []
    decreases |s|
  {
    if |s| < |pat| then s
    else if s[..|pat|] == pat then rep + ReplaceAll(s[|pat|..], pat, rep)
    else [s[0]] + ReplaceAll(s[1..], pat, rep)
  }

  /** Python's `s.split(pat)` for a non-empty separator. */
  function Split(s: string, pat: string): (r: seq<string>)
    requires pat != []
    ensures |r| >= 1
    decreases |s|
  {
    if |s| < |pat| then [s]
    else if s[..|pat|] == pat then [""] + Split(s[|pat|..], pat)
    else
      var t := Split(s[1..], pat);
      [[s[0]] + t[0]] + t[1..]
  }

  /** A slice inside the left operand of a concatenation is a slice of that operand. */
  lemma SliceOfLeft<T>(a: seq<T>, b: seq<T>, m: nat, n: nat)
    requires m <= n <= |a|
    ensures (a + b)[m..n] == a[m..n]
  {
  }

  /** The right operand of a concatenation is the slice after the left one. */
  lemma SliceOfRight<T>(a: seq<T>, b: seq<T>)
    ensures (a + b)[|a|..|a| + |b|] == b
  {
  }

  lemma TakeOfLeft<T>(a: seq<T>, b: seq<T>, j: nat)
    requires j <= |a|
    ensures (a + b)[..j] == a[..j]
  {
  }

  lemma DropOfLeft<T>(a: seq<T>, b: seq<T>, j: nat)
    requires j <= |a|
    ensures (a + b)[j..] == a[j..] + b
  {
  }

  lemma WholeSlices<T>(a: seq<T>)
    ensures a[..|a|] == a && a[|a|..] == []
  {
  }

  lemma ThreeSlices<T>(a: seq<T>, i: nat, j: nat)
    requires i <= j <= |a|
    ensures a == a[..i] + a[i..j] + a[j..]
  {
  }

  lemma SliceOfThree<T>(a: seq<T>, i: nat, x: T, y: T, z: T)
    requires i + 3 <= |a| && a[i] == x && a[i + 1] == y && a[i + 2] == z
    ensures a[i..i + 3] == [x, y, z]
  {
  }

  lemma ConsTail<T>(a: seq<T>, x: seq<T>, y: seq<T>)
    requires a != []
    ensures [a[0]] + (a[1..] + x + y) == a + x + y
  {
    assert [a[0]] + a[1..] == a;
  }

  lemma AppendAssoc(a: string, b: string, c: string)
    ensures a + b + c == a + (b + c)
  {
  }

  /** Python's `sep.join(parts)`. */
  function Join(parts: seq<string>, sep: string): string {
    if |parts| == 0 then ""
    else if |parts| == 1 then parts[0]
    else parts[0] + sep + Join(parts[1..], sep)
  }

  lemma JoinPrepend(c: char, t: seq<string>, sep: string)
    requires |t| >= 1
    ensures Join([[c] + t[0]] + t[1..], sep) == [c] + Join(t, sep)
  {
    var u := [[c] + t[0]] + t[1..];
    if |t| > 1 {
      assert u[1..] == t[1..];
    }
  }

  /** Replacing is splitting on the pattern and joining with the replacement. */
  lemma {:induction false} ReplaceAllIsSplitJoin(s: string, pat: string, rep: string)
    requires pat != []
    ensures ReplaceAll(s, pat, rep) == Join(Split(s, pat), rep)
    decreases |s|
  {
    if |s| < |pat| {
    } else if s[..|pat|] == pat {
      ReplaceAllIsSplitJoin(s[|pat|..], pat, rep);
      var t := Split(s[|pat|..], pat);
      assert Split(s, pat) == [""] + t;
      assert ([""] + t)[1..] == t;
    } else {
      ReplaceAllIsSplitJoin(s[1..], pat, rep);
      JoinPrepend(s[0], Split(s[1..], pat), rep);
    }
  }

  lemma JoinAfterEmpty(t: seq<string>, sep: string)
    requires |t| >= 1
    ensures Join([""] + t, sep) == sep + Join(t, sep)
  {
    var u := [""] + t;
    assert u[1..] == t;
    assert Join(u, sep) == "" + sep + Join(t, sep);
  }

  /** Joining the pieces back with the separator restores the original string. */
  lemma {:induction false} JoinSplit(s: string, pat: string)
    requires pat != []
    ensures Join(Split(s, pat), pat) == s
    decreases |s|
  {
    if |s| < |pat| {
    } else if s[..|pat|] == pat {
      JoinSplit(s[|pat|..], pat);
      JoinSplitAtSeparator(s, pat);
    } else {
      JoinSplit(s[1..], pat);
      JoinSplitPastChar(s, pat);
    }
  }

  lemma JoinSplitAtSeparator(s: string, pat: string)
    requires pat != [] && |s| >= |pat| && s[..|pat|] == pat
    requires Join(Split(s[|pat|..], pat), pat) == s[|pat|..]
    ensures Join(Split(s, pat), pat) == s
  {
    SplitAtSeparator(s, pat);
    JoinAfterEmpty(Split(s[|pat|..], pat), pat);
    PrefixThenRest(s, pat);
  }

  lemma SplitAtSeparator(s: string, pat: string)
    requires pat != [] && |s| >= |pat| && s[..|pat|] == pat
    ensures Split(s, pat) == [""] + Split(s[|pat|..], pat)
  {
  }

  lemma PrefixThenRest(s: string, p: string)
    requires |s| >= |p| && s[..|p|] == p
    ensures s == p + s[|p|..]
  {
    assert s == s[..|p|] + s[|p|..];
  }

  lemma FirstThenRest(s: string)
    requires s != []
    ensures s == [s[0]] + s[1..]
  {
  }

  lemma JoinSplitPastChar(s: string, pat: string)
    requires pat != [] && |s| >= |pat| && s[..|pat|] != pat
    requires Join(Split(s[1..], pat), pat) == s[1..]
    ensures Join(Split(s, pat), pat) == s
  {
    var t := Split(s[1..], pat);
    SplitPastChar(s, pat);
    JoinPrepend(s[0], t, pat);
    FirstThenRest(s);
  }

  lemma SplitPastChar(s: string, pat: string)
    requires pat != [] && |s| >= |pat| && s[..|pat|] != pat
    ensures var t := Split(s[1..], pat);
      Split(s, pat) == [[s[0]] + t[0]] + t[1..]
  {
  }


  /** Replacing a pattern by itself changes nothing. */
  lemma ReplaceAllSelf(s: string, pat: string)
    requires pat != []
    ensures ReplaceAll(s, pat, pat) == s
  {
    ReplaceAllIsSplitJoin(s, pat, pat);
    JoinSplit(s, pat);
  }

  /** A string in which the pattern does not occur is returned unchanged. */
  lemma {:induction false} ReplaceAllAbsent(s: string, pat: string, rep: string)
    requires pat != []
    requires !Contains(s, pat)
    ensures ReplaceAll(s, pat, rep) == s
    decreases |s|
  {
    if |s| < |pat| {
    } else {
      assert !OccursAt(s, pat, 0);
      OccursShift(s, pat);
      ReplaceAllAbsent(s[1..], pat, rep);
      assert s == [s[0]] + s[1..];
    }
  }

  /** Replacement on a concatenation whose left part ends before any occurrence. */
  lemma {:induction false} ReplaceAllAround(a: string, pat: string, rep: string, b: string)
    requires pat != []
    requires !Contains(a + pat[..|pat| - 1], pat)
    ensures ReplaceAll(a + pat + b, pat, rep) == a + rep + ReplaceAll(b, pat, rep)
    decreases |a|
  {
    if a == [] {
      ReplaceAllAtStart(pat, rep, b);
      assert a + pat + b == pat + b;
    } else {
      ReplaceAllSkipFirst(a, pat, rep, b);
      ReplaceAllAround(a[1..], pat, rep, b);
      ConsTail(a, rep, ReplaceAll(b, pat, rep));
    }
  }

  /** An occurrence at the very start is replaced and scanning resumes after it. */
  lemma ReplaceAllAtStart(pat: string, rep: string, b: string)
    requires pat != []
    ensures ReplaceAll(pat + b, pat, rep) == rep + ReplaceAll(b, pat, rep)
  {
    var s := pat + b;
    assert s[..|pat|] == pat;
    assert s[|pat|..] == b;
  }

  /** When no occurrence starts inside `a`, its first character is copied. */
  lemma ReplaceAllSkipFirst(a: string, pat: string, rep: string, b: string)
    requires pat != [] && a != []
    requires !Contains(a + pat[..|pat| - 1], pat)
    ensures ReplaceAll(a + pat + b, pat, rep) == [a[0]] + ReplaceAll(a[1..] + pat + b, pat, rep)
    ensures !Contains(a[1..] + pat[..|pat| - 1], pat)
  {
    var s := a + pat + b;
    var u := a + pat[..|pat| - 1];
    assert !OccursAt(u, pat, 0);
    assert s[..|pat|] == u[..|pat|] by {
      forall k | 0 <= k < |pat|
        ensures s[k] == u[k]
      {
      }
    }
    assert s[..|pat|] != pat;
    OccursShift(u, pat);
    assert u[1..] == a[1..] + pat[..|pat| - 1];
    assert s[1..] == a[1..] + pat + b;
  }
}
