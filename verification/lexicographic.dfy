/**
 * Python's ordering of `str` values (code point by code point, a proper prefix
 * first) and the strictly ascending sequences produced by `sorted(set(...))`.
 */
module Lexicographic {

  /** Python's `a < b` on strings. */
  predicate Less(a: string, b: string) {
    if a == [] then b != []
    else if b == [] then false
    else a[0] < b[0] || (a[0] == b[0] && Less(a[1..], b[1..]))
  }

  lemma {:induction false} LessIrreflexive(a: string)
    ensures !Less(a, a)
  {
    if a != [] {
      LessIrreflexive(a[1..]);
    }
  }

  lemma {:induction false} LessTransitive(a: string, b: string, c: string)
    requires Less(a, b) && Less(b, c)
    ensures Less(a, c)
  {
    if a != [] && b != [] && c != [] && a[0] == b[0] == c[0] {
      LessTransitive(a[1..], b[1..], c[1..]);
    }
  }

  lemma {:induction false} LessTotal(a: string, b: string)
    ensures a == b || Less(a, b) || Less(b, a)
  {
    if a != [] && b != [] && a[0] == b[0] {
      LessTotal(a[1..], b[1..]);
      if a[1..] == b[1..] {
        assert a == [a[0]] + a[1..] && b == [b[0]] + b[1..];
      }
    }
  }

  lemma LessAsymmetric(a: string, b: string)
    requires Less(a, b)
    ensures !Less(b, a)
  {
    if Less(b, a) {
      LessTransitive(a, b, a);
      LessIrreflexive(a);
    }
  }

  predicate StrictlyAscending(xs: seq<string>) {
    forall i, j :: 0 <= i < j < |xs| ==> Less(xs[i], xs[j])
  }

  /** Adds `x` to a strictly ascending sequence, keeping it strictly ascending. */
  function Insert(xs: seq<string>, x: string): (r: seq<string>)
    requires StrictlyAscending(xs)
    ensures StrictlyAscending(r)
    ensures forall y :: y in r <==> y in xs || y == x
  {
    if xs == [] then [x]
    else if x == xs[0] then xs
    else if Less(x, xs[0]) then
      assert forall j :: 0 <= j < |xs| ==> Less(x, xs[j]) by {
        forall j | 0 <= j < |xs| ensures Less(x, xs[j]) {
          if j > 0 {
            LessTransitive(x, xs[0], xs[j]);
          }
        }
      }
      [x] + xs
    else
      LessTotal(x, xs[0]);
      var t := Insert(xs[1..], x);
      assert forall y :: y in t ==> Less(xs[0], y);
      assert forall y :: y in xs <==> y == xs[0] || y in xs[1..];
      [xs[0]] + t
  }

  /** Python's `sorted(set(xs))`: the distinct elements of `xs` in ascending order. */
  function SortedSet(xs: seq<string>): (r: seq<string>)
    ensures StrictlyAscending(r)
    ensures forall y :: y in r <==> y in xs
  {
    if xs == [] then []
    else
      assert forall y :: y in xs <==> y in xs[..|xs| - 1] || y == xs[|xs| - 1];
      Insert(SortedSet(xs[..|xs| - 1]), xs[|xs| - 1])
  }

  /** Two strictly ascending sequences with the same elements are equal. */
  lemma {:induction false} AscendingUnique(xs: seq<string>, ys: seq<string>)
    requires StrictlyAscending(xs) && StrictlyAscending(ys)
    requires forall y :: y in xs <==> y in ys
    ensures xs == ys
    decreases |xs|
  {
    assert xs == [] <==> ys == [] by {
      if xs != [] {
        assert xs[0] in xs;
      }
      if ys != [] {
        assert ys[0] in ys;
      }
    }
    if xs != [] {
      // The first element of each is the least element of both.
      assert xs[0] in xs && ys[0] in ys;
      var i :| 0 <= i < |ys| && ys[i] == xs[0];
      var j :| 0 <= j < |xs| && xs[j] == ys[0];
      if i > 0 && j > 0 {
        LessAsymmetric(ys[0], ys[i]);
      }
      if i > 0 && j == 0 {
        LessIrreflexive(ys[0]);
      }
      if i == 0 && j > 0 {
        LessIrreflexive(xs[0]);
      }
      assert xs[0] == ys[0];
      assert xs == [xs[0]] + xs[1..] && ys == [ys[0]] + ys[1..];
      forall y ensures y in xs[1..] <==> y in ys[1..] {
        if y in xs[1..] {
          var k :| 0 <= k < |xs[1..]| && xs[1..][k] == y;
          assert xs[k + 1] == y;
          LessIrreflexive(xs[0]);
          assert y in ys && y != ys[0];
        }
        if y in ys[1..] {
          var k :| 0 <= k < |ys[1..]| && ys[1..][k] == y;
          assert ys[k + 1] == y;
          LessIrreflexive(ys[0]);
          assert y in xs && y != xs[0];
        }
      }
      AscendingUnique(xs[1..], ys[1..]);
      assert xs == [xs[0]] + xs[1..] && ys == [ys[0]] + ys[1..];
    }
  }

  /** A strictly ascending sequence has no repeated element. */
  lemma AscendingDistinct(xs: seq<string>)
    requires StrictlyAscending(xs)
    ensures forall i, j :: 0 <= i < j < |xs| ==> xs[i] != xs[j]
  {
    forall i, j | 0 <= i < j < |xs| ensures xs[i] != xs[j] {
      LessIrreflexive(xs[i]);
    }
  }
}
