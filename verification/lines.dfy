/**
 * Python's `str.splitlines()` and `str.split()` (no separator) on ASCII text,
 * each with the inverse it is proved against.
 */
module Lines {
  import opened Text

  /** The ASCII characters `str.splitlines` breaks on: `\n \v \f \r` and `\x1c`-`\x1e`. */
  predicate IsLineBreak(c: char) {
    10 <= c as int <= 13 || 28 <= c as int <= 30
  }

  predicate NoLineBreak(l: string) {
    forall k :: 0 <= k < |l| ==> !IsLineBreak(l[k])
  }

  /** Position of the first line break of `s`, or `|s|` when there is none. */
  function LineEnd(s: string): (i: nat)
    ensures i <= |s|
    ensures NoLineBreak(s[..i])
    ensures i < |s| ==> IsLineBreak(s[i])
  {
    if s == [] || IsLineBreak(s[0]) then 0
    else
      var i := 1 + LineEnd(s[1..]);
      assert s[..i] == [s[0]] + s[1..][..i - 1];
      i
  }

  /**
   * Python's `s.splitlines()`: the lines without their terminators; `\r\n`
   * is one terminator, and a final terminator does not open an empty line.
   */
  function SplitLines(s: string): (r: seq<string>)
    ensures forall k :: 0 <= k < |r| ==> NoLineBreak(r[k])
    decreases |s|
  {
    if s == [] then []
    else
      var i := LineEnd(s);
      if i == |s| then [s]
      else
        var j := if s[i] == '\r' && i + 1 < |s| && s[i + 1] == '\n' then i + 2 else i + 1;
        [s[..i]] + SplitLines(s[j..])
  }

  /** The text of a file whose every line, including the last, ends in `\n`. */
  function Unlines(ls: seq<string>): string {
    if ls == [] then "" else ls[0] + "\n" + Unlines(ls[1..])
  }

  /** Terminated lines concatenate line by line. */
  lemma {:induction false} UnlinesAppend(a: seq<string>, b: seq<string>)
    ensures Unlines(a + b) == Unlines(a) + Unlines(b)
    decreases |a|
  {
    if a == [] {
      assert a + b == b;
    } else {
      assert (a + b)[1..] == a[1..] + b;
      UnlinesAppend(a[1..], b);
    }
  }

  /** A run of consecutive lines, terminated, is part of the text of all of them. */
  lemma UnlinesContainsRun(ls: seq<string>, i: nat, j: nat)
    requires i <= j <= |ls|
    ensures Contains(Unlines(ls), Unlines(ls[i..j]))
  {
    var pre, mid, post := ls[..i], ls[i..j], ls[j..];
    ThreeSlices(ls, i, j);
    UnlinesAppend(pre + mid, post);
    UnlinesAppend(pre, mid);
    ContainsMiddle(Unlines(pre), Unlines(mid), Unlines(post));
  }

  /** Three terminated lines. */
  lemma Unlines3(a: string, b: string, c: string)
    ensures Unlines([a, b, c]) == a + "\n" + b + "\n" + c + "\n"
  {
    assert [a, b, c][1..] == [b, c];
    assert [b, c][1..] == [c];
    assert Unlines([c]) == c + "\n" + Unlines([]);
  }

  /** Each line is part of the text of terminated lines. */
  lemma UnlinesContains(ls: seq<string>, k: nat)
    requires k < |ls|
    ensures Contains(Unlines(ls), ls[k])
  {
    var pre, rest := ls[..k], ls[k..];
    assert ls == pre + rest;
    UnlinesAppend(pre, rest);
    var a, b := Unlines(pre), "\n" + Unlines(rest[1..]);
    assert rest[0] == ls[k];
    assert Unlines(rest) == ls[k] + "\n" + Unlines(rest[1..]);
    AppendAssoc(ls[k], "\n", Unlines(rest[1..]));
    AppendAssoc(a, ls[k], b);
    ContainsMiddle(a, ls[k], b);
  }

  lemma {:induction false} LineEndAfter(l: string, t: string)
    requires NoLineBreak(l)
    ensures LineEnd(l + t) == |l| + LineEnd(t)
    decreases |l|
  {
    if l != [] {
      assert (l + t)[1..] == l[1..] + t;
      LineEndAfter(l[1..], t);
    } else {
      assert l + t == t;
    }
  }

  /** Splitting newline-terminated lines gives the lines back. */
  lemma {:induction false} SplitUnlines(ls: seq<string>)
    requires forall k :: 0 <= k < |ls| ==> NoLineBreak(ls[k])
    ensures SplitLines(Unlines(ls)) == ls
    decreases |ls|
  {
    if ls != [] {
      var l := ls[0];
      var rest := Unlines(ls[1..]);
      var s := l + "\n" + rest;
      assert s == l + ("\n" + rest);
      LineEndAfter(l, "\n" + rest);
      assert LineEnd(s) == |l|;
      assert s[|l|] == '\n';
      assert s[..|l|] == l;
      assert s[|l| + 1..] == rest;
      SplitUnlines(ls[1..]);
      assert SplitLines(s) == [l] + ls[1..];
    }
  }

  /** Two lines separated by one newline split back into the two lines. */
  lemma SplitTwoLines(l1: string, l2: string)
    requires NoLineBreak(l1) && NoLineBreak(l2) && l2 != ""
    ensures SplitLines(l1 + "\n" + l2) == [l1, l2]
  {
    var s := l1 + "\n" + l2;
    assert s == l1 + ("\n" + l2);
    LineEndAfter(l1, "\n" + l2);
    assert s[..|l1|] == l1;
    assert s[|l1| + 1..] == l2;
    assert LineEnd(l2) == |l2|;
  }

  lemma NoLineBreakAppend(a: string, b: string)
    requires NoLineBreak(a) && NoLineBreak(b)
    ensures NoLineBreak(a + b)
  {
    forall k | 0 <= k < |a + b| ensures !IsLineBreak((a + b)[k]) {
      if k < |a| {
        assert (a + b)[k] == a[k];
      } else {
        assert (a + b)[k] == b[k - |a|];
      }
    }
  }

  /** Whitespace-free text has no line break. */
  lemma NoSpaceNoLineBreak(w: string)
    requires NoSpace(w)
    ensures NoLineBreak(w)
  {
  }

  predicate NoSpace(w: string) {
    forall k :: 0 <= k < |w| ==> !IsSpace(w[k])
  }

  lemma NoSpaceAppend(a: string, b: string)
    requires NoSpace(a) && NoSpace(b)
    ensures NoSpace(a + b)
  {
    forall k | 0 <= k < |a + b| ensures !IsSpace((a + b)[k]) {
      if k < |a| {
        assert (a + b)[k] == a[k];
      } else {
        assert (a + b)[k] == b[k - |a|];
      }
    }
  }

  /** Position of the first whitespace character of `s`, or `|s|`. */
  function WordEnd(s: string): (i: nat)
    ensures i <= |s|
    ensures NoSpace(s[..i])
    ensures i < |s| ==> IsSpace(s[i])
  {
    if s == [] || IsSpace(s[0]) then 0
    else
      var i := 1 + WordEnd(s[1..]);
      assert s[..i] == [s[0]] + s[1..][..i - 1];
      i
  }

  /** Python's `s.split()`: the maximal runs of non-whitespace, in order. */
  function Words(s: string): (r: seq<string>)
    ensures forall k :: 0 <= k < |r| ==> r[k] != [] && NoSpace(r[k])
    decreases |s|
  {
    var t := TrimStart(s, IsSpace);
    if t == [] then []
    else
      var i := WordEnd(t);
      [t[..i]] + Words(t[i..])
  }

  /** A word is non-empty and free of whitespace. */
  predicate IsWord(w: string) {
    w != [] && NoSpace(w)
  }

  lemma {:induction false} WordEndAfter(w: string, t: string)
    requires NoSpace(w)
    ensures WordEnd(w + t) == |w| + WordEnd(t)
    decreases |w|
  {
    if w != [] {
      assert (w + t)[1..] == w[1..] + t;
      WordEndAfter(w[1..], t);
    } else {
      assert w + t == t;
    }
  }

  /** Leading whitespace does not change the words. */
  lemma WordsAfterSpace(t: string)
    ensures Words(" " + t) == Words(t)
  {
    assert (" " + t)[1..] == t;
    assert TrimStart(" " + t, IsSpace) == TrimStart(t, IsSpace);
  }

  /** A word followed by nothing or by whitespace is the first word. */
  lemma WordsCons(w: string, t: string)
    requires IsWord(w)
    requires t == [] || IsSpace(t[0])
    ensures Words(w + t) == [w] + Words(t)
  {
    var s := w + t;
    assert TrimStart(s, IsSpace) == s;
    WordEndAfter(w, t);
    assert WordEnd(t) == 0;
    assert s[..|w|] == w;
    assert s[|w|..] == t;
  }

  /** The first of several space-joined words is split off first. */
  lemma WordsJoinStep(ws: seq<string>)
    requires |ws| >= 2 && IsWord(ws[0])
    ensures Words(Join(ws, " ")) == [ws[0]] + Words(Join(ws[1..], " "))
  {
    var rest := Join(ws[1..], " ");
    var t := " " + rest;
    assert Join(ws, " ") == ws[0] + " " + rest;
    AppendAssoc(ws[0], " ", rest);
    assert IsSpace(t[0]);
    WordsCons(ws[0], t);
    WordsAfterSpace(rest);
  }

  lemma WordsEmpty()
    ensures Words("") == []
  {
    assert TrimStart("", IsSpace) == "";
  }

  lemma WordsSingle(w: string)
    requires IsWord(w)
    ensures Words(w) == [w]
  {
    WordsCons(w, "");
    assert w + "" == w;
    WordsEmpty();
  }

  lemma WordsJoinCons(ws: seq<string>)
    requires |ws| >= 2 && IsWord(ws[0])
    requires Words(Join(ws[1..], " ")) == ws[1..]
    ensures Words(Join(ws, " ")) == ws
  {
    WordsJoinStep(ws);
    assert ws == [ws[0]] + ws[1..];
  }

  /** Splitting words joined by single spaces gives the words back. */
  lemma {:induction false} WordsJoin(ws: seq<string>)
    requires forall k :: 0 <= k < |ws| ==> IsWord(ws[k])
    ensures Words(Join(ws, " ")) == ws
    decreases |ws|
  {
    if ws == [] {
      assert Join(ws, " ") == "";
      WordsEmpty();
    } else if |ws| == 1 {
      assert Join(ws, " ") == ws[0];
      WordsSingle(ws[0]);
    } else {
      var tail := ws[1..];
      forall k | 0 <= k < |tail| ensures IsWord(tail[k]) {
        assert tail[k] == ws[k + 1];
      }
      WordsJoin(tail);
      WordsJoinCons(ws);
    }
  }

  /** Text made only of whitespace. */
  predicate AllSpace(w: string) {
    forall k :: 0 <= k < |w| ==> IsSpace(w[k])
  }

  lemma {:induction false} TrimAllSpace(w: string)
    requires AllSpace(w)
    ensures TrimStart(w, IsSpace) == []
    decreases |w|
  {
    if w != [] {
      assert AllSpace(w[1..]) by {
        forall k | 0 <= k < |w[1..]| ensures IsSpace(w[1..][k]) {
          assert w[1..][k] == w[k + 1];
        }
      }
      TrimAllSpace(w[1..]);
    }
  }

  /** Whitespace-only text has no words. */
  lemma WordsOfSpace(w: string)
    requires AllSpace(w)
    ensures Words(w) == []
  {
    TrimAllSpace(w);
  }

  /** Leading whitespace is dropped the same way whatever follows, once a non-space is reached. */
  lemma {:induction false} TrimStartAppend(e: string, x: string)
    requires TrimStart(e, IsSpace) != []
    ensures TrimStart(e + x, IsSpace) == TrimStart(e, IsSpace) + x
    decreases |e|
  {
    assert e != [];
    assert (e + x)[0] == e[0];
    if IsSpace(e[0]) {
      assert (e + x)[1..] == e[1..] + x;
      TrimStartAppend(e[1..], x);
    }
  }

  /** A word that ends inside `t` ends at the same place whatever follows `t`. */
  lemma {:induction false} WordEndBefore(t: string, x: string)
    requires WordEnd(t) < |t|
    ensures WordEnd(t + x) == WordEnd(t)
    decreases |t|
  {
    assert (t + x)[0] == t[0];
    if !IsSpace(t[0]) {
      assert (t + x)[1..] == t[1..] + x;
      WordEndBefore(t[1..], x);
    }
  }

  /** Words skip leading whitespace, so trimming it first changes nothing. */
  lemma WordsOfTrimStart(s: string)
    ensures Words(TrimStart(s, IsSpace)) == Words(s)
  {
    var t := TrimStart(s, IsSpace);
    assert TrimStart(t, IsSpace) == t;
  }

  /** Trailing whitespace adds no word. */
  lemma {:induction false} WordsDropTrailing(e: string, sp: string)
    requires AllSpace(sp)
    ensures Words(e + sp) == Words(e)
    decreases |e|
  {
    var t := TrimStart(e, IsSpace);
    if t == [] {
      BlankThenSpace(e, sp);
    } else if WordEnd(t) < |t| {
      var j := WordEnd(t);
      WordThenMore(e, sp);
      WordsDropTrailing(t[j..], sp);
    } else {
      LastWordThenSpace(e, sp);
    }
  }

  lemma BlankThenSpace(e: string, sp: string)
    requires TrimStart(e, IsSpace) == [] && AllSpace(sp)
    ensures Words(e + sp) == [] && Words(e) == []
  {
    assert AllSpace(e + sp) by {
      forall k | 0 <= k < |e + sp| ensures IsSpace((e + sp)[k]) {
        if k < |e| {
          assert (e + sp)[k] == e[k];
        } else {
          assert (e + sp)[k] == sp[k - |e|];
        }
      }
    }
    WordsOfSpace(e + sp);
  }

  /** One step of `Words`: the first word after the leading whitespace, then the words of the rest. */
  lemma WordsUnfold(s: string)
    requires TrimStart(s, IsSpace) != []
    ensures var t := TrimStart(s, IsSpace); var j := WordEnd(t);
      Words(s) == [t[..j]] + Words(t[j..])
  {
  }

  /** The first word of `e` ends inside it: it is also the first word of `e + sp`. */
  lemma WordThenMore(e: string, sp: string)
    requires TrimStart(e, IsSpace) != []
    requires WordEnd(TrimStart(e, IsSpace)) < |TrimStart(e, IsSpace)|
    ensures var t := TrimStart(e, IsSpace); var j := WordEnd(t);
      && Words(e) == [t[..j]] + Words(t[j..])
      && Words(e + sp) == [t[..j]] + Words(t[j..] + sp)
  {
    var t := TrimStart(e, IsSpace);
    var j := WordEnd(t);
    TrimStartAppend(e, sp);
    var u := t + sp;
    WordEndBefore(t, sp);
    TakeOfLeft(t, sp, j);
    DropOfLeft(t, sp, j);
    WordsUnfold(e);
    WordsUnfold(e + sp);
  }

  /** `e` has one word left and `sp` is whitespace: both give just that word. */
  lemma LastWordThenSpace(e: string, sp: string)
    requires AllSpace(sp)
    requires TrimStart(e, IsSpace) != []
    requires WordEnd(TrimStart(e, IsSpace)) == |TrimStart(e, IsSpace)|
    ensures Words(e + sp) == Words(e)
  {
    var t := TrimStart(e, IsSpace);
    TrimStartAppend(e, sp);
    var u := t + sp;
    WholeSlices(t);
    WordEndAfter(t, sp);
    assert WordEnd(u) == |t|;
    TakeOfLeft(t, sp, |t|);
    DropOfLeft(t, sp, |t|);
    assert [] + sp == sp;
    WordsOfSpace(sp);
    WordsEmpty();
    WordsUnfold(e);
    WordsUnfold(e + sp);
  }

  /** Trimming trailing space leaves a prefix followed by nothing but space. */
  lemma TrimEndTail(u: string)
    ensures var r := TrimEnd(u, IsSpace); u == r + u[|r|..] && AllSpace(u[|r|..])
  {
    var r := TrimEnd(u, IsSpace);
    var sp := u[|r|..];
    assert AllSpace(sp) by {
      forall k | 0 <= k < |sp| ensures IsSpace(sp[k]) {
        assert sp[k] == u[|r| + k];
      }
    }
  }

  /** Python's `s.split()` and `s.strip().split()` agree. */
  lemma WordsOfStrip(s: string)
    ensures Words(Strip(s)) == Words(s)
  {
    var u := TrimStart(s, IsSpace);
    var r := TrimEnd(u, IsSpace);
    assert Strip(s) == r;
    TrimEndTail(u);
    WordsDropTrailing(r, u[|r|..]);
    WordsOfTrimStart(s);
  }

  /** A newline-terminated line of space-joined words splits back into those words. */
  lemma WordsOfJoinedLine(ws: seq<string>)
    requires forall k :: 0 <= k < |ws| ==> IsWord(ws[k])
    ensures Words(Join(ws, " ") + "\n") == ws
  {
    assert AllSpace("\n");
    WordsDropTrailing(Join(ws, " "), "\n");
    WordsJoin(ws);
  }
}
