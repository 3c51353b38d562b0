/** Python's whitespace operations on strings: `strip()`, `re.sub(r'\s+', ' ', s)`
    and the argument-less `split()`, all over the `str.isspace` character class. */
module Whitespace {
  import opened Chars
  import opened Seqs

  predicate AllSpace(s: string) {
    forall i :: 0 <= i < |s| ==> IsSpace(s[i])
  }

  /** Neither end of `s` is whitespace. */
  predicate Trimmed(s: string) {
    |s| == 0 || (!IsSpace(s[0]) && !IsSpace(s[|s| - 1]))
  }

  /** The only whitespace character in `s` is `' '`, and no two of them are adjacent. */
  predicate SingleSpaced(s: string) {
    |s| == 0 ||
    (&& (IsSpace(s[0]) ==> s[0] == ' ' && (|s| == 1 || !IsSpace(s[1])))
     && SingleSpaced(s[1..]))
  }

  /** A non-empty run of non-whitespace characters. */
  predicate IsWord(w: string) {
    |w| > 0 && forall i :: 0 <= i < |w| ==> !IsSpace(w[i])
  }

  predicate AllWords(ws: seq<string>) {
    forall i :: 0 <= i < |ws| ==> IsWord(ws[i])
  }

  /** `s.lstrip()`: the suffix left after dropping leading whitespace. */
  function TrimStart(s: string): (r: string)
    ensures |r| <= |s| && r == s[|s| - |r|..]
    ensures AllSpace(s[..|s| - |r|])
    ensures |r| == 0 || !IsSpace(r[0])
  {
    if |s| > 0 && IsSpace(s[0]) then
      var r := TrimStart(s[1..]);
      SpaceBefore(s, r);
      r
    else s
  }

  /** A suffix of `s[1..]` behind a whitespace run is one of `s` when `s[0]` is whitespace. */
  lemma SpaceBefore(s: string, r: string)
    requires |s| > 0 && IsSpace(s[0])
    requires |r| <= |s| - 1 && r == s[1..][|s| - 1 - |r|..] && AllSpace(s[1..][..|s| - 1 - |r|])
    ensures r == s[|s| - |r|..] && AllSpace(s[..|s| - |r|])
  {
    assert s[..|s| - |r|] == [s[0]] + s[1..][..|s| - 1 - |r|];
  }

  /** `s.rstrip()`: the prefix left after dropping trailing whitespace. */
  function TrimEnd(s: string): (r: string)
    ensures |r| <= |s| && r == s[..|r|]
    ensures AllSpace(s[|r|..])
    ensures |r| == 0 || !IsSpace(r[|r| - 1])
  {
    if |s| > 0 && IsSpace(s[|s| - 1]) then
      var r := TrimEnd(s[..|s| - 1]);
      SpaceAfter(s, r);
      r
    else s
  }

  /** A prefix of `s[..|s| - 1]` ahead of a whitespace run is one of `s` when the
      last character of `s` is whitespace. */
  lemma SpaceAfter(s: string, r: string)
    requires |s| > 0 && IsSpace(s[|s| - 1])
    requires |r| <= |s| - 1 && r == s[..|s| - 1][..|r|] && AllSpace(s[..|s| - 1][|r|..])
    ensures r == s[..|r|] && AllSpace(s[|r|..])
  {
    assert s[|r|..] == s[..|s| - 1][|r|..] + [s[|s| - 1]];
  }

  /** `r` is `s` with a whitespace run removed from each end. */
  predicate StripsTo(s: string, r: string) {
    exists i :: 0 <= i && i + |r| <= |s| && r == s[i..i + |r|] && AllSpace(s[..i]) && AllSpace(s[i + |r|..])
  }

  /** `s.strip()`: drop the leading, then the trailing whitespace run. */
  function Strip(s: string): (r: string)
    ensures Trimmed(r)
    ensures |r| <= |s|
  {
    TrimEnd(TrimStart(s))
  }

  /** What `strip()` returns is the infix of `s` between a leading and a trailing
      whitespace run. */
  lemma StripIsInfix(s: string)
    ensures StripsTo(s, Strip(s))
  {
    InfixOfSuffix(s, TrimStart(s), TrimEnd(TrimStart(s)));
  }

  /** A prefix `r` of a suffix `t` of `s`, with whitespace before `t` and after
      `r`, is what is left of `s` after stripping both ends. */
  lemma InfixOfSuffix(s: string, t: string, r: string)
    requires |t| <= |s| && t == s[|s| - |t|..] && AllSpace(s[..|s| - |t|])
    requires |r| <= |t| && r == t[..|r|] && AllSpace(t[|r|..])
    ensures StripsTo(s, r)
  {
    var i := |s| - |t|;
    SliceOfSuffix(s, i, |r|);
    StripsToAt(s, r, i);
  }

  /** Slicing the suffix of `s` from `i` is slicing `s` further along. */
  lemma SliceOfSuffix(s: string, i: nat, n: nat)
    requires i + n <= |s|
    ensures s[i..][..n] == s[i..i + n]
    ensures s[i..][n..] == s[i + n..]
  {
  }

  /** The witness for `StripsTo`. */
  lemma StripsToAt(s: string, r: string, i: nat)
    requires i + |r| <= |s| && r == s[i..i + |r|]
    requires AllSpace(s[..i]) && AllSpace(s[i + |r|..])
    ensures StripsTo(s, r)
  {
  }

  /** `re.sub(r'\s+', ' ', s)`: every maximal run of whitespace becomes a single `' '`. */
  function Collapse(s: string): (r: string)
    ensures SingleSpaced(r)
    ensures |s| == 0 <==> |r| == 0
    ensures |s| > 0 ==> r[0] == if IsSpace(s[0]) then ' ' else s[0]
    decreases |s|
  {
    if |s| == 0 then []
    else if IsSpace(s[0]) then [' '] + Collapse(TrimStart(s))
    else [s[0]] + Collapse(s[1..])
  }

  /** Collapsing adds no character but `' '`, so ASCII text stays ASCII. */
  lemma {:induction false} CollapseKeepsAscii(s: string)
    requires IsAsciiString(s)
    ensures IsAsciiString(Collapse(s))
    decreases |s|
  {
    if |s| > 0 {
      if IsSpace(s[0]) {
        CollapseKeepsAscii(TrimStart(s));
      } else {
        CollapseKeepsAscii(s[1..]);
      }
    }
  }

  /** Collapsing keeps every non-whitespace character, in order. */
  lemma {:induction false} CollapseKeepsContent(s: string)
    ensures Filter(NotSpace, Collapse(s)) == Filter(NotSpace, s)
    decreases |s|
  {
    if |s| == 0 {
    } else if IsSpace(s[0]) {
      var t := TrimStart(s);
      var k := |s| - |t|;
      assert s == s[..k] + t;
      FilterAppend(NotSpace, s[..k], t);
      FilterNone(NotSpace, s[..k]);
      FilterAppend(NotSpace, [' '], Collapse(t));
      FilterNone(NotSpace, [' ']);
      CollapseKeepsContent(t);
    } else {
      assert s == [s[0]] + s[1..];
      CollapseKeepsContent(s[1..]);
    }
  }

  /** Length of the leading run of non-whitespace characters. */
  function WordLength(s: string): (n: nat)
    ensures n <= |s|
    ensures forall i :: 0 <= i < n ==> !IsSpace(s[i])
    ensures n < |s| ==> IsSpace(s[n])
  {
    if |s| == 0 || IsSpace(s[0]) then 0 else 1 + WordLength(s[1..])
  }

  /** Collapsing whitespace runs keeps the words, in order. */
  lemma {:induction false} SplitCollapse(x: string)
    ensures Split(Collapse(x)) == Split(x)
    decreases |x|
  {
    if |x| == 0 {
    } else if IsSpace(x[0]) {
      var t := TrimStart(x);
      assert t == TrimStart(x[1..]);
      SplitCollapse(t);
      SplitSkipsSpace(Collapse(t));
      SplitTrimStart(x);
    } else {
      var n := WordLength(x);
      LeadingWord(x);
      var w, tail := x[..n], x[n..];
      assert x == w + tail;
      CollapseWord(w, tail);
      SplitWord(w, tail);
      SplitWord(w, Collapse(tail));
      SplitCollapse(tail);
    }
  }

  /** A word is copied through `Collapse` unchanged. */
  lemma {:induction false} CollapseWord(w: string, tail: string)
    requires forall i :: 0 <= i < |w| ==> !IsSpace(w[i])
    ensures Collapse(w + tail) == w + Collapse(tail)
    decreases |w|
  {
    if |w| == 0 {
      assert w + tail == tail;
    } else {
      var x := w + tail;
      ConsAppend(w, tail);
      CollapseFront(x);
      assert forall i :: 0 <= i < |w[1..]| ==> !IsSpace(w[1..][i]);
      CollapseWord(w[1..], tail);
      Regroup(w, Collapse(x), Collapse(tail));
    }
  }

  lemma Regroup(w: string, c: string, ct: string)
    requires |w| > 0 && c == [w[0]] + (w[1..] + ct)
    ensures c == w + ct
  {
    HeadTail(w);
    AppendAssoc([w[0]], w[1..], ct);
  }

  /** A non-whitespace first character is copied through `Collapse`. */
  lemma CollapseFront(x: string)
    requires |x| > 0 && !IsSpace(x[0])
    ensures Collapse(x) == [x[0]] + Collapse(x[1..])
  {
  }

  /** Stripping keeps the words, in order. */
  lemma SplitStrip(s: string)
    ensures Split(Strip(s)) == Split(s)
  {
    SplitTrimEnd(TrimStart(s));
    SplitTrimStart(s);
  }

  /** Trailing whitespace does not change how a string splits. */
  lemma SplitTrimEnd(t: string)
    ensures Split(TrimEnd(t)) == Split(t)
  {
    var r := TrimEnd(t);
    var sp := t[|r|..];
    assert t == r + sp;
    SplitSpaceTail(r, sp);
  }

  /** Leading whitespace does not change how a string splits. */
  lemma {:induction false} SplitTrimStart(s: string)
    ensures Split(TrimStart(s)) == Split(s)
    decreases |s|
  {
    if |s| > 0 && IsSpace(s[0]) {
      assert TrimStart(s) == TrimStart(s[1..]);
      SplitTrimStart(s[1..]);
      SplitDropSpace(s);
    }
  }

  lemma SplitDropSpace(s: string)
    requires |s| > 0 && IsSpace(s[0])
    ensures Split(s) == Split(s[1..])
  {
    assert TrimStart(s) == TrimStart(s[1..]);
  }

  /** Trailing whitespace does not change how a string splits. */
  lemma {:induction false} SplitSpaceTail(a: string, sp: string)
    requires AllSpace(sp)
    ensures Split(a + sp) == Split(a)
    decreases |a|
  {
    if |a| == 0 {
      assert a + sp == sp;
      AllSpaceTrims(sp);
    } else if IsSpace(a[0]) {
      assert (a + sp)[1..] == a[1..] + sp;
      SplitDropSpace(a + sp);
      SplitDropSpace(a);
      SplitSpaceTail(a[1..], sp);
    } else {
      var n := WordLength(a);
      LeadingWord(a);
      var w, tail := a[..n], a[n..];
      CutAfterWord(a, n, sp);
      SplitWord(w, tail);
      SplitWord(w, tail + sp);
      SplitSpaceTail(tail, sp);
    }
  }

  /** A string cut behind its first word, with whitespace appended. */
  lemma CutAfterWord(a: string, n: nat, sp: string)
    requires 0 < n <= |a| && (n < |a| ==> IsSpace(a[n])) && AllSpace(sp)
    ensures a == a[..n] + a[n..] && a + sp == a[..n] + (a[n..] + sp)
    ensures |a[n..] + sp| == 0 || IsSpace((a[n..] + sp)[0])
  {
    var tail := a[n..];
    assert a == a[..n] + tail;
    AppendAssoc(a[..n], tail, sp);
    if |tail| == 0 {
      assert tail + sp == sp;
    } else {
      assert (tail + sp)[0] == a[n];
    }
  }

  /** A string of whitespace holds no word. */
  lemma AllSpaceTrims(s: string)
    requires AllSpace(s)
    ensures TrimStart(s) == [] && Split(s) == []
  {
  }

  /** A string without whitespace at either end and with only lone `' '`s is
      the `" "`-join of its words. */
  lemma {:induction false} TrimmedSingleSpacedIsJoin(s: string)
    requires Trimmed(s) && SingleSpaced(s)
    ensures s == Join(" ", Split(s))
    decreases |s|
  {
    if |s| > 0 {
      var n := WordLength(s);
      LeadingWord(s);
      if n == |s| {
        WholeWord(s);
      } else {
        SpacedTail(s, n);
        var u := s[n + 1..];
        TrimmedSingleSpacedIsJoin(u);
        CutAtSpace(s, n);
        SplitAfterWord(s[..n], u);
        JoinNonEmpty(Split(u));
        WordThenJoin(s, s[..n], u, Split(u));
      }
    }
  }

  /** A single word splits into itself. */
  lemma WholeWord(s: string)
    requires IsWord(s)
    ensures Split(s) == [s]
  {
    SplitWord(s, []);
    assert s + [] == s;
  }

  /** A word followed by `' '` splits into that word and the words of the rest. */
  lemma SplitAfterWord(w: string, u: string)
    requires IsWord(w)
    ensures Split(w + (" " + u)) == [w] + Split(u)
  {
    SplitWord(w, " " + u);
    SplitSkipsSpace(u);
  }

  /** A word, a `' '` and the join of a non-empty word list make the join of
      the longer list. */
  lemma WordThenJoin(s: string, w: string, u: string, ws: seq<string>)
    requires s == w + (" " + u) && u == Join(" ", ws) && |ws| > 0
    ensures s == Join(" ", [w] + ws)
  {
    JoinCons(w, ws);
    AppendAssoc(w, " ", u);
  }

  /** After a word of a trimmed, single-spaced string come one `' '` and
      another trimmed, single-spaced string. */
  lemma SpacedTail(s: string, n: nat)
    requires Trimmed(s) && SingleSpaced(s)
    requires 0 < n < |s| && IsSpace(s[n])
    ensures n + 1 < |s| && s[n] == ' '
    ensures Trimmed(s[n + 1..]) && SingleSpaced(s[n + 1..])
  {
    SingleSpacedSuffix(s, n);
    var t := s[n..];
    assert t[0] == s[n];
    assert |t| > 1 by {
      assert t[|t| - 1] == s[|s| - 1];
    }
    assert t[0] == ' ' && !IsSpace(t[1]) && SingleSpaced(t[1..]);
    var u := s[n + 1..];
    assert u == t[1..];
    assert u[0] == t[1];
    assert u[|u| - 1] == s[|s| - 1];
  }

  /** A string cut around a `' '` at position `n`. */
  lemma CutAtSpace(s: string, n: nat)
    requires n < |s| && s[n] == ' '
    ensures s == s[..n] + (" " + s[n + 1..])
  {
    assert s[n..] == " " + s[n + 1..];
    assert s == s[..n] + s[n..];
  }

  /** Only an empty list has an empty join. */
  lemma JoinNonEmpty(ws: seq<string>)
    requires |Join(" ", ws)| > 0
    ensures |ws| > 0
  {
  }

  /** The `" "`-join of a word in front of a non-empty word list. */
  lemma JoinCons(w: string, ws: seq<string>)
    requires |ws| > 0
    ensures Join(" ", [w] + ws) == w + " " + Join(" ", ws)
  {
    assert ([w] + ws)[1..] == ws;
  }

  /** `s.split()`: the maximal runs of non-whitespace characters, in order. */
  function Split(s: string): (r: seq<string>)
    ensures AllWords(r)
    decreases |s|
  {
    var t := TrimStart(s);
    if |t| == 0 then []
    else
      var n := WordLength(t);
      LeadingWord(t);
      var rest := Split(t[n..]);
      AllWordsCons(t[..n], rest);
      [t[..n]] + rest
  }

  /** A string that starts with a non-whitespace character starts with a word. */
  lemma LeadingWord(t: string)
    requires |t| > 0 && !IsSpace(t[0])
    ensures 0 < WordLength(t) <= |t| && IsWord(t[..WordLength(t)])
  {
  }

  lemma AllWordsCons(w: string, ws: seq<string>)
    requires IsWord(w) && AllWords(ws)
    ensures AllWords([w] + ws)
  {
  }

  /** Stripping a string that has no whitespace at either end changes nothing. */
  lemma {:induction false} StripTrimmed(s: string)
    requires Trimmed(s)
    ensures Strip(s) == s
  {
  }

  /** Stripping keeps the string ASCII and single-spaced. */
  lemma StripKeepsShape(s: string)
    ensures IsAsciiString(s) ==> IsAsciiString(Strip(s))
    ensures SingleSpaced(s) ==> SingleSpaced(Strip(s))
  {
    InfixKeepsShape(s, TrimStart(s), Strip(s));
  }

  /** A prefix `r` of a suffix `t` of `s` keeps the shape of `s`. */
  lemma InfixKeepsShape(s: string, t: string, r: string)
    requires |t| <= |s| && t == s[|s| - |t|..]
    requires |r| <= |t| && r == t[..|r|]
    ensures IsAsciiString(s) ==> IsAsciiString(r)
    ensures SingleSpaced(s) ==> SingleSpaced(r)
  {
    if SingleSpaced(s) {
      SingleSpacedSuffix(s, |s| - |t|);
      SingleSpacedPrefix(t, |r|);
    }
  }

  lemma {:induction false} SingleSpacedSuffix(s: string, k: nat)
    requires k <= |s| && SingleSpaced(s)
    ensures SingleSpaced(s[k..])
  {
    if k > 0 {
      SingleSpacedSuffix(s[1..], k - 1);
      assert s[1..][k - 1..] == s[k..];
    }
  }

  lemma {:induction false} SingleSpacedPrefix(s: string, k: nat)
    requires k <= |s| && SingleSpaced(s)
    ensures SingleSpaced(s[..k])
  {
    if k > 0 {
      SingleSpacedPrefix(s[1..], k - 1);
      assert s[..k][1..] == s[1..][..k - 1];
    }
  }

  /** Stripping keeps every non-whitespace character, in order. */
  lemma StripKeepsContent(s: string)
    ensures Filter(NotSpace, Strip(s)) == Filter(NotSpace, s)
  {
    TrimStartKeepsContent(s);
    TrimEndKeepsContent(TrimStart(s));
  }

  lemma TrimStartKeepsContent(s: string)
    ensures Filter(NotSpace, TrimStart(s)) == Filter(NotSpace, s)
  {
    var t := TrimStart(s);
    var k := |s| - |t|;
    assert s == s[..k] + t;
    SpaceAhead(s[..k], t);
  }

  lemma TrimEndKeepsContent(s: string)
    ensures Filter(NotSpace, TrimEnd(s)) == Filter(NotSpace, s)
  {
    var r := TrimEnd(s);
    assert s == r + s[|r|..];
    SpaceBehind(r, s[|r|..]);
  }

  /** Whitespace in front of `m` adds no content. */
  lemma SpaceAhead(a: string, m: string)
    requires AllSpace(a)
    ensures Filter(NotSpace, a + m) == Filter(NotSpace, m)
  {
    FilterAppend(NotSpace, a, m);
    FilterNone(NotSpace, a);
  }

  /** Whitespace behind `m` adds no content. */
  lemma SpaceBehind(m: string, b: string)
    requires AllSpace(b)
    ensures Filter(NotSpace, m + b) == Filter(NotSpace, m)
  {
    FilterAppend(NotSpace, m, b);
    FilterNone(NotSpace, b);
  }

  /** A string that is already single-spaced is a fixed point of `Collapse`. */
  lemma {:induction false} CollapseSingleSpaced(s: string)
    requires SingleSpaced(s)
    ensures Collapse(s) == s
    decreases |s|
  {
    if |s| > 0 {
      var t := s[1..];
      CollapseSingleSpaced(t);
      assert s == [s[0]] + t;
      if IsSpace(s[0]) {
        assert TrimStart(s) == t;
      }
    }
  }

  /** Splitting the `" "`-join of words gives the words back. */
  lemma {:induction false} SplitJoin(ws: seq<string>)
    requires AllWords(ws)
    ensures Split(Join(" ", ws)) == ws
  {
    if |ws| > 0 {
      assert AllWords(ws[1..]);
      SplitJoin(ws[1..]);
      SplitJoinFirst(ws);
      HeadTail(ws);
    }
  }

  /** The first word of a `" "`-join is the first piece `Split` cuts off. */
  lemma {:induction false} SplitJoinFirst(ws: seq<string>)
    requires |ws| > 0 && IsWord(ws[0])
    ensures Split(Join(" ", ws)) == [ws[0]] + Split(Join(" ", ws[1..]))
  {
    if |ws| == 1 {
      SplitWord(ws[0], []);
      assert ws[0] + [] == ws[0];
    } else {
      var tail := Join(" ", ws[1..]);
      assert Join(" ", ws) == ws[0] + (" " + tail);
      SplitWord(ws[0], " " + tail);
      SplitSkipsSpace(tail);
    }
  }

  /** A word followed by text that is empty or starts with whitespace is
      the first piece `Split` cuts off. */
  lemma {:induction false} SplitWord(w: string, tail: string)
    requires IsWord(w)
    requires |tail| == 0 || IsSpace(tail[0])
    ensures Split(w + tail) == [w] + Split(tail)
  {
    var s := w + tail;
    WordIsItsOwnRun(w, tail);
    assert s[..|w|] == w;
    assert s[|w|..] == tail;
  }

  /** Whitespace in front of the text does not change how it splits. */
  lemma {:induction false} SplitSkipsSpace(x: string)
    ensures Split(" " + x) == Split(x)
  {
    assert (" " + x)[1..] == x;
    assert TrimStart(" " + x) == TrimStart(x);
  }

  /** A word followed by text that is empty or starts with whitespace is
      the first run that `Split` cuts off. */
  lemma {:induction false} WordIsItsOwnRun(w: string, tail: string)
    requires IsWord(w)
    requires |tail| == 0 || IsSpace(tail[0])
    ensures TrimStart(w + tail) == w + tail
    ensures WordLength(w + tail) == |w|
  {
    WordLengthPrefix(w, tail);
  }

  lemma {:induction false} WordLengthPrefix(w: string, tail: string)
    requires forall i :: 0 <= i < |w| ==> !IsSpace(w[i])
    requires |tail| == 0 || IsSpace(tail[0])
    ensures WordLength(w + tail) == |w|
  {
    if |w| > 0 {
      assert (w + tail)[1..] == w[1..] + tail;
      WordLengthPrefix(w[1..], tail);
    }
  }

  /** The `" "`-join of a non-empty list of words starts with a non-whitespace character. */
  lemma {:induction false} JoinStartsWithWord(ws: seq<string>)
    requires |ws| > 0 && AllWords(ws)
    ensures |Join(" ", ws)| > 0 && !IsSpace(Join(" ", ws)[0])
  {
  }
}
