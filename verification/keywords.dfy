/** `extract_keywords` (data_indexing/chunk_enricher.py): the `top_n` most frequent
    counted words, as `collections.Counter(words).most_common(top_n)` ranks them. */
module Keywords {
  import opened Seqs
  import opened Language

  /** `str.isalpha()`: at least one character, and every character alphabetic. */
  predicate IsAlphaWord(lex: Lexicon, w: string) {
    |w| > 0 && forall i :: 0 <= i < |w| ==> lex.alpha(w[i])
  }

  /** A token `extract_keywords` counts: alphabetic, and not a stopword once lower-cased. */
  predicate Counted(lex: Lexicon, w: string) {
    IsAlphaWord(lex, w) && lex.lower(w) !in lex.stopwords
  }

  function CountedBy(lex: Lexicon): string -> bool {
    t => Counted(lex, t)
  }

  /** The counted words: one lower-cased word per counted token, in token order,
      so that each word occurs as often as the counted tokens it comes from. */
  function CandidateWords(lex: Lexicon, tokens: seq<string>): (r: seq<string>)
    ensures r == Map(lex.lower, Filter(CountedBy(lex), tokens))
    ensures forall w :: w in r ==> exists t :: t in tokens && Counted(lex, t) && w == lex.lower(t)
    ensures forall t :: t in tokens && Counted(lex, t) ==> lex.lower(t) in r
  {
    if |tokens| == 0 then []
    else if Counted(lex, tokens[0]) then
      var rest := CandidateWords(lex, tokens[1..]);
      MapCons(lex.lower, tokens[0], Filter(CountedBy(lex), tokens[1..]));
      [lex.lower(tokens[0])] + rest
    else CandidateWords(lex, tokens[1..])
  }

  /** Position of the first occurrence of `w` in `words`, or `|words|` when absent. */
  function FirstIndex(words: seq<string>, w: string): (k: nat)
    ensures k <= |words|
  {
    if |words| == 0 then 0 else if words[0] == w then 0 else 1 + FirstIndex(words[1..], w)
  }

  /** `FirstIndex` is the least position holding `w`, and `|words|` exactly when `w` is absent. */
  lemma {:induction false} FirstIndexSpec(words: seq<string>, w: string)
    ensures FirstIndex(words, w) < |words| <==> w in words
    ensures FirstIndex(words, w) < |words| ==> words[FirstIndex(words, w)] == w
    ensures forall j :: 0 <= j < FirstIndex(words, w) ==> words[j] != w
  {
    if |words| > 0 && words[0] != w {
      FirstIndexSpec(words[1..], w);
      assert w in words <==> w in words[1..];
    }
  }

  /** A `Counter`: its (word, count) entries in insertion order. */
  type Tally = seq<(string, nat)>

  predicate DistinctKeys(t: Tally) {
    forall i, j :: 0 <= i < j < |t| ==> t[i].0 != t[j].0
  }

  /** Entries appear in the order their words were first seen in `words`. */
  predicate FirstSeenOrdered(words: seq<string>, t: Tally) {
    forall i, j :: 0 <= i < j < |t| ==> FirstIndex(words, t[i].0) < FirstIndex(words, t[j].0)
  }

  /** `r` is `t` after `counter[w] = counter.get(w, 0) + 1`: the keys stay
      distinct, every existing entry keeps its place and word and only `w`'s
      count goes up by one, and a word not yet counted is appended with count 1. */
  predicate Bumped(t: Tally, w: string, r: Tally) {
    && DistinctKeys(r)
    && |t| <= |r|
    && (forall i :: 0 <= i < |t| ==> r[i].0 == t[i].0 && r[i].1 == if t[i].0 == w then t[i].1 + 1 else t[i].1)
    && ((exists i :: 0 <= i < |t| && t[i].0 == w) ==> |r| == |t|)
    && ((forall i :: 0 <= i < |t| ==> t[i].0 != w) ==> r == t + [(w, 1)])
  }

  /** `counter[w] = counter.get(w, 0) + 1` on a `Counter`. */
  function Bump(t: Tally, w: string): (r: Tally)
    requires DistinctKeys(t)
    ensures Bumped(t, w, r)
  {
    if |t| == 0 then [(w, 1)]
    else if t[0].0 == w then [(w, t[0].1 + 1)] + t[1..]
    else
      var rest := Bump(t[1..], w);
      BumpBehind(t, w, rest);
      [t[0]] + rest
  }

  /** Bumping a word other than the first entry's bumps the rest. */
  lemma BumpBehind(t: Tally, w: string, rest: Tally)
    requires DistinctKeys(t) && |t| > 0 && t[0].0 != w
    requires Bumped(t[1..], w, rest)
    ensures Bumped(t, w, [t[0]] + rest)
  {
    var r := [t[0]] + rest;
    BehindKeys(t, w, rest);
    BehindEntries(t, w, rest);
    if exists i :: 0 <= i < |t| && t[i].0 == w {
      var i :| 0 <= i < |t| && t[i].0 == w;
      assert t[1..][i - 1].0 == w;
    } else {
      BehindAppended(t, w, rest);
    }
  }

  lemma BehindKeys(t: Tally, w: string, rest: Tally)
    requires DistinctKeys(t) && |t| > 0 && t[0].0 != w
    requires Bumped(t[1..], w, rest)
    ensures DistinctKeys([t[0]] + rest)
  {
    forall i | 0 <= i < |rest|
      ensures rest[i].0 != t[0].0
    {
      if i < |t| - 1 {
        assert rest[i].0 == t[1..][i].0;
      }
    }
    ConsKeys(t[0], rest);
  }

  lemma BehindEntries(t: Tally, w: string, rest: Tally)
    requires |t| > 0 && t[0].0 != w
    requires Bumped(t[1..], w, rest)
    ensures var r := [t[0]] + rest;
            forall i :: 0 <= i < |t| ==> r[i].0 == t[i].0 && r[i].1 == if t[i].0 == w then t[i].1 + 1 else t[i].1
  {
    var r := [t[0]] + rest;
    forall i | 0 <= i < |t|
      ensures r[i].0 == t[i].0 && r[i].1 == if t[i].0 == w then t[i].1 + 1 else t[i].1
    {
      if i > 0 {
        assert r[i] == rest[i - 1] && t[i] == t[1..][i - 1];
      }
    }
  }

  lemma BehindAppended(t: Tally, w: string, rest: Tally)
    requires |t| > 0 && forall i :: 0 <= i < |t| ==> t[i].0 != w
    requires Bumped(t[1..], w, rest)
    ensures [t[0]] + rest == t + [(w, 1)]
  {
    assert forall i :: 0 <= i < |t| - 1 ==> t[1..][i].0 == t[i + 1].0;
    assert t == [t[0]] + t[1..];
  }

  lemma ConsKeys(x: (string, nat), t: Tally)
    requires DistinctKeys(t)
    requires forall i :: 0 <= i < |t| ==> t[i].0 != x.0
    ensures DistinctKeys([x] + t)
  {
  }

  /** `t` is what `Counter(words)` holds: one entry per distinct word of `words`,
      in first-seen order, carrying the number of times the word occurs. */
  predicate Tallies(words: seq<string>, t: Tally) {
    && DistinctKeys(t)
    && (forall i :: 0 <= i < |t| ==> t[i].0 in words && t[i].1 == multiset(words)[t[i].0])
    && (forall w :: w in words ==> exists i :: 0 <= i < |t| && t[i].0 == w)
    && FirstSeenOrdered(words, t)
  }

  /** `Counter(words)`, built one `counter[w] += 1` at a time. */
  function CountWords(words: seq<string>): (t: Tally)
    ensures Tallies(words, t)
    decreases |words|
  {
    if |words| == 0 then []
    else
      var prefix := words[..|words| - 1];
      var w := words[|words| - 1];
      assert words == prefix + [w];
      CountStep(prefix, w, CountWords(prefix));
      Bump(CountWords(prefix), w)
  }

  /** One `counter[w] += 1` turns a tally of `prefix` into a tally of `prefix + [w]`. */
  lemma CountStep(prefix: seq<string>, w: string, t: Tally)
    requires Tallies(prefix, t)
    ensures Tallies(prefix + [w], Bump(t, w))
  {
    StepShape(prefix, w, t);
    StepCounts(prefix, w, t);
    StepCoverage(prefix, w, t);
    StepOrder(prefix, w, t);
  }

  /** A seen word keeps the tally's length; a new one is appended. */
  lemma StepShape(prefix: seq<string>, w: string, t: Tally)
    requires Tallies(prefix, t)
    ensures w in prefix ==> |Bump(t, w)| == |t|
    ensures w !in prefix ==> Bump(t, w) == t + [(w, 1)]
  {
    if w in prefix {
      var i0 :| 0 <= i0 < |t| && t[i0].0 == w;
    }
  }

  lemma StepCounts(prefix: seq<string>, w: string, t: Tally)
    requires Tallies(prefix, t)
    ensures var r := Bump(t, w);
            forall i :: 0 <= i < |r| ==> r[i].0 in prefix + [w] && r[i].1 == multiset(prefix + [w])[r[i].0]
  {
    var words := prefix + [w];
    var r := Bump(t, w);
    StepShape(prefix, w, t);
    forall i | 0 <= i < |r|
      ensures r[i].0 in words && r[i].1 == multiset(words)[r[i].0]
    {
      assert multiset(words)[r[i].0] == multiset(prefix)[r[i].0] + (if r[i].0 == w then 1 else 0);
    }
  }

  lemma StepCoverage(prefix: seq<string>, w: string, t: Tally)
    requires Tallies(prefix, t)
    ensures var r := Bump(t, w);
            forall v :: v in prefix + [w] ==> exists i :: 0 <= i < |r| && r[i].0 == v
  {
    var r := Bump(t, w);
    StepShape(prefix, w, t);
    forall v | v in prefix + [w]
      ensures exists i :: 0 <= i < |r| && r[i].0 == v
    {
      if v in prefix {
        var i :| 0 <= i < |t| && t[i].0 == v;
        assert r[i].0 == v;
      } else {
        assert r[|t|].0 == v;
      }
    }
  }

  lemma StepOrder(prefix: seq<string>, w: string, t: Tally)
    requires Tallies(prefix, t)
    ensures FirstSeenOrdered(prefix + [w], Bump(t, w))
  {
    var words := prefix + [w];
    var r := Bump(t, w);
    StepShape(prefix, w, t);
    FirstIndexExtend(prefix, w);
    forall i, j | 0 <= i < j < |r|
      ensures FirstIndex(words, r[i].0) < FirstIndex(words, r[j].0)
    {
      if j == |t| {
        FirstIndexSpec(prefix, t[i].0);
      }
    }
  }

  /** Appending a word keeps the first occurrence of every word already present,
      and puts a new word's first occurrence at the end. */
  lemma FirstIndexExtend(prefix: seq<string>, w: string)
    ensures forall v :: v in prefix ==> FirstIndex(prefix + [w], v) == FirstIndex(prefix, v)
    ensures w !in prefix ==> FirstIndex(prefix + [w], w) == |prefix|
  {
    var words := prefix + [w];
    forall v | v in prefix
      ensures FirstIndex(words, v) == FirstIndex(prefix, v)
    {
      FirstIndexSpec(prefix, v);
      FirstIndexSpec(words, v);
      var k := FirstIndex(prefix, v);
      assert words[k] == v;
    }
    if w !in prefix {
      FirstIndexSpec(words, w);
      assert words[|prefix|] == w;
    }
  }

  /** Counts never increase along `t`. */
  predicate CountOrdered(t: Tally) {
    forall i, j :: 0 <= i < j < |t| ==> t[i].1 >= t[j].1
  }

  /** Insertion step of a stable descending sort: `x` goes in front of the first
      entry whose count does not exceed its own. */
  function Insert(x: (string, nat), t: Tally): (r: Tally)
    ensures |r| == |t| + 1
    ensures multiset(r) == multiset(t) + multiset{x}
  {
    if |t| == 0 || t[0].1 <= x.1 then [x] + t
    else
      assert t == [t[0]] + t[1..];
      [t[0]] + Insert(x, t[1..])
  }

  /** Insertion keeps a count-ordered list count-ordered. */
  lemma {:induction false} InsertCountOrdered(x: (string, nat), t: Tally)
    requires CountOrdered(t)
    ensures CountOrdered(Insert(x, t))
  {
    if |t| > 0 && t[0].1 > x.1 {
      InsertCountOrdered(x, t[1..]);
      InsertBelow(x, t[1..], t[0].1);
      assert Insert(x, t) == [t[0]] + Insert(x, t[1..]);
    }
  }

  /** Inserting below a bound into a list below that bound stays below it. */
  lemma {:induction false} InsertBelow(x: (string, nat), t: Tally, c: nat)
    requires x.1 <= c
    requires forall i :: 0 <= i < |t| ==> t[i].1 <= c
    ensures forall i :: 0 <= i < |Insert(x, t)| ==> Insert(x, t)[i].1 <= c
  {
    if |t| > 0 && t[0].1 > x.1 {
      InsertBelow(x, t[1..], c);
      assert Insert(x, t) == [t[0]] + Insert(x, t[1..]);
    }
  }

  /** `sorted(t, key=count, reverse=True)`: a stable sort by descending count. */
  function SortByCount(t: Tally): (r: Tally)
    ensures |r| == |t|
    ensures multiset(r) == multiset(t)
    ensures CountOrdered(r)
  {
    if |t| == 0 then []
    else
      assert t == [t[0]] + t[1..];
      InsertCountOrdered(t[0], SortByCount(t[1..]));
      Insert(t[0], SortByCount(t[1..]))
  }

  /** `Counter.most_common(n)`, which is `heapq.nlargest(n, items, key=count)`:
      nothing when `n <= 0`, otherwise the first `n` entries of the stable
      descending sort. */
  function MostCommon(t: Tally, n: int): (r: Tally)
    ensures |r| == if n <= 0 then 0 else if n < |t| then n else |t|
    ensures r <= SortByCount(t)
  {
    if n <= 0 then [] else if n >= |t| then SortByCount(t) else SortByCount(t)[..n]
  }

  function Keys(t: Tally): (r: seq<string>)
    ensures |r| == |t|
    ensures forall i :: 0 <= i < |t| ==> r[i] == t[i].0
  {
    if |t| == 0 then [] else [t[0].0] + Keys(t[1..])
  }

  /** The `most_common` order: higher count first, equal counts in first-seen order. */
  predicate RanksBefore(words: seq<string>, a: (string, nat), b: (string, nat)) {
    a.1 > b.1 || (a.1 == b.1 && FirstIndex(words, a.0) < FirstIndex(words, b.0))
  }

  predicate RankOrdered(words: seq<string>, t: Tally) {
    forall i, j :: 0 <= i < j < |t| ==> RanksBefore(words, t[i], t[j])
  }

  /** Inserting an entry seen before every entry of a rank-ordered list keeps it rank-ordered. */
  lemma {:induction false} InsertRanked(words: seq<string>, x: (string, nat), t: Tally)
    requires RankOrdered(words, t)
    requires forall i :: 0 <= i < |t| ==> FirstIndex(words, x.0) < FirstIndex(words, t[i].0)
    ensures RankOrdered(words, Insert(x, t))
  {
    if |t| == 0 {
    } else if t[0].1 <= x.1 {
      RanksInFront(words, x, t);
    } else {
      InsertRanked(words, x, t[1..]);
      RanksBehindHead(words, x, t, Insert(x, t[1..]));
    }
  }

  /** An entry counted at least as often as the head of a rank-ordered list, and
      seen before all of it, ranks before all of it. */
  lemma RanksInFront(words: seq<string>, x: (string, nat), t: Tally)
    requires RankOrdered(words, t)
    requires forall i :: 0 <= i < |t| ==> FirstIndex(words, x.0) < FirstIndex(words, t[i].0)
    requires |t| > 0 && t[0].1 <= x.1
    ensures RankOrdered(words, [x] + t)
  {
    var r := [x] + t;
    forall i, j | 0 <= i < j < |r|
      ensures RanksBefore(words, r[i], r[j])
    {
      if i == 0 {
        assert r[j] == t[j - 1];
        assert t[j - 1].1 <= t[0].1 by {
          if j - 1 > 0 {
            assert RanksBefore(words, t[0], t[j - 1]);
          }
        }
      } else {
        assert r[i] == t[i - 1] && r[j] == t[j - 1];
      }
    }
  }

  /** The head of a rank-ordered list, counted more often than `x`, ranks before
      every entry of the rest with `x` inserted. */
  lemma RanksBehindHead(words: seq<string>, x: (string, nat), t: Tally, rest: Tally)
    requires RankOrdered(words, t)
    requires |t| > 0 && t[0].1 > x.1
    requires RankOrdered(words, rest)
    requires multiset(rest) == multiset(t[1..]) + multiset{x}
    ensures RankOrdered(words, [t[0]] + rest)
  {
    var r := [t[0]] + rest;
    forall i, j | 0 <= i < j < |r|
      ensures RanksBefore(words, r[i], r[j])
    {
      if i == 0 {
        var y := rest[j - 1];
        assert y in multiset(rest);
        if y != x {
          assert y in multiset(t[1..]);
          var k :| 1 <= k < |t| && t[k] == y;
        }
      } else {
        assert r[i] == rest[i - 1] && r[j] == rest[j - 1];
      }
    }
  }

  /** The stable descending sort of a first-seen-ordered tally is rank-ordered:
      ties keep their first-seen order. */
  lemma {:induction false} SortRanked(words: seq<string>, t: Tally)
    requires FirstSeenOrdered(words, t)
    ensures RankOrdered(words, SortByCount(t))
  {
    if |t| > 0 {
      var s := SortByCount(t[1..]);
      SortRanked(words, t[1..]);
      forall i | 0 <= i < |s|
        ensures FirstIndex(words, t[0].0) < FirstIndex(words, s[i].0)
      {
        assert s[i] in multiset(t[1..]);
        var k :| 1 <= k < |t| && t[k] == s[i];
      }
      InsertRanked(words, t[0], s);
    }
  }

  /** Word `a` comes before word `b` in `most_common` order over `words`:
      it occurs more often, or as often and was seen first. */
  predicate RanksAbove(words: seq<string>, a: string, b: string) {
    || multiset(words)[a] > multiset(words)[b]
    || (multiset(words)[a] == multiset(words)[b] && FirstIndex(words, a) < FirstIndex(words, b))
  }

  /** What `most_common(n)` promises of the words it returns, stated without
      reference to how the counter is built or sorted: at most `n` of them
      (none when `n <= 0`), each a counted word listed once, in rank order,
      outranking every word left out, and all the words when fewer than `n`
      come back. */
  predicate IsMostCommon(words: seq<string>, r: seq<string>, n: int) {
    && (n <= 0 ==> r == [])
    && (n > 0 ==> |r| <= n)
    && (forall i :: 0 <= i < |r| ==> r[i] in words)
    && (forall i, j :: 0 <= i < j < |r| ==> r[i] != r[j] && RanksAbove(words, r[i], r[j]))
    && (forall w, i :: w in words && w !in r && 0 <= i < |r| ==> RanksAbove(words, r[i], w))
    && (|r| < n ==> forall w :: w in words ==> w in r)
  }

  /** `[word for word, count in Counter(words).most_common(n)]`. */
  function TopWords(words: seq<string>, n: int): (r: seq<string>)
    ensures IsMostCommon(words, r, n)
  {
    KeywordsRanked(words, n);
    KeywordsOutrankOthers(words, n);
    KeywordsComplete(words, n);
    Keys(MostCommon(CountWords(words), n))
  }

  /** `extract_keywords(text)`, with `top_n` passed in rather than read from the environment. */
  function ExtractKeywords(lex: Lexicon, text: string, topN: int): (r: seq<string>)
    ensures IsMostCommon(CandidateWords(lex, lex.tokenize(text)), r, topN)
    // every keyword is the lower-cased form of a counted token
    ensures forall w :: w in r ==> exists t :: t in lex.tokenize(text) && Counted(lex, t) && w == lex.lower(t)
  {
    TopWords(CandidateWords(lex, lex.tokenize(text)), topN)
  }

  /** `RanksAbove` is a strict order: never both ways round. */
  lemma RanksAboveAsymmetric(words: seq<string>, a: string, b: string)
    requires RanksAbove(words, a, b)
    ensures !RanksAbove(words, b, a)
  {
  }

  /** Exactly one list meets the `most_common` promise, so `TopWords` is the only
      answer `extract_keywords` can give. */
  lemma MostCommonUnique(words: seq<string>, r1: seq<string>, r2: seq<string>, n: int)
    requires IsMostCommon(words, r1, n) && IsMostCommon(words, r2, n)
    ensures r1 == r2
  {
    MostCommonAgree(words, r1, r2, n);
    MostCommonAgree(words, r2, r1, n);
    MostCommonNotShorter(words, r1, r2, n);
    MostCommonNotShorter(words, r2, r1, n);
  }

  /** Two lists meeting the promise agree wherever both are defined. */
  lemma MostCommonAgree(words: seq<string>, r1: seq<string>, r2: seq<string>, n: int)
    requires IsMostCommon(words, r1, n) && IsMostCommon(words, r2, n)
    ensures forall k :: 0 <= k < |r1| && k < |r2| ==> r1[k] == r2[k]
  {
    forall k | 0 <= k < |r1| && k < |r2|
      ensures r1[k] == r2[k]
    {
      MostCommonAgreeAt(words, r1, r2, n, k);
    }
  }

  lemma {:induction false} MostCommonAgreeAt(words: seq<string>, r1: seq<string>, r2: seq<string>, n: int, k: nat)
    requires IsMostCommon(words, r1, n) && IsMostCommon(words, r2, n)
    requires k < |r1| && k < |r2|
    ensures r1[k] == r2[k]
    decreases k
  {
    forall m | 0 <= m < k
      ensures r1[m] == r2[m]
    {
      MostCommonAgreeAt(words, r1, r2, n, m);
    }
    var a, b := r1[k], r2[k];
    if a != b {
      BelowAt(words, r1, r2, k);
      BelowAt(words, r2, r1, k);
      RanksAboveAsymmetric(words, a, b);
    }
  }

  /** With equal prefixes before `k`, the word at `k` of `r1` ranks no higher than
      the one at `k` of `r2` (when the two differ). */
  lemma BelowAt(words: seq<string>, r1: seq<string>, r2: seq<string>, k: nat)
    requires k < |r1| && k < |r2| && r1[k] != r2[k]
    requires forall i :: 0 <= i < |r1| ==> r1[i] in words
    requires forall i, j :: 0 <= i < j < |r1| ==> r1[i] != r1[j]
    requires forall i, j :: 0 <= i < j < |r2| ==> r2[i] != r2[j] && RanksAbove(words, r2[i], r2[j])
    requires forall w, i :: w in words && w !in r2 && 0 <= i < |r2| ==> RanksAbove(words, r2[i], w)
    requires forall m :: 0 <= m < k ==> r1[m] == r2[m]
    ensures RanksAbove(words, r2[k], r1[k])
  {
    var a := r1[k];
    assert forall i :: 0 <= i < k ==> r2[i] != a;
    if a in r2 {
      var m :| 0 <= m < |r2| && r2[m] == a;
      assert k < m;
    }
  }

  /** A list meeting the promise is no shorter than another one. */
  lemma MostCommonNotShorter(words: seq<string>, r1: seq<string>, r2: seq<string>, n: int)
    requires IsMostCommon(words, r1, n) && IsMostCommon(words, r2, n)
    ensures |r2| <= |r1|
  {
    if 0 < n && |r1| < n {
      var s1 := set w | w in r1;
      var s2 := set w | w in r2;
      assert s2 <= s1;
      DistinctCard(r1);
      DistinctCard(r2);
      SubsetCard(s2, s1);
    }
  }

  /** A list without repeats has as many elements as its set of elements. */
  lemma {:induction false} DistinctCard(r: seq<string>)
    requires forall i, j :: 0 <= i < j < |r| ==> r[i] != r[j]
    ensures |set w | w in r| == |r|
  {
    if |r| > 0 {
      DistinctCard(r[1..]);
      assert (set w | w in r) == {r[0]} + (set w | w in r[1..]);
      assert r[0] !in (set w | w in r[1..]);
    }
  }

  lemma SubsetCard(a: set<string>, b: set<string>)
    requires a <= b
    ensures |a| <= |b|
  {
    assert b == a + (b - a);
  }

  /** The keywords are counted words, each listed once, in `most_common` order. */
  lemma KeywordsRanked(words: seq<string>, n: int)
    ensures var r := Keys(MostCommon(CountWords(words), n));
            && (forall i :: 0 <= i < |r| ==> r[i] in words)
            && (forall i, j :: 0 <= i < j < |r| ==> r[i] != r[j] && RanksAbove(words, r[i], r[j]))
  {
    var t := CountWords(words);
    var s := SortByCount(t);
    SortedEntries(words, t, s);
    SortedRanked(words, t, s);
    TopKeys(t, s, n);
  }

  /** A counted word that is not a keyword ranks below every keyword. */
  lemma KeywordsOutrankOthers(words: seq<string>, n: int)
    ensures var r := Keys(MostCommon(CountWords(words), n));
            forall w, i :: w in words && w !in r && 0 <= i < |r| ==> RanksAbove(words, r[i], w)
  {
    var t := CountWords(words);
    var s := SortByCount(t);
    SortedRanked(words, t, s);
    SortedCovers(words, t, s);
    TopKeys(t, s, n);
    PrefixOutranksRest(words, s, Keys(MostCommon(t, n)));
  }

  /** In a rank-ordered list covering `words`, the words of a prefix outrank
      every word outside it. */
  lemma PrefixOutranksRest(words: seq<string>, s: Tally, r: seq<string>)
    requires forall i, j :: 0 <= i < j < |s| ==> RanksAbove(words, s[i].0, s[j].0)
    requires forall w :: w in words ==> exists p :: 0 <= p < |s| && s[p].0 == w
    requires |r| <= |s| && forall i :: 0 <= i < |r| ==> r[i] == s[i].0
    ensures forall w, i :: w in words && w !in r && 0 <= i < |r| ==> RanksAbove(words, r[i], w)
  {
    forall w, i | w in words && w !in r && 0 <= i < |r|
      ensures RanksAbove(words, r[i], w)
    {
      assert forall q :: 0 <= q < |r| ==> s[q].0 != w;
      var p :| 0 <= p < |s| && s[p].0 == w;
    }
  }

  /** Fewer than `n` keywords come back only when every counted word is one. */
  lemma KeywordsComplete(words: seq<string>, n: int)
    ensures var r := Keys(MostCommon(CountWords(words), n));
            |r| < n ==> forall w :: w in words ==> w in r
  {
    var t := CountWords(words);
    var s := SortByCount(t);
    var r := Keys(MostCommon(t, n));
    SortedCovers(words, t, s);
    TopKeys(t, s, n);
    if |r| < n {
      forall w | w in words
        ensures w in r
      {
        var p :| 0 <= p < |s| && s[p].0 == w;
        assert r[p] == w;
      }
    }
  }

  /** The keywords are the words of the first entries of the sorted counter. */
  lemma TopKeys(t: Tally, s: Tally, n: int)
    requires s == SortByCount(t)
    ensures var r := Keys(MostCommon(t, n));
            && |r| <= |s|
            && (|r| < n ==> |r| == |s|)
            && (forall i :: 0 <= i < |r| ==> r[i] == s[i].0)
  {
  }

  /** Every entry of the sorted counter is a counted word with its count. */
  lemma SortedEntries(words: seq<string>, t: Tally, s: Tally)
    requires Tallies(words, t) && s == SortByCount(t)
    ensures forall i :: 0 <= i < |s| ==> s[i].0 in words && s[i].1 == multiset(words)[s[i].0]
  {
    forall i | 0 <= i < |s|
      ensures s[i].0 in words && s[i].1 == multiset(words)[s[i].0]
    {
      assert s[i] in multiset(t);
      var k :| 0 <= k < |t| && t[k] == s[i];
    }
  }

  /** Every counted word has an entry in the sorted counter. */
  lemma SortedCovers(words: seq<string>, t: Tally, s: Tally)
    requires Tallies(words, t) && s == SortByCount(t)
    ensures forall w :: w in words ==> exists p :: 0 <= p < |s| && s[p].0 == w
  {
    forall w | w in words
      ensures exists p :: 0 <= p < |s| && s[p].0 == w
    {
      var k :| 0 <= k < |t| && t[k].0 == w;
      SortKeepsEntry(t, k);
    }
  }

  /** Sorting loses no entry. */
  lemma SortKeepsEntry(t: Tally, k: int)
    requires 0 <= k < |t|
    ensures exists p :: 0 <= p < |SortByCount(t)| && SortByCount(t)[p] == t[k]
  {
    var s := SortByCount(t);
    assert t[k] in multiset(t);
    assert t[k] in multiset(s);
  }

  /** The sorted counter lists distinct words in `most_common` order. */
  lemma SortedRanked(words: seq<string>, t: Tally, s: Tally)
    requires Tallies(words, t) && s == SortByCount(t)
    ensures forall i, j :: 0 <= i < j < |s| ==> s[i].0 != s[j].0 && RanksAbove(words, s[i].0, s[j].0)
  {
    SortedEntries(words, t, s);
    SortRanked(words, t);
    forall i, j | 0 <= i < j < |s|
      ensures s[i].0 != s[j].0 && RanksAbove(words, s[i].0, s[j].0)
    {
      assert RanksBefore(words, s[i], s[j]);
    }
  }
}
