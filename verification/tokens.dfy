/** The token-level stages of chunk enrichment (data_indexing/chunk_enricher.py):
    `fix_spelling` and `remove_stopwords`. Both tokenize, transform the token
    list, and `" "`-join the result. */
module Tokens {
  import opened Wrappers
  import opened Seqs
  import opened Whitespace
  import opened Language

  /** The spelling rule for one token:
      `spell.correction(word) or word if word not in spell else word`. */
  function CorrectWord(lex: Lexicon, w: string): (r: string)
    ensures w in lex.known ==> r == w
    ensures w !in lex.known && lex.correction(w).Some? && lex.correction(w).value != "" ==> r == lex.correction(w).value
    ensures w !in lex.known && (lex.correction(w).None? || lex.correction(w).value == "") ==> r == w
  {
    if w !in lex.known then
      match lex.correction(w)
      case Some(c) => if c != "" then c else w
      case None => w
    else w
  }

  /** The token list of `fix_spelling`: one corrected token per input token, in order. */
  function CorrectTokens(lex: Lexicon, ts: seq<string>): (r: seq<string>)
    ensures |r| == |ts|
    ensures forall i :: 0 <= i < |ts| ==> r[i] == CorrectWord(lex, ts[i])
  {
    if |ts| == 0 then [] else [CorrectWord(lex, ts[0])] + CorrectTokens(lex, ts[1..])
  }

  /** `fix_spelling`. */
  function FixSpelling(lex: Lexicon, text: string): string {
    Join(" ", CorrectTokens(lex, lex.tokenize(text)))
  }

  /** The tokenizer, re-reading the `" "`-join of the corrected tokens of `text`,
      gives those tokens back. */
  ghost predicate RereadsCorrected(lex: Lexicon, text: string) {
    lex.tokenize(FixSpelling(lex, text)) == CorrectTokens(lex, lex.tokenize(text))
  }

  /** With a tokenizer that gives back any word list from its `" "`-join,
      `fix_spelling`'s output tokenizes to exactly one corrected token per
      token of the input, in the same order. */
  lemma FixSpellingTokens(lex: Lexicon, text: string)
    requires WellBehavedTokenizer(lex.tokenize) && CorrectionsAreWords(lex)
    ensures RereadsCorrected(lex, text)
  {
    var ts := lex.tokenize(text);
    var cs := CorrectTokens(lex, ts);
    assert AllWords(ts);
    assert AllWords(cs);
  }

  /** When every truthy correction is a known word, correcting twice is
      correcting once, for a text whose corrected tokens the tokenizer re-reads. */
  lemma FixSpellingIdempotent(lex: Lexicon, text: string)
    requires RereadsCorrected(lex, text) && CorrectionsKnown(lex)
    ensures FixSpelling(lex, FixSpelling(lex, text)) == FixSpelling(lex, text)
  {
    var cs := CorrectTokens(lex, lex.tokenize(text));
    assert CorrectTokens(lex, cs) == cs;
  }

  /** The predicate `remove_stopwords` keeps a token by. */
  function NotStopword(lex: Lexicon): string -> bool {
    w => lex.lower(w) !in lex.stopwords
  }

  /** The token list of `remove_stopwords`: the input tokens, in order, minus
      exactly those whose lower-case form is a stopword. */
  function FilterStopwords(lex: Lexicon, ts: seq<string>): (r: seq<string>)
    ensures IsSubseq(r, ts)
    ensures forall i :: 0 <= i < |r| ==> lex.lower(r[i]) !in lex.stopwords
    ensures forall w :: multiset(r)[w] == if lex.lower(w) in lex.stopwords then 0 else multiset(ts)[w]
  {
    Filter(NotStopword(lex), ts)
  }

  /** `remove_stopwords`. */
  function RemoveStopwords(lex: Lexicon, text: string): string {
    Join(" ", FilterStopwords(lex, lex.tokenize(text)))
  }

  /** The tokenizer, re-reading the `" "`-join of the tokens `remove_stopwords`
      keeps from `text`, gives those tokens back. */
  ghost predicate RereadsKept(lex: Lexicon, text: string) {
    lex.tokenize(RemoveStopwords(lex, text)) == FilterStopwords(lex, lex.tokenize(text))
  }

  /** With a tokenizer that gives back any word list from its `" "`-join,
      `remove_stopwords`'s output tokenizes to the filtered token list. */
  lemma RemoveStopwordsTokens(lex: Lexicon, text: string)
    requires WellBehavedTokenizer(lex.tokenize)
    ensures RereadsKept(lex, text)
  {
    var ts := lex.tokenize(text);
    var r := FilterStopwords(lex, ts);
    assert AllWords(ts);
    forall i | 0 <= i < |r|
      ensures IsWord(r[i])
    {
      assert multiset(r)[r[i]] > 0;
    }
  }

  /** `remove_stopwords` is idempotent on a text whose kept tokens the tokenizer re-reads. */
  lemma RemoveStopwordsIdempotent(lex: Lexicon, text: string)
    requires RereadsKept(lex, text)
    ensures RemoveStopwords(lex, RemoveStopwords(lex, text)) == RemoveStopwords(lex, text)
  {
    FilterIdempotent(NotStopword(lex), lex.tokenize(text));
  }
}
