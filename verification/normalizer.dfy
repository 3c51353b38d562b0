/** The character-level stages of chunk enrichment (data_indexing/chunk_enricher.py):
    `clean_text`, `normalize_unicode` and `remove_punctuation`. */
module Normalizer {
  import opened Seqs
  import opened Chars
  import opened Whitespace
  import opened Language

  /** The shape `normalize_unicode` leaves its text in: ASCII only, no whitespace
      at either end, and every whitespace character a lone `' '`. */
  predicate IsNormalized(s: string) {
    IsAsciiString(s) && Trimmed(s) && SingleSpaced(s)
  }

  /** `clean_text`: the lower-cased text with its leading and trailing whitespace removed. */
  function CleanText(lex: Lexicon, text: string): (r: string)
    ensures Trimmed(r)
    ensures StripsTo(lex.lower(text), r)
  {
    StripIsInfix(lex.lower(text));
    Strip(lex.lower(text))
  }

  function NotCombining(lex: Lexicon): char -> bool {
    c => !lex.combining(c)
  }

  /** `normalize_unicode`: NFKD, drop combining marks, drop every non-ASCII code point,
      turn each whitespace run into one `' '`, then strip. */
  function NormalizeUnicode(lex: Lexicon, text: string): (r: string)
    ensures IsNormalized(r)
    ensures Filter(NotSpace, r) == Filter(NotSpace, Filter(IsAscii, Filter(NotCombining(lex), lex.nfkd(text))))
    ensures Split(r) == Split(Filter(IsAscii, Filter(NotCombining(lex), lex.nfkd(text))))
    ensures r == Join(" ", Split(Filter(IsAscii, Filter(NotCombining(lex), lex.nfkd(text)))))
  {
    var unmarked := Filter(NotCombining(lex), lex.nfkd(text));
    var ascii := Filter(IsAscii, unmarked);
    var collapsed := Collapse(ascii);
    CollapseKeepsAscii(ascii);
    StripKeepsShape(collapsed);
    StripKeepsContent(collapsed);
    CollapseKeepsContent(ascii);
    SplitStrip(collapsed);
    SplitCollapse(ascii);
    TrimmedSingleSpacedIsJoin(Strip(collapsed));
    Strip(collapsed)
  }

  /** Text already in normalized shape passes through `normalize_unicode` unchanged. */
  lemma NormalizeFixesNormalized(lex: Lexicon, s: string)
    requires NfkdFixesAscii(lex) && AsciiNotCombining(lex)
    requires IsNormalized(s)
    ensures NormalizeUnicode(lex, s) == s
  {
    assert lex.nfkd(s) == s;
    FilterAll(NotCombining(lex), s);
    FilterAll(IsAscii, s);
    CollapseSingleSpaced(s);
    StripTrimmed(s);
  }

  /** `normalize_unicode` is idempotent. */
  lemma NormalizeIdempotent(lex: Lexicon, text: string)
    requires NfkdFixesAscii(lex) && AsciiNotCombining(lex)
    ensures NormalizeUnicode(lex, NormalizeUnicode(lex, text)) == NormalizeUnicode(lex, text)
  {
    NormalizeFixesNormalized(lex, NormalizeUnicode(lex, text));
  }

  /** `remove_punctuation`: deletes exactly the characters of `string.punctuation`
      and keeps every other character, in order. */
  function RemovePunctuation(s: string): (r: string)
    ensures forall i :: 0 <= i < |r| ==> !IsPunct(r[i])
    ensures IsSubseq(r, s)
    ensures forall c :: !IsPunct(c) ==> multiset(r)[c] == multiset(s)[c]
  {
    Filter(NotPunct, s)
  }

  /** `remove_punctuation` is idempotent. */
  lemma RemovePunctuationIdempotent(s: string)
    ensures RemovePunctuation(RemovePunctuation(s)) == RemovePunctuation(s)
  {
    FilterIdempotent(NotPunct, s);
  }
}
