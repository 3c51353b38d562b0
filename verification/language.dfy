/** The foreign language resources the enrichment stages call into, passed in
    as parameters: NLTK's `word_tokenize` and English stopword list, the
    `SpellChecker` dictionary, Unicode NFKD decomposition and the
    combining-class and alphabetic-character tables, and full Unicode `lower()`.
    Properties that depend on how these behave take the behaviour as an
    explicit precondition, stated by the predicates below. */
module Language {
  import opened Wrappers
  import opened Chars
  import opened Seqs
  import opened Whitespace

  datatype Lexicon = Lexicon(
    lower: string -> string,               // str.lower()
    nfkd: string -> string,                // unicodedata.normalize('NFKD', text)
    combining: char -> bool,               // unicodedata.combining(c) != 0
    alpha: char -> bool,                   // str.isalpha() of a one-character string
    tokenize: string -> seq<string>,       // nltk.tokenize.word_tokenize
    known: set<string>,                    // `word in spell`
    correction: string -> Option<string>,  // spell.correction(word)
    stopwords: set<string>                 // set(stopwords.words('english'))
  )

  /** NFKD leaves ASCII text alone. */
  ghost predicate NfkdFixesAscii(lex: Lexicon) {
    forall s :: IsAsciiString(s) ==> lex.nfkd(s) == s
  }

  /** No ASCII character is a combining mark. */
  ghost predicate AsciiNotCombining(lex: Lexicon) {
    forall c :: IsAscii(c) ==> !lex.combining(c)
  }

  /** Every token is a non-empty run of non-whitespace characters. */
  ghost predicate TokensAreWords(tokenize: string -> seq<string>) {
    forall s :: AllWords(tokenize(s))
  }

  /** Re-tokenizing the `" "`-join of any list of words gives the same words
      back. Python's `str.split()` does this; NLTK's `word_tokenize` does not,
      as it splits contractions such as `"cannot"` into `"can"` and `"not"`. */
  ghost predicate RejoinStable(tokenize: string -> seq<string>) {
    forall ws {:trigger Join(" ", ws)} :: AllWords(ws) ==> tokenize(Join(" ", ws)) == ws
  }

  /** The tokenizer assumptions together. */
  ghost predicate WellBehavedTokenizer(tokenize: string -> seq<string>) {
    TokensAreWords(tokenize) && RejoinStable(tokenize)
  }

  /** A truthy correction (not `None`, not `""`) is itself a single word. */
  ghost predicate CorrectionsAreWords(lex: Lexicon) {
    forall w :: lex.correction(w).Some? && lex.correction(w).value != "" ==> IsWord(lex.correction(w).value)
  }

  /** A truthy correction is a word the dictionary knows. */
  ghost predicate CorrectionsKnown(lex: Lexicon) {
    forall w :: lex.correction(w).Some? && lex.correction(w).value != "" ==> lex.correction(w).value in lex.known
  }

  /** Python's `str.split()` meets the tokenizer assumptions, so they are satisfiable. */
  lemma SplitIsWellBehaved()
    ensures WellBehavedTokenizer(Split)
  {
    forall ws | AllWords(ws)
      ensures Split(Join(" ", ws)) == ws
    {
      SplitJoin(ws);
    }
  }
}
