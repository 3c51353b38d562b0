# Chunk enrichment, prompt context and point mapping of a RAG indexer

This Dafny project models three pieces of the indexing and retrieval pipeline of
a retrieval-augmented-generation command-line tool, and proves what each of them
promises.

- **Chunk enrichment** (`data_indexing/chunk_enricher.py`). Every chunk of every
  document goes through five text stages, in order:
  - `clean_text`: lower-case and strip.
  - `normalize_unicode`: NFKD, drop combining marks and every non-ASCII code
    point, collapse whitespace runs, strip.
  - `remove_punctuation`.
  - `fix_spelling`.
  - `remove_stopwords`.

  Each document is then given the `top_n` most frequent counted words of its
  enriched text as keywords (`extract_keywords`, which uses
  `Counter.most_common`). Finally `to_chunk_records` flattens the documents into
  one record per chunk. Each record carries its parent's id, fields and keywords,
  plus a fresh chunk id.
- **Prompt context** (`data_indexing/prompt_assembler.py`, `build_prompt_context`).
  Each retrieved hit becomes one snippet: its text, preceded by a line of
  metadata entries when metadata is switched on. Snippets are appended in rank
  order until the next one would push the context past `max_context_chars`.
- **Point mapping** (`data_indexing/storage.py`, `upsert_chunks`). Each chunk
  record dict becomes a vector-store point:
  - its id is the record's `chunk_id`;
  - its vector is the record's `embedding`;
  - its payload is every item whose key passes the filter `k not in ("embedding")`.

  The parentheses in that filter do not make a tuple. The filter is therefore a
  substring test against the string `"embedding"`, and the model keeps it that
  way.

Modules:

| module | file | what it holds |
|---|---|---|
| `Wrappers` | `wrappers.dfy` | `Option` and `Result`, with `KeyError` |
| `Seqs` | `seqs.dfy` | `Filter`, `Map`, `Join`, `Concat` and their lemmas |
| `Chars` | `chars.dfy` | Python's `str.isspace` class, ASCII, `string.punctuation` |
| `Whitespace` | `whitespace.dfy` | `strip()`, `re.sub(r'\s+', ' ', ...)`, `split()` |
| `Language` | `language.dfy` | the foreign language resources, passed in as one `Lexicon` value |
| `Normalizer` | `normalizer.dfy` | `clean_text`, `normalize_unicode`, `remove_punctuation` |
| `Tokens` | `tokens.dfy` | `fix_spelling`, `remove_stopwords` |
| `Keywords` | `keywords.dfy` | `Counter`, `most_common`, `extract_keywords` |
| `Records` | `records.dfy` | documents, chunk records, `to_chunk_records` |
| `Enricher` | `enricher.dfy` | `enrich_chunks` |
| `PromptAssembler` | `prompt_assembler.dfy` | `build_prompt_context` |
| `Storage` | `storage.dfy` | the point mapping of `upsert_chunks` |

The foreign pieces the enrichment stages call are not modelled. They are fields
of a `Lexicon` passed to every stage:
- NLTK's `word_tokenize` and its English stopword list;
- the spell checker's dictionary and `correction`;
- Unicode NFKD, the combining-class table, `str.isalpha` and `str.lower`.

A property that depends on how these pieces behave states that behaviour as a
precondition. `Language.SplitIsWellBehaved` shows that the tokenizer
precondition can be met: Python's `str.split()` meets it.

The `uuid4()` chunk ids are a parameter `ids: nat -> string`. The `n`-th record
overall takes `ids(n)`. Settings read from the environment are plain
parameters: `top_n`, `INCLUDE_METADATA` and `MAX_CONTEXT_CHARS`.

Some behaviours of the code are easy to misread. The model follows the code as written:
- With metadata switched on, a snippet ends with the chunk text. No newline
  follows it; only the branch without metadata adds one.
- The budget check `len(context) + len(snippet) > max_context_chars` admits
  nothing when the budget is negative. The context is then empty. The length
  bound therefore holds only for a budget of zero or more.
- Documents are enriched one after another. A document without `chunks` stops
  everything with a `KeyError`. A document with chunks but no `id` stops record
  building with a `KeyError`, and only if it has at least one chunk, since
  `doc["id"]` is read once per chunk.

## Model

| member | source | states |
|---|---|---|
| `Normalizer.CleanText` | data_indexing/chunk_enricher.py:35-36 | the result has no whitespace at either end, and it is the lower-cased text with one whitespace run cut from each end |
| `Whitespace.StripIsInfix` | data_indexing/chunk_enricher.py:36 | `strip()` returns the infix of the text that lies between a leading and a trailing whitespace run |
| `Normalizer.NormalizeUnicode` | data_indexing/chunk_enricher.py:38-43 | the result is ASCII, has no whitespace at either end, and every whitespace character in it is a lone space; its non-whitespace characters are those of the NFKD form, minus combining marks and non-ASCII code points, in order; it has the same words as that ASCII text and is their `" "`-join, so each whitespace run became one space |
| `Whitespace.SplitCollapse` | data_indexing/chunk_enricher.py:42 | collapsing whitespace runs keeps the words, in order |
| `Whitespace.SplitStrip` | data_indexing/chunk_enricher.py:42 | stripping keeps the words, in order |
| `Whitespace.TrimmedSingleSpacedIsJoin` | data_indexing/chunk_enricher.py:42 | a string with no whitespace at either end and only lone spaces is the `" "`-join of its words |
| `Normalizer.NormalizeFixesNormalized` | data_indexing/chunk_enricher.py:38-43 | text that is already ASCII, trimmed and single-spaced comes back unchanged, provided NFKD fixes ASCII and no ASCII character is combining |
| `Normalizer.NormalizeIdempotent` | data_indexing/chunk_enricher.py:38-43 | normalizing twice gives what normalizing once gives |
| `Whitespace.CollapseSingleSpaced` | data_indexing/chunk_enricher.py:42 | collapsing whitespace runs leaves a single-spaced text unchanged |
| `Normalizer.RemovePunctuation` | data_indexing/chunk_enricher.py:45-46 | no punctuation character is left; the result is a subsequence of the input; every other character keeps its number of occurrences |
| `Normalizer.RemovePunctuationIdempotent` | data_indexing/chunk_enricher.py:45-46 | removing punctuation twice gives what removing it once gives |
| `Tokens.CorrectWord` | data_indexing/chunk_enricher.py:51 | a known word is kept; an unknown word becomes its correction when that is truthy, and otherwise stays itself |
| `Tokens.CorrectTokens` | data_indexing/chunk_enricher.py:50-51 | one corrected token per input token, in the same order |
| `Tokens.FixSpellingTokens` | data_indexing/chunk_enricher.py:49-52 | with a tokenizer that gives back any word list from its `" "`-join, as `str.split` does, and corrections that are single words, the output of `fix_spelling` tokenizes to exactly the corrected tokens of the input |
| `Tokens.FixSpellingIdempotent` | data_indexing/chunk_enricher.py:49-52 | for a text whose corrected tokens the tokenizer reads back from their join, and when every truthy correction is a known word, correcting twice gives what correcting once gives |
| `Tokens.FilterStopwords` | data_indexing/chunk_enricher.py:55-57 | the kept tokens are a subsequence of the input, none of them is a stopword once lower-cased, and every other token keeps its number of occurrences |
| `Tokens.RemoveStopwordsTokens` | data_indexing/chunk_enricher.py:54-58 | with a tokenizer that gives back any word list from its `" "`-join, as `str.split` does, the output of `remove_stopwords` tokenizes to exactly the kept tokens |
| `Tokens.RemoveStopwordsIdempotent` | data_indexing/chunk_enricher.py:54-58 | for a text whose kept tokens the tokenizer reads back from their join, removing stopwords twice gives what removing them once gives |
| `Keywords.CandidateWords` | data_indexing/chunk_enricher.py:62-63 | the counted words are the lower-cased forms of the alphabetic, non-stopword tokens, one per such token and in token order, so each word occurs as often as the tokens it comes from |
| `Keywords.Bump` | data_indexing/chunk_enricher.py:64 | one `counter[w] += 1`: keys stay distinct, existing entries keep their place and only `w`'s count rises by one, and a new word is appended with count 1 |
| `Keywords.CountWords` | data_indexing/chunk_enricher.py:64 | the counter holds each distinct word exactly once, with its number of occurrences, in first-seen order, and holds nothing else |
| `Keywords.CountStep` | data_indexing/chunk_enricher.py:64 | one increment turns the counter of a prefix into the counter of the prefix extended by one word |
| `Keywords.SortByCount` | data_indexing/chunk_enricher.py:65 | the sort is a permutation of the counter entries, ordered by non-increasing count |
| `Keywords.SortRanked` | data_indexing/chunk_enricher.py:65 | the sort is stable: equal counts keep first-seen order, so the sorted counter is in `most_common` order |
| `Keywords.MostCommon` | data_indexing/chunk_enricher.py:65 | `most_common(n)` returns nothing for `n <= 0` and otherwise `min(n, size)` entries, each a prefix of the stably sorted counter |
| `Keywords.KeywordsRanked` | data_indexing/chunk_enricher.py:64-65 | the keywords are counted words, each listed once, in descending count with ties in first-seen order |
| `Keywords.KeywordsOutrankOthers` | data_indexing/chunk_enricher.py:64-65 | every counted word that is not a keyword ranks below every keyword |
| `Keywords.KeywordsComplete` | data_indexing/chunk_enricher.py:64-65 | fewer than `n` keywords are returned only when every counted word is a keyword |
| `Keywords.TopWords` | data_indexing/chunk_enricher.py:63-65 | the words of `most_common(n)` meet the `most_common` promise: counted, distinct, ranked, outranking the rest, and as many as allowed |
| `Keywords.MostCommonUnique` | data_indexing/chunk_enricher.py:64-65 | exactly one list meets the `most_common` promise, so the keywords are determined by it |
| `Keywords.ExtractKeywords` | data_indexing/chunk_enricher.py:60-66 | the keywords meet the `most_common` promise over the counted words of the text, and each is the lower-cased form of a counted token |
| `Enricher.EnrichedChunkHasNoStopwords` | data_indexing/chunk_enricher.py:21-25 | when the tokenizer reads back the tokens the last stage kept, an enriched chunk tokenizes to tokens none of which is a stopword |
| `Enricher.EnrichAll` | data_indexing/chunk_enricher.py:19-26 | one enriched chunk per chunk, in order, each run through the five stages |
| `Enricher.EnrichDocument` | data_indexing/chunk_enricher.py:18-28 | the document keeps its id and fields; its chunks are replaced by the enriched chunks and its keywords come from their space-joined text |
| `Enricher.EnrichDocuments` | data_indexing/chunk_enricher.py:18-28 | enrichment succeeds exactly when every document has chunks, and then enriches every document in order; otherwise it fails with `KeyError("chunks")` |
| `Enricher.EnrichChunks` | data_indexing/chunk_enricher.py:16-32 | `enrich_chunks` succeeds exactly when every document can be flattened, reports `chunks` before `id`, and returns one record per chunk |
| `Enricher.EnrichChunksLayout` | data_indexing/chunk_enricher.py:16-32 | chunk `j` of document `k` becomes the record at that document's offset plus `j`, built from the enriched document with the chunk id drawn at that position |
| `Enricher.EnrichedRecord` | data_indexing/chunk_enricher.py:20-28 | that record holds the enriched chunk, its index, the document's id and fields, and the keywords of the document's enriched text |
| `Records.DocRecords` | data_indexing/chunk_enricher.py:71-86 | one record per chunk of the document, in chunk order, numbered from the base position |
| `Records.RecordsFrom` | data_indexing/chunk_enricher.py:68-87 | flattening succeeds exactly when every document is recordable; otherwise it reports the missing key of the first document that is not; on success there are as many records as chunks, and record `p` takes chunk id `ids(base + p)` |
| `Records.RecordsLayout` | data_indexing/chunk_enricher.py:68-87 | document `k`'s records form one block at its offset, and chunk `j` becomes the record at offset plus `j` |
| `Records.ChunkIdsDistinct` | data_indexing/chunk_enricher.py:73 | distinct `uuid4()` draws give records with distinct chunk ids |
| `Storage.RecordDict` | data_indexing/chunk_enricher.py:72-85 | a record dict has the twelve keys `to_chunk_records` writes, in order |
| `PromptAssembler.Metadata` | data_indexing/prompt_assembler.py:12-20 | no entries without a payload; otherwise one entry per truthy field, in the order location, source, document id, created at |
| `PromptAssembler.SnippetLayout` | data_indexing/prompt_assembler.py:10-23 | without metadata a snippet is the text plus a newline; with metadata it ends with the text, preceded by the joined entries and a newline when there are any |
| `PromptAssembler.BuildPromptContext` | data_indexing/prompt_assembler.py:4-26 | the context is the greedily packed snippets of the hits; it fits a budget of zero or more and is empty under a negative budget |
| `PromptAssembler.Pack` | data_indexing/prompt_assembler.py:7-26 | the loop builds the concatenation of the snippets greedy packing takes, within the budget |
| `PromptAssembler.TakenFits` | data_indexing/prompt_assembler.py:24-26 | what greedy packing takes fits in a budget of zero or more |
| `PromptAssembler.TakenStops` | data_indexing/prompt_assembler.py:24-25 | packing stops at the first snippet that would overflow: adding the next one exceeds the budget |
| `PromptAssembler.TakenIsLongestFit` | data_indexing/prompt_assembler.py:24-26 | a prefix of the snippets fits the budget if and only if it is no longer than what packing takes |
| `PromptAssembler.ContextWithinBudget` | data_indexing/prompt_assembler.py:24-26 | the context fits a budget of zero or more and is empty under a negative budget |
| `PromptAssembler.ContextIsPrefix` | data_indexing/prompt_assembler.py:8-26 | the context is a prefix of all snippets concatenated in rank order |
| `PromptAssembler.ContextMonotone` | data_indexing/prompt_assembler.py:24-26 | a larger budget never shrinks the context: the smaller budget's context is a prefix of the larger one's |
| `PromptAssembler.NoHitsNoContext` | data_indexing/prompt_assembler.py:7-8 | no hits give an empty context |
| `Storage.LookupFirst` | data_indexing/storage.py:28-29 | a lookup fails exactly when no item has the key, and otherwise finds the value of the first item that has it |
| `Storage.PayloadLookup` | data_indexing/storage.py:30 | looking a key up in the payload gives the record's value when the key passes the filter, and nothing when it does not |
| `Storage.SubstringKeysDropped` | data_indexing/storage.py:30 | the substring filter drops `"bed"`, `"in"` and `"embedding"` |
| `Storage.RecordKeysKept` | data_indexing/storage.py:30 | every key a chunk record carries passes the filter |
| `Storage.BuildPointOutcome` | data_indexing/storage.py:27-31 | a missing `chunk_id` is reported before a missing `embedding`; with both present the point has the record's id, vector and filtered payload |
| `Storage.BuildPoints` | data_indexing/storage.py:24-32 | every record becomes a point, in order, exactly when every record has both keys |
| `Storage.BuildPointsFirstFailure` | data_indexing/storage.py:25-32 | a failure carries the error of the first record that cannot become a point |
| `Storage.EmbeddedRecordPoint` | data_indexing/storage.py:27-31 | for a chunk record with its embedding added, the point's id is the chunk id, its vector the embedding, and its payload the record without the embedding, unchanged |

## Left out

- Logging, and the environment lookups behind `top_n`, `INCLUDE_METADATA` and
  `MAX_CONTEXT_CHARS`. They become parameters. `include_metadata` is the
  boolean that `bool(...)` produces, so any non-empty setting, including
  `"False"`, switches metadata on. A setting `int(...)` cannot parse is not
  modelled.
- `render_prompt` and the query. `build_prompt_context` is modelled up to the
  context it hands to `render_prompt`. The template lookup and the formatting
  are left out.
- The client side of `upsert_chunks`: `create_collection_if_not_exists`, the
  Qdrant client and the `upsert` call. Only the record-to-point mapping is
  modelled. `PointStruct`'s own validation of id and vector types is left out.
- NLTK's tokenizer and stopword list, the spell checker, Unicode NFKD, the
  combining-class table, `str.isalpha` and `str.lower`. These are foreign
  code, so they are fields of `Language.Lexicon`. Properties that need them to
  behave state that behaviour as a precondition.
- `uuid4()`. It becomes the parameter `ids`, and distinctness is a
  precondition of `Records.ChunkIdsDistinct`.
- In-place mutation. `enrich_chunks` overwrites each document's `chunks` and
  `keywords` as it goes. When a later document raises, the earlier ones stay
  changed. The model returns new documents, or the error alone.
- Document field values other than strings or absent. They are modelled as
  `Option<string>`. A payload whose `chunk_text` is present but `None` makes
  the snippet's own construction raise `TypeError`: the concatenation
  `... + text` at data_indexing/prompt_assembler.py:21, or `text + "\n"` at
  line 23. The model treats `chunk_text` as a string.
- Tokens.FixSpellingTokens: proved only for a tokenizer that gives back any
  word list from its `" "`-join, as `str.split` does. NLTK's `word_tokenize`
  is not such a tokenizer: it splits contractions such as `"cannot"` into
  `"can"` and `"not"`. For it the lemma says nothing.
- Tokens.RemoveStopwordsTokens: proved only for the same split-like tokenizer;
  with NLTK's `word_tokenize` it says nothing.
- Tokens.FixSpellingIdempotent: holds only for a text whose corrected tokens
  the tokenizer reads back from their join (`Tokens.RereadsCorrected`). With
  `word_tokenize`, `fix_spelling` is not idempotent in general: a misspelling
  corrected to `"cannot"` is re-read as `"can"`, `"not"`.
- Tokens.RemoveStopwordsIdempotent: holds only for a text whose kept tokens the
  tokenizer reads back from their join (`Tokens.RereadsKept`). This is not
  proved for `word_tokenize`.
- Enricher.EnrichedChunkHasNoStopwords: holds only when the tokenizer reads
  back the tokens `remove_stopwords` kept (`Tokens.RereadsKept` of the
  corrected chunk). This is not proved for `word_tokenize`.
- Records.ToChunkRecords: states nothing on its own. `Records.RecordsFrom`
  states its records.
- Records.Record: states nothing on its own. `Records.DocRecords`,
  `Records.RecordsLayout` and `Enricher.EnrichedRecord` state the records it
  builds.
- PromptAssembler.Text: states nothing on its own.
  `PromptAssembler.SnippetLayout` states the snippet built from it.
- Enricher.Corrected: states nothing on its own, as it only composes the first
  four stages.
- Enricher.EnrichChunk: states nothing on its own, as it only composes the
  stages. `Enricher.EnrichedChunkHasNoStopwords` states its property.
- Tokens.FixSpelling: states nothing on its own. `Tokens.FixSpellingTokens` and
  `Tokens.FixSpellingIdempotent` state its properties.
- Tokens.RemoveStopwords: states nothing on its own.
  `Tokens.RemoveStopwordsTokens` and `Tokens.RemoveStopwordsIdempotent` state
  its properties.
- PromptAssembler.Snippet: states nothing on its own.
  `PromptAssembler.SnippetLayout` states its layout.
- Storage.BuildPoint: states nothing on its own. `Storage.BuildPointOutcome`
  states its outcome.
- Storage.Lookup: states nothing on its own. `Storage.LookupFirst` states its
  outcome.
- Storage.Payload: states nothing on its own. `Storage.PayloadLookup` states
  its outcome.
- PromptAssembler.BuildPromptContext: builds every snippet before packing them,
  whereas the source builds each snippet inside the loop. The context is the
  same, since building a snippet has no effect.
