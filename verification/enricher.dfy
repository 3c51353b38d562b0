/** `enrich_chunks` (data_indexing/chunk_enricher.py): every chunk of every
    document goes through the five text stages, each document gets its
    keywords, and the documents are flattened into one record per chunk. */
module Enricher {
  import opened Wrappers
  import opened Seqs
  import opened Language
  import opened Normalizer
  import opened Tokens
  import opened Keywords
  import opened Records

  /** A chunk after the first four stages, up to and including spelling correction. */
  function Corrected(lex: Lexicon, chunk: string): string {
    FixSpelling(lex, RemovePunctuation(NormalizeUnicode(lex, CleanText(lex, chunk))))
  }

  /** The five stages `enrich_chunks` runs on one chunk, in order. */
  function EnrichChunk(lex: Lexicon, chunk: string): string {
    RemoveStopwords(lex, Corrected(lex, chunk))
  }

  /** When the tokenizer re-reads the tokens kept by the last stage, an enriched
      chunk tokenizes to tokens none of which is a stopword. */
  lemma EnrichedChunkHasNoStopwords(lex: Lexicon, chunk: string)
    requires RereadsKept(lex, Corrected(lex, chunk))
    ensures forall t :: t in lex.tokenize(EnrichChunk(lex, chunk)) ==> lex.lower(t) !in lex.stopwords
  {
    var r := FilterStopwords(lex, lex.tokenize(Corrected(lex, chunk)));
    forall t | t in r
      ensures lex.lower(t) !in lex.stopwords
    {
      var i :| 0 <= i < |r| && r[i] == t;
    }
  }

  /** The enriched chunks of one document, in chunk order. */
  function EnrichAll(lex: Lexicon, chunks: seq<string>): (r: seq<string>)
    ensures |r| == |chunks|
    ensures forall j :: 0 <= j < |chunks| ==> r[j] == EnrichChunk(lex, chunks[j])
  {
    Map(c => EnrichChunk(lex, c), chunks)
  }

  /** One pass of the outer loop of `enrich_chunks` on a document that has chunks:
      its chunks are replaced by their enriched forms and its keywords are those
      of the enriched chunks joined by spaces; nothing else changes. */
  function EnrichDocument(lex: Lexicon, topN: int, d: Document): (r: Document)
    requires d.chunks.Some?
    ensures r.id == d.id && r.meta == d.meta
    ensures r.chunks == Some(EnrichAll(lex, d.chunks.value))
    ensures r.keywords == Some(ExtractKeywords(lex, Join(" ", EnrichAll(lex, d.chunks.value)), topN))
  {
    var enriched := EnrichAll(lex, d.chunks.value);
    d.(chunks := Some(enriched), keywords := Some(ExtractKeywords(lex, Join(" ", enriched), topN)))
  }

  /** The outer loop of `enrich_chunks`: every document enriched, in order, or the
      `KeyError` of the first document without chunks. */
  function EnrichDocuments(lex: Lexicon, topN: int, docs: seq<Document>): (r: Result<seq<Document>, KeyError>)
    ensures r.Success? <==> forall i :: 0 <= i < |docs| ==> HasChunks(docs[i])
    ensures r.Failure? ==> r.error == KeyError("chunks")
    ensures r.Success? ==> |r.value| == |docs|
    ensures r.Success? ==> forall i :: 0 <= i < |docs| ==> r.value[i] == EnrichDocument(lex, topN, docs[i])
  {
    if |docs| == 0 then Success([])
    else if docs[0].chunks.None? then Failure(KeyError("chunks"))
    else
      var rest :- EnrichDocuments(lex, topN, docs[1..]);
      Success([EnrichDocument(lex, topN, docs[0])] + rest)
  }

  /** `enrich_chunks`: enrich every document, then flatten into chunk records. */
  function EnrichChunks(lex: Lexicon, topN: int, ids: nat -> string, docs: seq<Document>): (r: Result<seq<ChunkRecord>, KeyError>)
    ensures r.Success? <==> forall i :: 0 <= i < |docs| ==> Recordable(docs[i])
    ensures r.Failure? ==> r.error == if exists i :: 0 <= i < |docs| && !HasChunks(docs[i]) then KeyError("chunks") else KeyError("id")
    ensures r.Success? ==> |r.value| == TotalChunks(docs)
  {
    var enriched :- EnrichDocuments(lex, topN, docs);
    EnrichKeepsShape(lex, topN, docs, enriched);
    ToChunkRecords(ids, enriched)
  }

  /** Enrichment keeps every document's id and number of chunks. */
  lemma {:induction false} EnrichKeepsShape(lex: Lexicon, topN: int, docs: seq<Document>, enriched: seq<Document>)
    requires |enriched| == |docs|
    requires forall i :: 0 <= i < |docs| ==> HasChunks(docs[i]) && enriched[i] == EnrichDocument(lex, topN, docs[i])
    ensures forall i :: 0 <= i < |docs| ==> (Recordable(enriched[i]) <==> Recordable(docs[i]))
    ensures TotalChunks(enriched) == TotalChunks(docs)
  {
    if |docs| > 0 {
      EnrichKeepsShape(lex, topN, docs[1..], enriched[1..]);
    }
  }

  /** What `enrich_chunks` returns for chunk `j` of document `k`: the record at
      `Offset(docs, k) + j` is that chunk's record in the enriched document. */
  lemma EnrichChunksLayout(lex: Lexicon, topN: int, ids: nat -> string, docs: seq<Document>, k: nat, j: nat)
    requires EnrichChunks(lex, topN, ids, docs).Success?
    requires k < |docs| && j < |ChunksOf(docs[k])|
    ensures docs[k].chunks.Some? && docs[k].id.Some?
    ensures var rs := EnrichChunks(lex, topN, ids, docs).value;
            var p := Offset(docs, k) + j;
            p < |rs| && rs[p] == Record(EnrichDocument(lex, topN, docs[k]), j, ids(p))
  {
    var ed := EnrichDocuments(lex, topN, docs).value;
    EnrichedShape(lex, topN, docs, ed);
    assert EnrichChunks(lex, topN, ids, docs) == RecordsFrom(ids, ed, 0);
    LayoutAcross(ids, docs, ed, EnrichChunks(lex, topN, ids, docs).value, k, j);
  }

  /** The record of chunk `j` of an enriched document holds the enriched chunk,
      its index, the document's id and fields, and the keywords of the
      document's enriched text. */
  lemma EnrichedRecord(lex: Lexicon, topN: int, d: Document, j: nat, id: string)
    requires d.chunks.Some? && d.id.Some? && j < |d.chunks.value|
    ensures var rec := Record(EnrichDocument(lex, topN, d), j, id);
            && rec.chunkId == id
            && rec.chunkIndex == j
            && rec.chunkText == EnrichChunk(lex, d.chunks.value[j])
            && rec.docId == d.id.value
            && rec.meta == d.meta
            && rec.keywords == ExtractKeywords(lex, Join(" ", EnrichAll(lex, d.chunks.value)), topN)
  {
  }

  /** Record blocks sit at the same offsets in two document lists whose documents
      have the same numbers of chunks. */
  lemma LayoutAcross(ids: nat -> string, docs: seq<Document>, ed: seq<Document>, rs: seq<ChunkRecord>, k: nat, j: nat)
    requires |ed| == |docs| && forall i :: 0 <= i < |docs| ==> |ChunksOf(ed[i])| == |ChunksOf(docs[i])|
    requires RecordsFrom(ids, ed, 0) == Success(rs)
    requires k < |docs| && j < |ChunksOf(docs[k])|
    ensures ed[k].id.Some?
    ensures Offset(docs, k) + j < |rs|
    ensures rs[Offset(docs, k) + j] == Record(ed[k], j, ids(Offset(docs, k) + j))
  {
    OffsetsAgree(docs, ed, k);
    var p := Offset(docs, k) + j;
    assert 0 + Offset(ed, k) + j == p;
    RecordsLayout(ids, ed, 0, rs, k, j);
  }

  /** Enrichment keeps the number of chunks of every document. */
  lemma EnrichedShape(lex: Lexicon, topN: int, docs: seq<Document>, ed: seq<Document>)
    requires EnrichDocuments(lex, topN, docs) == Success(ed)
    ensures |ed| == |docs|
    ensures forall i :: 0 <= i < |docs| ==> |ChunksOf(ed[i])| == |ChunksOf(docs[i])|
  {
  }
}
