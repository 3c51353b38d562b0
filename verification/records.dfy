/** The document and chunk-record shapes of data_indexing/chunk_enricher.py and
    `to_chunk_records`, which flattens documents into one record per chunk. */
module Records {
  import opened Wrappers

  /** The optional descriptive fields a document may carry; `doc.get(key)`
      gives `None` for an absent one. */
  datatype Meta = Meta(
    source: Option<string>,
    docType: Option<string>,
    title: Option<string>,
    location: Option<string>,
    createdAt: Option<string>,
    fetchedAt: Option<string>,
    language: Option<string>
  )

  /** A document dict. `id` and `chunks` are read with `doc[key]`, so their
      absence (`None` here) raises `KeyError`. */
  datatype Document = Document(
    id: Option<string>,
    chunks: Option<seq<string>>,
    keywords: Option<seq<string>>,
    meta: Meta
  )

  /** One record per chunk, carrying its parent document's fields. */
  datatype ChunkRecord = ChunkRecord(
    chunkId: string,
    chunkIndex: nat,
    chunkText: string,
    docId: string,
    meta: Meta,
    keywords: seq<string>
  )

  predicate HasChunks(d: Document) {
    d.chunks.Some?
  }

  /** The chunks of `d`, or none when it has no `chunks` key. */
  function ChunksOf(d: Document): seq<string> {
    d.chunks.GetOr([])
  }

  /** `to_chunk_records` gets through `d`: it has chunks, and an `id` whenever
      there is a chunk to read it for. */
  predicate Recordable(d: Document) {
    d.chunks.Some? && (|d.chunks.value| > 0 ==> d.id.Some?)
  }

  /** The key whose lookup fails on a document that is not recordable. */
  function MissingKey(d: Document): KeyError {
    if d.chunks.None? then KeyError("chunks") else KeyError("id")
  }

  /** Number of chunks in all documents together. */
  function TotalChunks(docs: seq<Document>): nat {
    if |docs| == 0 then 0 else |ChunksOf(docs[0])| + TotalChunks(docs[1..])
  }

  /** Position of document `k`'s first record in the flattened list. */
  function Offset(docs: seq<Document>, k: nat): nat
    requires k <= |docs|
  {
    if k == 0 then 0 else |ChunksOf(docs[0])| + Offset(docs[1..], k - 1)
  }

  /** The record for chunk `j` of `d`, taking chunk id `id`. */
  function Record(d: Document, j: nat, id: string): ChunkRecord
    requires j < |ChunksOf(d)| && d.id.Some?
  {
    ChunkRecord(id, j, ChunksOf(d)[j], d.id.value, d.meta, d.keywords.GetOr([]))
  }

  /** The records of one document, in chunk order; the `n`-th record overall
      takes chunk id `ids(n)`, which stands for the `uuid4()` drawn for it. */
  function DocRecords(ids: nat -> string, d: Document, base: nat): (r: seq<ChunkRecord>)
    requires Recordable(d)
    ensures |r| == |ChunksOf(d)|
    ensures forall j :: 0 <= j < |r| ==> r[j] == Record(d, j, ids(base + j))
  {
    ChunkRecordsFrom(ids, d, base, 0)
  }

  /** The records of chunks `j` onward of `d`. */
  function ChunkRecordsFrom(ids: nat -> string, d: Document, base: nat, j: nat): (r: seq<ChunkRecord>)
    requires Recordable(d) && j <= |ChunksOf(d)|
    ensures |r| == |ChunksOf(d)| - j
    ensures forall i :: 0 <= i < |r| ==> r[i] == Record(d, j + i, ids(base + j + i))
    decreases |ChunksOf(d)| - j
  {
    if j == |ChunksOf(d)| then []
    else [Record(d, j, ids(base + j))] + ChunkRecordsFrom(ids, d, base, j + 1)
  }

  /** `to_chunk_records` over `docs`, numbering records from `base`. */
  function RecordsFrom(ids: nat -> string, docs: seq<Document>, base: nat): (r: Result<seq<ChunkRecord>, KeyError>)
    ensures r.Success? <==> forall i :: 0 <= i < |docs| ==> Recordable(docs[i])
    ensures r.Failure? ==> exists k :: 0 <= k < |docs| && !Recordable(docs[k]) && r.error == MissingKey(docs[k])
                                       && forall i :: 0 <= i < k ==> Recordable(docs[i])
    ensures r.Success? ==> |r.value| == TotalChunks(docs)
    ensures r.Success? ==> forall p :: 0 <= p < |r.value| ==> r.value[p].chunkId == ids(base + p)
  {
    if |docs| == 0 then Success([])
    else if !Recordable(docs[0]) then Failure(MissingKey(docs[0]))
    else
      var mine := DocRecords(ids, docs[0], base);
      match RecordsFrom(ids, docs[1..], base + |mine|)
      case Failure(e) => Failure(e)
      case Success(rest) => Success(mine + rest)
  }

  /** `to_chunk_records`: one record per chunk, documents in order and chunks in
      order within each, or the `KeyError` of the first document it cannot read. */
  function ToChunkRecords(ids: nat -> string, docs: seq<Document>): Result<seq<ChunkRecord>, KeyError> {
    RecordsFrom(ids, docs, 0)
  }

  /** Document `k`'s records form one block starting at `Offset(docs, k)`:
      chunk `j` becomes the record at `Offset(docs, k) + j`, carrying index `j`,
      the chunk text, the document's id, fields and keywords, and the chunk id
      drawn at that position. */
  lemma RecordsLayout(ids: nat -> string, docs: seq<Document>, base: nat, rs: seq<ChunkRecord>, k: nat, j: nat)
    requires RecordsFrom(ids, docs, base) == Success(rs)
    requires k < |docs| && j < |ChunksOf(docs[k])|
    ensures docs[k].id.Some?
    ensures Offset(docs, k) + j < |rs|
    ensures rs[Offset(docs, k) + j] == Record(docs[k], j, ids(base + Offset(docs, k) + j))
  {
    RecordsAreBlocks(ids, docs, base, rs);
    BlockAt(docs, rs, k, j);
  }

  /** `rs` is cut into one block per document, in order: the block of a
      document holds one record per chunk, in chunk order. */
  predicate Blocks(docs: seq<Document>, rs: seq<ChunkRecord>)
    decreases |docs|
  {
    if |docs| == 0 then true
    else
      var n := |ChunksOf(docs[0])|;
      && n <= |rs|
      && (n > 0 ==> docs[0].id.Some?)
      && (forall j :: 0 <= j < n ==> rs[j] == Record(docs[0], j, rs[j].chunkId))
      && Blocks(docs[1..], rs[n..])
  }

  /** The records `to_chunk_records` returns are cut into one block per document. */
  lemma {:induction false} RecordsAreBlocks(ids: nat -> string, docs: seq<Document>, base: nat, rs: seq<ChunkRecord>)
    requires RecordsFrom(ids, docs, base) == Success(rs)
    ensures Blocks(docs, rs)
    decreases |docs|
  {
    if |docs| > 0 {
      var n := |ChunksOf(docs[0])|;
      RecordsCons(ids, docs, base, rs);
      RecordsAreBlocks(ids, docs[1..], base + n, rs[n..]);
      forall j | 0 <= j < n
        ensures rs[j] == Record(docs[0], j, rs[j].chunkId)
      {
        assert rs[j] == rs[..n][j];
      }
    }
  }

  /** Where chunk `j` of document `k` sits in a list cut into blocks. */
  lemma {:induction false} BlockAt(docs: seq<Document>, rs: seq<ChunkRecord>, k: nat, j: nat)
    requires Blocks(docs, rs)
    requires k < |docs| && j < |ChunksOf(docs[k])|
    ensures docs[k].id.Some?
    ensures Offset(docs, k) + j < |rs|
    ensures rs[Offset(docs, k) + j] == Record(docs[k], j, rs[Offset(docs, k) + j].chunkId)
    decreases k
  {
    if k > 0 {
      var n := |ChunksOf(docs[0])|;
      assert docs[1..][k - 1] == docs[k];
      BlockAt(docs[1..], rs[n..], k - 1, j);
      assert rs[n..][Offset(docs[1..], k - 1) + j] == rs[Offset(docs, k) + j];
    }
  }

  /** The records of a list of documents are the first document's records
      followed by those of the rest. */
  lemma RecordsCons(ids: nat -> string, docs: seq<Document>, base: nat, rs: seq<ChunkRecord>)
    requires |docs| > 0 && RecordsFrom(ids, docs, base) == Success(rs)
    ensures Recordable(docs[0]) && |ChunksOf(docs[0])| <= |rs|
    ensures rs[..|ChunksOf(docs[0])|] == DocRecords(ids, docs[0], base)
    ensures RecordsFrom(ids, docs[1..], base + |ChunksOf(docs[0])|) == Success(rs[|ChunksOf(docs[0])|..])
  {
  }

  /** Distinct `uuid4()` draws give distinct chunk ids. */
  lemma ChunkIdsDistinct(ids: nat -> string, docs: seq<Document>)
    requires forall p, q :: p != q ==> ids(p) != ids(q)
    requires ToChunkRecords(ids, docs).Success?
    ensures var rs := ToChunkRecords(ids, docs).value;
            forall p, q :: 0 <= p < q < |rs| ==> rs[p].chunkId != rs[q].chunkId
  {
  }

  /** Documents with the same number of chunks, in the same order, have their
      record blocks at the same offsets. */
  lemma {:induction false} OffsetsAgree(a: seq<Document>, b: seq<Document>, k: nat)
    requires |a| == |b| && k <= |a|
    requires forall i :: 0 <= i < |a| ==> |ChunksOf(a[i])| == |ChunksOf(b[i])|
    ensures Offset(a, k) == Offset(b, k)
    decreases k
  {
    if k > 0 {
      OffsetsAgree(a[1..], b[1..], k - 1);
    }
  }
}
