/** The record-to-point mapping of `upsert_chunks` (data_indexing/storage.py):
    each chunk record dict becomes a point with the record's `chunk_id` as id,
    its `embedding` as vector and the rest of the record as payload. */
module Storage {
  import opened Wrappers
  import opened Seqs
  import opened Records

  /** The values a chunk record dict holds. */
  datatype Value =
    | Null
    | Str(s: string)
    | Int(n: int)
    | StrList(items: seq<string>)
    | Vector(xs: seq<real>)

  /** A dict, as its (key, value) items in insertion order. */
  type Dict = seq<(string, Value)>

  /** `d[k]`, or `None` where the lookup raises `KeyError`: the value of the
      first item with key `k`. */
  function Lookup(d: Dict, k: string): Option<Value> {
    if |d| == 0 then None else if d[0].0 == k then Some(d[0].1) else Lookup(d[1..], k)
  }

  /** The lookup fails exactly when no item has key `k`, and otherwise finds the
      value of the first item that has it. */
  lemma {:induction false} LookupFirst(d: Dict, k: string)
    ensures Lookup(d, k).None? <==> forall i :: 0 <= i < |d| ==> d[i].0 != k
    ensures Lookup(d, k).Some? ==> exists i :: && 0 <= i < |d| && d[i] == (k, Lookup(d, k).value)
                                                && forall j :: 0 <= j < i ==> d[j].0 != k
  {
    if |d| > 0 && d[0].0 != k {
      LookupFirst(d[1..], k);
      if Lookup(d, k).Some? {
        var i :| && 0 <= i < |d[1..]| && d[1..][i] == (k, Lookup(d, k).value)
                 && forall j :: 0 <= j < i ==> d[1..][j].0 != k;
        assert d[i + 1] == (k, Lookup(d, k).value);
        assert forall j :: 0 <= j < i + 1 ==> d[j].0 != k by {
          forall j | 0 <= j < i + 1
            ensures d[j].0 != k
          {
            if j > 0 {
              assert d[j] == d[1..][j - 1];
            }
          }
        }
      }
    }
  }

  /** Python's `a in b` on strings: `a` occurs in `b` as a contiguous substring. */
  predicate IsInfix(a: string, b: string)
    decreases |b|
  {
    a <= b || (|b| > 0 && IsInfix(a, b[1..]))
  }

  /** The payload filter `k not in ("embedding")`. The parentheses do not make a
      tuple, so this is a substring test against the string `"embedding"`. */
  predicate KeptKey(k: string) {
    !IsInfix(k, "embedding")
  }

  function KeptItem(item: (string, Value)): bool {
    KeptKey(item.0)
  }

  /** A point for the vector store. */
  datatype Point = Point(id: Value, vector: Value, payload: Dict)

  /** The payload: the record's items whose keys pass the filter, in order. */
  function Payload(rec: Dict): Dict {
    Filter(KeptItem, rec)
  }

  /** Looking a key up in the payload is looking it up in the record when the
      key passes the filter, and finds nothing when it does not. */
  lemma {:induction false} PayloadLookup(rec: Dict, k: string)
    ensures Lookup(Payload(rec), k) == if KeptKey(k) then Lookup(rec, k) else None
  {
    if |rec| > 0 {
      PayloadLookup(rec[1..], k);
    }
  }

  /** `models.PointStruct(id=chunk["chunk_id"], vector=chunk["embedding"], payload=...)`
      for one record. */
  function BuildPoint(rec: Dict): Result<Point, KeyError> {
    match Lookup(rec, "chunk_id")
    case None => Failure(KeyError("chunk_id"))
    case Some(id) =>
      match Lookup(rec, "embedding")
      case None => Failure(KeyError("embedding"))
      case Some(vector) => Success(Point(id, vector, Payload(rec)))
  }

  /** The arguments of `PointStruct` are evaluated in order, so a missing
      `chunk_id` is reported before a missing `embedding`; with both present
      the point carries the record's id, its vector and its payload. */
  lemma BuildPointOutcome(rec: Dict)
    ensures Lookup(rec, "chunk_id").None? ==> BuildPoint(rec) == Failure(KeyError("chunk_id"))
    ensures Lookup(rec, "chunk_id").Some? && Lookup(rec, "embedding").None?
            ==> BuildPoint(rec) == Failure(KeyError("embedding"))
    ensures BuildPoint(rec).Success? <==> HasPointKeys(rec)
    ensures BuildPoint(rec).Success? ==> && BuildPoint(rec).value.id == Lookup(rec, "chunk_id").value
                                         && BuildPoint(rec).value.vector == Lookup(rec, "embedding").value
                                         && BuildPoint(rec).value.payload == Payload(rec)
  {
  }

  /** Whether a record can be turned into a point. */
  predicate HasPointKeys(rec: Dict) {
    Lookup(rec, "chunk_id").Some? && Lookup(rec, "embedding").Some?
  }

  /** The loop of `upsert_chunks`: one point per record, in record order, or the
      `KeyError` of the first record that lacks a key. */
  function BuildPoints(recs: seq<Dict>): (r: Result<seq<Point>, KeyError>)
    ensures r.Success? <==> forall i :: 0 <= i < |recs| ==> HasPointKeys(recs[i])
    ensures r.Success? ==> |r.value| == |recs|
    ensures r.Success? ==> forall i :: 0 <= i < |recs| ==> Success(r.value[i]) == BuildPoint(recs[i])
  {
    if |recs| == 0 then Success([])
    else
      match BuildPoint(recs[0])
      case Failure(e) => Failure(e)
      case Success(p) =>
        match BuildPoints(recs[1..])
        case Failure(e) => Failure(e)
        case Success(rest) =>
          PointsCons(BuildPoint, recs, p, rest);
          Success([p] + rest)
  }

  /** The points of the first record and of the rest, together, for any
      record-to-point conversion `f`. */
  lemma PointsCons(f: Dict -> Result<Point, KeyError>, recs: seq<Dict>, p: Point, rest: seq<Point>)
    requires |recs| > 0 && f(recs[0]) == Success(p)
    requires |rest| == |recs| - 1
    requires forall i :: 0 <= i < |rest| ==> Success(rest[i]) == f(recs[1..][i])
    ensures forall i :: 0 <= i < |recs| ==> Success(([p] + rest)[i]) == f(recs[i])
  {
    forall i | 0 <= i < |recs|
      ensures Success(([p] + rest)[i]) == f(recs[i])
    {
      if i > 0 {
        assert ([p] + rest)[i] == rest[i - 1];
        assert recs[1..][i - 1] == recs[i];
      }
    }
  }

  /** A failed upsert reports the error of the first record that cannot become a point. */
  lemma {:induction false} BuildPointsFirstFailure(recs: seq<Dict>)
    requires BuildPoints(recs).Failure?
    ensures exists k :: && 0 <= k < |recs| && BuildPoint(recs[k]) == Failure(BuildPoints(recs).error)
                        && forall i :: 0 <= i < k ==> HasPointKeys(recs[i])
  {
    if BuildPoint(recs[0]).Failure? {
      assert BuildPoint(recs[0]) == Failure(BuildPoints(recs).error);
    } else {
      BuildPointsFirstFailure(recs[1..]);
      var k :| && 0 <= k < |recs[1..]| && BuildPoint(recs[1..][k]) == Failure(BuildPoints(recs[1..]).error)
               && forall i :: 0 <= i < k ==> HasPointKeys(recs[1..][i]);
      assert BuildPoint(recs[k + 1]) == Failure(BuildPoints(recs).error);
    }
  }

  /** A string holding a character that `b` lacks is not a substring of `b`. */
  lemma {:induction false} ForeignCharNotInfix(a: string, b: string, j: nat)
    requires j < |a| && a[j] !in b
    ensures !IsInfix(a, b)
    decreases |b|
  {
    if |b| > 0 {
      ForeignCharNotInfix(a, b[1..], j);
    }
  }

  /** The substring test drops keys a tuple test would keep: `"bed"` and `"in"`
      are substrings of `"embedding"`, and so is `"embedding"` itself. */
  lemma SubstringKeysDropped()
    ensures !KeptKey("bed") && !KeptKey("in") && !KeptKey("embedding")
  {
    var e := "embedding";
    assert e[1..][1..] == "bedding" && "bed" <= "bedding";
    assert e[1..][1..][1..][1..][1..][1..] == "ing" && "in" <= "ing";
    assert "embedding" <= e;
  }

  function OptStr(v: Option<string>): Value {
    if v.Some? then Str(v.value) else Null
  }

  /** The keys of a chunk record dict, in the order `to_chunk_records` writes them. */
  const RecordKeys: seq<string> := [
    "chunk_id", "chunk_index", "chunk_text", "doc_id", "source", "type",
    "title", "location", "created_at", "fetched_at", "language", "keywords"
  ]

  /** The dict `to_chunk_records` builds for a record. */
  function RecordDict(r: ChunkRecord): (d: Dict)
    ensures |d| == |RecordKeys| && forall i :: 0 <= i < |d| ==> d[i].0 == RecordKeys[i]
  {
    [ ("chunk_id", Str(r.chunkId)),
      ("chunk_index", Int(r.chunkIndex)),
      ("chunk_text", Str(r.chunkText)),
      ("doc_id", Str(r.docId)),
      ("source", OptStr(r.meta.source)),
      ("type", OptStr(r.meta.docType)),
      ("title", OptStr(r.meta.title)),
      ("location", OptStr(r.meta.location)),
      ("created_at", OptStr(r.meta.createdAt)),
      ("fetched_at", OptStr(r.meta.fetchedAt)),
      ("language", OptStr(r.meta.language)),
      ("keywords", StrList(r.keywords)) ]
  }

  /** None of the keys `to_chunk_records` writes is a substring of `"embedding"`:
      each holds a character that `"embedding"` lacks. */
  lemma RecordKeysKept()
    ensures forall i :: 0 <= i < |RecordKeys| ==> KeptKey(RecordKeys[i])
  {
    forall i | 0 <= i < |RecordKeys|
      ensures KeptKey(RecordKeys[i])
    {
      ForeignCharNotInfix(RecordKeys[i], "embedding", if i == 3 then 1 else 0);
    }
  }

  /** For a chunk record with its embedding added, the point's id is the chunk
      id, its vector the embedding, and its payload every other item of the
      record, unchanged: only `embedding` is dropped. */
  lemma EmbeddedRecordPoint(r: ChunkRecord, v: seq<real>)
    ensures BuildPoint(RecordDict(r) + [("embedding", Vector(v))])
            == Success(Point(Str(r.chunkId), Vector(v), RecordDict(r)))
  {
    var d := RecordDict(r);
    var e := [("embedding", Vector(v))];
    RecordPayload(d, e);
    assert (d + e)[0] == ("chunk_id", Str(r.chunkId));
    LookupAppend(d, e, "embedding");
  }

  /** Filtering a record dict with an embedding added drops only the embedding. */
  lemma RecordPayload(d: Dict, e: Dict)
    requires |d| == |RecordKeys| && forall i :: 0 <= i < |d| ==> d[i].0 == RecordKeys[i]
    requires |e| == 1 && e[0].0 == "embedding"
    ensures Payload(d + e) == d
    ensures forall i :: 0 <= i < |d| ==> d[i].0 != "embedding"
  {
    RecordItemsKept(d);
    FilterAll(KeptItem, d);
    EmbeddingItemDropped(e);
    FilterNone(KeptItem, e);
    FilterAppend(KeptItem, d, e);
  }

  /** An item keyed `embedding` does not pass the filter. */
  lemma EmbeddingItemDropped(e: Dict)
    requires |e| == 1 && e[0].0 == "embedding"
    ensures forall i :: 0 <= i < |e| ==> !KeptItem(e[i])
  {
    SubstringKeysDropped();
  }

  /** Every item of a record dict passes the filter, so none of them is keyed `embedding`. */
  lemma RecordItemsKept(d: Dict)
    requires |d| == |RecordKeys| && forall i :: 0 <= i < |d| ==> d[i].0 == RecordKeys[i]
    ensures All(KeptItem, d)
    ensures forall i :: 0 <= i < |d| ==> d[i].0 != "embedding"
  {
    RecordKeysKept();
    SubstringKeysDropped();
    assert forall i :: 0 <= i < |d| ==> KeptKey(d[i].0);
  }

  /** A key absent from `a` is looked up in `b`. */
  lemma {:induction false} LookupAppend(a: Dict, b: Dict, k: string)
    requires forall i :: 0 <= i < |a| ==> a[i].0 != k
    ensures Lookup(a + b, k) == Lookup(b, k)
  {
    if |a| > 0 {
      assert (a + b)[1..] == a[1..] + b;
      LookupAppend(a[1..], b, k);
    } else {
      assert a + b == b;
    }
  }
}
