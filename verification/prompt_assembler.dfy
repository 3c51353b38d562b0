/** `build_prompt_context` (data_indexing/prompt_assembler.py): one snippet per
    retrieved hit, packed greedily in rank order until the next snippet would
    overflow the character budget. */
module PromptAssembler {
  import opened Wrappers
  import opened Seqs

  /** The payload fields context assembly reads; `None` for an absent key. */
  datatype Payload = Payload(
    chunkText: Option<string>,
    location: Option<string>,
    source: Option<string>,
    docId: Option<string>,
    createdAt: Option<string>
  )

  /** A retrieved point. Its payload may be `None`; its score is not read. */
  datatype Hit = Hit(payload: Option<Payload>)

  /** Python truthiness of an optional string: present and non-empty. */
  predicate Truthy(v: Option<string>) {
    v.Some? && |v.value| > 0
  }

  /** The hit's text: `payload.get("chunk_text", "")`, or `""` without a payload. */
  function Text(h: Hit): string {
    if h.payload.Some? then h.payload.value.chunkText.GetOr("") else ""
  }

  /** The metadata fields, listed in the order the snippet shows them. */
  datatype Field = Location | Source | DocumentId | CreatedAt

  const MetadataOrder: seq<Field> := [Location, Source, DocumentId, CreatedAt]

  function Label(f: Field): string {
    match f
    case Location => "Location: "
    case Source => "Source: "
    case DocumentId => "Document ID: "
    case CreatedAt => "Created At: "
  }

  function FieldOf(p: Payload, f: Field): Option<string> {
    match f
    case Location => p.location
    case Source => p.source
    case DocumentId => p.docId
    case CreatedAt => p.createdAt
  }

  /** The entry for field `f`: `"<label><value>"` when its value is truthy, else nothing. */
  function Entry(p: Payload, f: Field): seq<string> {
    if Truthy(FieldOf(p, f)) then [Label(f) + FieldOf(p, f).value] else []
  }

  /** One entry per truthy field of `fields`, in that order. */
  function EntriesFor(p: Payload, fields: seq<Field>): (r: seq<string>)
    ensures |r| <= |fields|
    ensures r == [] <==> forall i :: 0 <= i < |fields| ==> !Truthy(FieldOf(p, fields[i]))
  {
    if |fields| == 0 then []
    else
      Entry(p, fields[0]) + EntriesFor(p, fields[1..])
  }

  /** The `meta` list: an entry for each truthy metadata field of the payload,
      in the fixed field order; nothing without a payload. */
  function Metadata(h: Hit): (meta: seq<string>)
    ensures h.payload.None? ==> meta == []
    ensures h.payload.Some? ==> meta == EntriesFor(h.payload.value, MetadataOrder)
  {
    if h.payload.None? then []
    else
      var p := h.payload.value;
      EntriesInOrder(p);
      (if Truthy(p.location) then ["Location: " + p.location.value] else [])
      + (if Truthy(p.source) then ["Source: " + p.source.value] else [])
      + (if Truthy(p.docId) then ["Document ID: " + p.docId.value] else [])
      + (if Truthy(p.createdAt) then ["Created At: " + p.createdAt.value] else [])
  }

  /** The entries of the metadata fields, one field after another. */
  lemma EntriesInOrder(p: Payload)
    ensures EntriesFor(p, MetadataOrder)
            == Entry(p, Location) + Entry(p, Source) + Entry(p, DocumentId) + Entry(p, CreatedAt)
  {
    assert EntriesFor(p, [CreatedAt]) == Entry(p, CreatedAt);
    assert EntriesFor(p, [DocumentId, CreatedAt]) == Entry(p, DocumentId) + Entry(p, CreatedAt);
    assert EntriesFor(p, [Source, DocumentId, CreatedAt])
        == Entry(p, Source) + Entry(p, DocumentId) + Entry(p, CreatedAt);
  }

  /** The snippet for one hit, as the loop body builds it. */
  function Snippet(includeMetadata: bool, h: Hit): string {
    var text := Text(h);
    if includeMetadata then
      var meta := Metadata(h);
      (if |meta| > 0 then Join(", ", meta) + "\n" else "") + text
    else
      text + "\n"
  }

  /** What a snippet consists of. Without metadata it is the text and a
      newline. With metadata it ends with the text, with no newline after it;
      in front stand the `", "`-joined entries and a newline, or nothing when
      no field is truthy. */
  lemma SnippetLayout(includeMetadata: bool, h: Hit)
    ensures var s := Snippet(includeMetadata, h);
            && (includeMetadata ==> |Text(h)| <= |s| && s[|s| - |Text(h)|..] == Text(h))
            && (!includeMetadata ==> s == Text(h) + "\n")
            && (includeMetadata && Metadata(h) == [] ==> s == Text(h))
            && (includeMetadata && Metadata(h) != [] ==> s == Join(", ", Metadata(h)) + "\n" + Text(h))
  {
  }

  function Snippets(includeMetadata: bool, hits: seq<Hit>): (r: seq<string>)
    ensures |r| == |hits|
    ensures forall i :: 0 <= i < |hits| ==> r[i] == Snippet(includeMetadata, hits[i])
  {
    Map(h => Snippet(includeMetadata, h), hits)
  }

  /** How many snippets greedy packing takes with `budget` characters left:
      the next snippet goes in if it fits in what remains, and the first one
      that does not fit ends the packing. */
  function Taken(snips: seq<string>, budget: int): (k: nat)
    ensures k <= |snips|
  {
    if |snips| == 0 || |snips[0]| > budget then 0
    else 1 + Taken(snips[1..], budget - |snips[0]|)
  }

  /** The context `build_prompt_context` hands to `render_prompt`. */
  function PromptContext(includeMetadata: bool, hits: seq<Hit>, maxChars: int): string {
    var snips := Snippets(includeMetadata, hits);
    Concat(snips[..Taken(snips, maxChars)])
  }

  /** `build_prompt_context`: the hits' snippets, packed greedily. Building
      every snippet first and then packing gives the same context as building
      each one inside the loop, since building a snippet has no effect. */
  method BuildPromptContext(includeMetadata: bool, hits: seq<Hit>, maxChars: int) returns (context: string)
    ensures context == PromptContext(includeMetadata, hits, maxChars)
    ensures maxChars >= 0 ==> |context| <= maxChars
    ensures maxChars < 0 ==> context == ""
  {
    context := Pack(Snippets(includeMetadata, hits), maxChars);
  }

  /** The loop of `build_prompt_context`: append each snippet while the context
      plus the snippet stays within `maxChars`, and stop at the first one that
      would not. */
  method Pack(snips: seq<string>, maxChars: int) returns (context: string)
    ensures context == Concat(snips[..Taken(snips, maxChars)])
    ensures maxChars >= 0 ==> |context| <= maxChars
    ensures maxChars < 0 ==> context == ""
  {
    context := "";
    var i := 0;
    while i < |snips|
      invariant 0 <= i <= |snips|
      invariant context == Concat(snips[..i])
      invariant Taken(snips, maxChars) == i + Taken(snips[i..], maxChars - |context|)
    {
      var snippet := snips[i];
      if |context| + |snippet| > maxChars {
        TakeNone(snips, i, maxChars - |context|);
        break;
      }
      TakeOne(snips, i, maxChars - |context|);
      context := context + snippet;
      i := i + 1;
    }
    if i == |snips| {
      TakeNone(snips, i, maxChars - |context|);
    }
    if maxChars >= 0 {
      TakenFits(snips, maxChars);
    }
  }

  /** Nothing more is taken once the snippets run out or the next one overflows. */
  lemma TakeNone(snips: seq<string>, i: nat, left: int)
    requires i <= |snips|
    requires i == |snips| || |snips[i]| > left
    ensures Taken(snips[i..], left) == 0
  {
    if i < |snips| {
      assert snips[i..][0] == snips[i];
    }
  }

  /** One more snippet that fits the remaining budget is one more taken. */
  lemma TakeOne(snips: seq<string>, i: nat, left: int)
    requires i < |snips| && |snips[i]| <= left
    ensures Taken(snips[i..], left) == 1 + Taken(snips[i + 1..], left - |snips[i]|)
    ensures Concat(snips[..i + 1]) == Concat(snips[..i]) + snips[i]
  {
    assert snips[i..][1..] == snips[i + 1..];
    assert snips[..i + 1][..i] == snips[..i];
  }

  /** What greedy packing takes fits in the budget, whenever the budget is not negative. */
  lemma {:induction false} TakenFits(snips: seq<string>, budget: int)
    requires budget >= 0
    ensures |Concat(snips[..Taken(snips, budget)])| <= budget
  {
    var k := Taken(snips, budget);
    if k > 0 {
      TakenFits(snips[1..], budget - |snips[0]|);
      ConcatFront(snips, k);
    }
  }

  /** Packing stops at the first snippet that would overflow: when a snippet is
      left out, adding it to what was taken exceeds the budget. */
  lemma {:induction false} TakenStops(snips: seq<string>, budget: int)
    requires Taken(snips, budget) < |snips|
    ensures |Concat(snips[..Taken(snips, budget) + 1])| > budget
  {
    var k := Taken(snips, budget);
    ConcatFront(snips, k + 1);
    if k > 0 {
      TakenStops(snips[1..], budget - |snips[0]|);
    } else {
      assert snips[1..][..0] == [];
    }
  }

  /** Greedy packing takes exactly the longest prefix whose concatenation fits:
      a prefix fits if and only if it is no longer than what was taken. */
  lemma TakenIsLongestFit(snips: seq<string>, budget: int, j: nat)
    requires budget >= 0 && j <= |snips|
    ensures |Concat(snips[..j])| <= budget <==> j <= Taken(snips, budget)
  {
    var k := Taken(snips, budget);
    TakenFits(snips, budget);
    if j <= k {
      ConcatPrefix(snips, j, k);
    } else {
      TakenStops(snips, budget);
      ConcatPrefix(snips, k + 1, j);
    }
  }

  /** A larger budget never takes fewer snippets. */
  lemma {:induction false} TakenMonotone(snips: seq<string>, b1: int, b2: int)
    requires b1 <= b2
    ensures Taken(snips, b1) <= Taken(snips, b2)
  {
    if |snips| > 0 && |snips[0]| <= b1 {
      TakenMonotone(snips[1..], b1 - |snips[0]|, b2 - |snips[0]|);
    }
  }

  /** The context fits the budget when the budget is not negative, and is empty
      when it is. */
  lemma ContextWithinBudget(includeMetadata: bool, hits: seq<Hit>, maxChars: int)
    ensures maxChars >= 0 ==> |PromptContext(includeMetadata, hits, maxChars)| <= maxChars
    ensures maxChars < 0 ==> PromptContext(includeMetadata, hits, maxChars) == ""
  {
    if maxChars >= 0 {
      TakenFits(Snippets(includeMetadata, hits), maxChars);
    }
  }

  /** The context is the snippets of the first hits, in rank order: a prefix of
      all snippets concatenated. */
  lemma ContextIsPrefix(includeMetadata: bool, hits: seq<Hit>, maxChars: int)
    ensures PromptContext(includeMetadata, hits, maxChars) <= Concat(Snippets(includeMetadata, hits))
  {
    var snips := Snippets(includeMetadata, hits);
    ConcatPrefix(snips, Taken(snips, maxChars), |snips|);
    assert snips[..|snips|] == snips;
  }

  /** Raising the budget never shrinks the context: the smaller budget's context
      is a prefix of the larger one's. */
  lemma ContextMonotone(includeMetadata: bool, hits: seq<Hit>, b1: int, b2: int)
    requires b1 <= b2
    ensures PromptContext(includeMetadata, hits, b1) <= PromptContext(includeMetadata, hits, b2)
  {
    var snips := Snippets(includeMetadata, hits);
    TakenMonotone(snips, b1, b2);
    ConcatPrefix(snips, Taken(snips, b1), Taken(snips, b2));
  }

  /** No hits, no context. */
  lemma NoHitsNoContext(includeMetadata: bool, maxChars: int)
    ensures PromptContext(includeMetadata, [], maxChars) == ""
  {
  }
}
