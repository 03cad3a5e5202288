/**
  The pure parts of `QdrantVectorStore`: the payload a chunk is stored as
  (`FillPayload`), the chunk a payload is read back as (`FromPayload`), the
  metadata filter `SearchAsync` sends, the `(ulong)topK` limit and the
  mapping of the client's results back to chunks.

  A Qdrant payload value is a protobuf `Value` whose `kind` is either an
  integer or a string here; its `IntegerValue` / `StringValue` getters return
  the protobuf default (0, "") when the value holds the other kind.
 */
module QdrantPayload {
  import opened Base
  import opened Guids
  import opened Models

  datatype Value = IntValue(i: int) | StrValue(s: string)

  /** `Value.IntegerValue`. */
  function IntegerValue(v: Value): int {
    if v.IntValue? then v.i else 0
  }

  /** `Value.StringValue`. */
  function StringValue(v: Value): string {
    if v.StrValue? then v.s else ""
  }

  /** A point's payload: `MapField<string, Value>`. */
  type Payload = map<string, Value>

  const IndexKey := "index"
  const ContentKey := "content"
  const DocumentIdKey := "document_id"
  const PageNumberKey := "page_number"

  /** The four keys the codec writes itself. */
  predicate IsReserved(key: string) {
    key == IndexKey || key == ContentKey || key == DocumentIdKey || key == PageNumberKey
  }

  /** The reserved entries, before the custom tags are written over them. */
  function ReservedPayload(chunk: DocumentChunk): Payload {
    var md := chunk.metadata;
    var p := map[IndexKey := IntValue(chunk.index),
                 ContentKey := StrValue(chunk.content),
                 DocumentIdKey := StrValue(IdText(md.documentId))];
    if md.pageNumber.Some? then p[PageNumberKey := IntValue(md.pageNumber.value)] else p
  }

  /**
    `FillPayload` on a new point's empty payload: the reserved entries, then
    every custom tag as a string, a tag overwriting a reserved entry of the
    same name.
   */
  function FillPayload(chunk: DocumentChunk): (p: Payload)
    ensures IndexKey in p && ContentKey in p && DocumentIdKey in p
  {
    var reserved := ReservedPayload(chunk);
    match chunk.metadata.custom
    case None => reserved
    case Some(tags) => Overwrite(reserved, tags)
  }

  /** The entries `FillPayload` writes: the reserved ones unless a tag of the same name replaces them, and every tag. */
  lemma FillPayloadEntries(chunk: DocumentChunk)
    ensures var p := FillPayload(chunk);
      var md := chunk.metadata;
      var custom := md.custom.GetOr(map[]);
      && p.Keys == {IndexKey, ContentKey, DocumentIdKey}
                   + (if md.pageNumber.Some? then {PageNumberKey} else {})
                   + custom.Keys
      && (forall k :: k in custom ==> p[k] == StrValue(custom[k]))
      && (IndexKey !in custom ==> p[IndexKey] == IntValue(chunk.index))
      && (ContentKey !in custom ==> p[ContentKey] == StrValue(chunk.content))
      && (DocumentIdKey !in custom ==> p[DocumentIdKey] == StrValue(IdText(md.documentId)))
      && (PageNumberKey !in custom && md.pageNumber.Some? ==> p[PageNumberKey] == IntValue(md.pageNumber.value))
  {
  }

  /** Writing every tag into the payload, one `payload[key] = value` at a time. */
  function Overwrite(p: Payload, tags: map<string, string>): (r: Payload)
    ensures r.Keys == p.Keys + tags.Keys
    ensures forall k :: k in tags ==> r[k] == StrValue(tags[k])
    ensures forall k :: k in p && k !in tags ==> r[k] == p[k]
  {
    map k | k in p.Keys + tags.Keys :: if k in tags then StrValue(tags[k]) else p[k]
  }

  /** What `FromPayload` throws. */
  datatype DecodeError =
    | KeyNotFound(key: string)   // the `payload[key]` indexer: `KeyNotFoundException`
    | InvalidGuid(text: string)  // `Guid.Parse`: `FormatException`

  /** The entries that are not reserved, read as strings. */
  function CustomOf(p: Payload): (c: map<string, string>)
    ensures c.Keys == set k | k in p && !IsReserved(k)
    ensures forall k :: k in c ==> c[k] == StringValue(p[k])
  {
    map k | k in p && !IsReserved(k) :: StringValue(p[k])
  }

  /** The text `FromPayload` hands to `Guid.Parse`: "" when there is no `document_id`. */
  function DocumentIdText(p: Payload): string {
    if DocumentIdKey in p then StringValue(p[DocumentIdKey]) else ""
  }

  /**
    `FromPayload`: reads the index, the content, the document id, the optional
    page number and the remaining entries, in that order, failing at the first
    step that throws. The integer casts are unchecked.
   */
  function FromPayload(p: Payload): (r: Result<DocumentChunk, DecodeError>)
    ensures IndexKey !in p <==> r == Failure(KeyNotFound(IndexKey))
    ensures r == Failure(KeyNotFound(ContentKey)) <==> IndexKey in p && ContentKey !in p
    ensures r.Failure? && r.error.InvalidGuid? <==>
              IndexKey in p && ContentKey in p && Parse(DocumentIdText(p)).None?
    ensures r.Failure? && r.error.InvalidGuid? ==> r.error.text == DocumentIdText(p)
    ensures r.Success? ==>
              && r.value.index == ToInt32(IntegerValue(p[IndexKey]))
              && r.value.content == StringValue(p[ContentKey])
              && Parse(DocumentIdText(p)) == r.value.metadata.documentId
              && r.value.metadata.fileName.None?
              && r.value.metadata.filePath.None?
              && (PageNumberKey in p <==> r.value.metadata.pageNumber.Some?)
              && (PageNumberKey in p ==> r.value.metadata.pageNumber.value == ToInt32(IntegerValue(p[PageNumberKey])))
              && r.value.metadata.custom == Some(CustomOf(p))
  {
    if IndexKey !in p then Failure(KeyNotFound(IndexKey))
    else if ContentKey !in p then Failure(KeyNotFound(ContentKey))
    else
      var idText := DocumentIdText(p);
      match Parse(idText)
      case None => Failure(InvalidGuid(idText))
      case Some(g) =>
        var page := if PageNumberKey in p then Some(ToInt32(IntegerValue(p[PageNumberKey]))) else None;
        Success(DocumentChunk(
          ToInt32(IntegerValue(p[IndexKey])),
          StringValue(p[ContentKey]),
          DocumentMetadata(Some(g), None, None, page, Some(CustomOf(p)))))
  }

  /** A chunk the payload can carry without loss. */
  predicate Storable(chunk: DocumentChunk) {
    var md := chunk.metadata;
    && IsInt32(chunk.index)
    && md.documentId.Some?
    && (md.pageNumber.Some? ==> IsInt32(md.pageNumber.value))
    && (md.custom.Some? ==> forall k :: k in md.custom.value ==> !IsReserved(k))
  }

  /** What a stored chunk reads back as: no file name or path, and an empty tag map for null. */
  function Normalize(chunk: DocumentChunk): DocumentChunk {
    var md := chunk.metadata;
    chunk.(metadata := DocumentMetadata(md.documentId, None, None, md.pageNumber, Some(md.custom.GetOr(map[]))))
  }

  /**
    Round trip: a chunk with a document id, in-range integers and no reserved
    tag reads back with the same index, content, document id, page number and
    tags; only the file name and path are lost.
   */
  lemma DecodeFill(chunk: DocumentChunk)
    requires Storable(chunk)
    ensures FromPayload(FillPayload(chunk)) == Success(Normalize(chunk))
  {
    var p := FillPayload(chunk);
    FillPayloadEntries(chunk);
    var md := chunk.metadata;
    var id := md.documentId.value;
    assert p[IndexKey] == IntValue(chunk.index) && p[ContentKey] == StrValue(chunk.content);
    assert DocumentIdText(p) == Format(id);
    ParseFormat(id);
    assert PageNumberKey in p <==> md.pageNumber.Some?;
    assert md.pageNumber.Some? ==> p[PageNumberKey] == IntValue(md.pageNumber.value);
    CustomOfFill(chunk);
    var page := if PageNumberKey in p then Some(ToInt32(IntegerValue(p[PageNumberKey]))) else None;
    assert page == md.pageNumber;
    assert FromPayload(p) == Success(DocumentChunk(
      ToInt32(IntegerValue(p[IndexKey])),
      StringValue(p[ContentKey]),
      DocumentMetadata(Some(id), None, None, page, Some(CustomOf(p)))));
  }

  /** The non-reserved entries of a written payload are exactly the chunk's tags. */
  lemma CustomOfFill(chunk: DocumentChunk)
    requires chunk.metadata.custom.Some? ==> forall k :: k in chunk.metadata.custom.value ==> !IsReserved(k)
    ensures CustomOf(FillPayload(chunk)) == chunk.metadata.custom.GetOr(map[])
  {
    var p := FillPayload(chunk);
    FillPayloadEntries(chunk);
    var tags := chunk.metadata.custom.GetOr(map[]);
    var c := CustomOf(p);
    assert forall k :: k in p && !IsReserved(k) <==> k in tags;
    assert c.Keys == tags.Keys;
    assert forall k :: k in c ==> c[k] == tags[k];
  }

  /** A chunk without a document id is written with an empty id, which cannot be read back. */
  lemma NullIdUndecodable(chunk: DocumentChunk)
    requires chunk.metadata.documentId.None?
    requires chunk.metadata.custom.Some? ==> DocumentIdKey !in chunk.metadata.custom.value
    ensures FromPayload(FillPayload(chunk)) == Failure(InvalidGuid(""))
  {
    FillPayloadEntries(chunk);
    ParseEmptyFails();
  }

  /** A custom tag named `index` replaces the integer with a string, which reads back as index 0. */
  lemma IndexTagOverrides(chunk: DocumentChunk, tag: string)
    requires Storable(chunk.(metadata := chunk.metadata.(custom := None)))
    requires chunk.metadata.custom == Some(map[IndexKey := tag])
    ensures FromPayload(FillPayload(chunk)).Success?
    ensures FromPayload(FillPayload(chunk)).value.index == 0
  {
    var p := FillPayload(chunk);
    FillPayloadEntries(chunk);
    ParseFormat(chunk.metadata.documentId.value);
    assert DocumentIdText(p) == Format(chunk.metadata.documentId.value);
  }

  /** A payload in the shape `FillPayload` writes: lower-case id, in-range integers, string tags. */
  predicate WellFormed(p: Payload) {
    && IndexKey in p && p[IndexKey].IntValue? && IsInt32(p[IndexKey].i)
    && ContentKey in p && p[ContentKey].StrValue?
    && DocumentIdKey in p && p[DocumentIdKey].StrValue?
    && Parse(p[DocumentIdKey].s).Some?
    && (forall i :: 0 <= i < |p[DocumentIdKey].s| ==> !('A' <= p[DocumentIdKey].s[i] <= 'F'))
    && (PageNumberKey in p ==> p[PageNumberKey].IntValue? && IsInt32(p[PageNumberKey].i))
    && (forall k :: k in p && !IsReserved(k) ==> p[k].StrValue?)
  }

  /** The other direction: a well-formed payload is exactly what its decoded chunk is written as. */
  lemma FillDecode(p: Payload)
    requires WellFormed(p)
    ensures FromPayload(p).Success?
    ensures FillPayload(FromPayload(p).value) == p
  {
    var c := FromPayload(p).value;
    var idText := p[DocumentIdKey].s;
    FormatParse(idText, c.metadata.documentId.value);
    var reserved := ReservedPayload(c);
    assert reserved[IndexKey] == p[IndexKey] && reserved[ContentKey] == p[ContentKey];
    assert reserved[DocumentIdKey] == p[DocumentIdKey];
    assert PageNumberKey in reserved <==> PageNumberKey in p;
    assert PageNumberKey in p ==> reserved[PageNumberKey] == p[PageNumberKey];
    RebuildPayload(p, reserved);
    assert FillPayload(c) == Overwrite(reserved, CustomOf(p));
  }

  /** Writing the non-reserved entries, read as strings, over the reserved ones gives the payload back. */
  lemma RebuildPayload(p: Payload, reserved: Payload)
    requires forall k :: k in p && !IsReserved(k) ==> p[k].StrValue?
    requires IndexKey in p && ContentKey in p && DocumentIdKey in p
    requires reserved.Keys == {IndexKey, ContentKey, DocumentIdKey} + (if PageNumberKey in p then {PageNumberKey} else {})
    requires reserved[IndexKey] == p[IndexKey] && reserved[ContentKey] == p[ContentKey]
    requires reserved[DocumentIdKey] == p[DocumentIdKey]
    requires PageNumberKey in p ==> reserved[PageNumberKey] == p[PageNumberKey]
    ensures Overwrite(reserved, CustomOf(p)) == p
  {
    var tags := CustomOf(p);
    var r := Overwrite(reserved, tags);
    assert forall k :: k in r <==> k in p;
    forall k | k in p
      ensures r[k] == p[k]
    {
      if IsReserved(k) {
        assert k !in tags && k in reserved;
      } else {
        assert k in tags;
      }
    }
  }

  // ----------- Search -----------

  /** One must-condition: the field `key` matches the text `text`. */
  datatype Condition = Condition(key: string, text: string)

  datatype Filter = Filter(must: seq<Condition>)

  /** The keys of an enumeration of a dictionary are distinct. */
  predicate DistinctKeys(entries: seq<(string, string)>) {
    forall i, j :: 0 <= i < j < |entries| ==> entries[i].0 != entries[j].0
  }

  /**
    The filter `SearchAsync` builds from the metadata filters, given as the
    dictionary's entries in enumeration order: none for null or empty, else
    one must-condition per entry.
   */
  function BuildFilter(filters: Option<seq<(string, string)>>): (r: Option<Filter>)
    requires filters.Some? ==> DistinctKeys(filters.value)
    ensures r.None? <==> filters.None? || |filters.value| == 0
    ensures r.Some? ==> |r.value.must| == |filters.value|
    ensures r.Some? ==> forall key, text ::
              Condition(key, text) in r.value.must <==> (key, text) in filters.value
  {
    match filters
    case None => None
    case Some(entries) =>
      if |entries| == 0 then None
      else
        var must := seq(|entries|, i requires 0 <= i < |entries| => Condition(entries[i].0, entries[i].1));
        assert forall key, text :: Condition(key, text) in must ==> (key, text) in entries by {
          forall key, text | Condition(key, text) in must
            ensures (key, text) in entries
          {
            var i :| 0 <= i < |must| && must[i] == Condition(key, text);
            assert entries[i] == (key, text);
          }
        }
        assert forall key, text :: (key, text) in entries ==> Condition(key, text) in must by {
          forall key, text | (key, text) in entries
            ensures Condition(key, text) in must
          {
            var i :| 0 <= i < |entries| && entries[i] == (key, text);
            assert must[i] == Condition(key, text);
          }
        }
        Some(Filter(must))
  }

  /** The filter keeps one condition per key: no key is constrained twice. */
  lemma FilterKeysDistinct(filters: seq<(string, string)>)
    requires DistinctKeys(filters) && |filters| > 0
    ensures var must := BuildFilter(Some(filters)).value.must;
      forall i, j :: 0 <= i < j < |must| ==> must[i].key != must[j].key
  {
  }

  const ULongModulus := 0x1_0000_0000_0000_0000

  /** `(ulong)topK`: an unchecked conversion, so a negative `topK` becomes a huge limit. */
  function SearchLimit(topK: int): (limit: nat)
    requires IsInt32(topK)
    ensures limit < ULongModulus
    ensures (limit - topK) % ULongModulus == 0
    ensures topK >= 0 ==> limit == topK
    ensures topK < 0 ==> limit >= ULongModulus - 0x8000_0000
  {
    topK % ULongModulus
  }

  /** A point the client's search returned: its payload and its similarity score. */
  datatype ScoredPoint<S> = ScoredPoint(payload: Payload, score: S)

  /**
    `results.Select(res => (FromPayload(res.Payload), res.Score)).ToList()`:
    the results in the client's order, each payload decoded and its score
    passed through; the first payload that does not decode throws.
   */
  function MapResults<S>(results: seq<ScoredPoint<S>>): (r: Result<seq<(DocumentChunk, S)>, DecodeError>)
    ensures r.Success? ==> |r.value| == |results|
    ensures r.Failure? ==> |results| > 0
  {
    if |results| == 0 then Success([])
    else
      match FromPayload(results[0].payload)
      case Failure(e) => Failure(e)
      case Success(c) =>
        match MapResults(results[1..])
        case Failure(e) => Failure(e)
        case Success(rest) => Success([(c, results[0].score)] + rest)
  }

  /** The mapping succeeds exactly when every payload decodes, and then holds each decoded chunk with its score, in order. */
  lemma {:induction false} MapResultsSuccess<S>(results: seq<ScoredPoint<S>>)
    ensures MapResults(results).Success? <==> forall i :: 0 <= i < |results| ==> FromPayload(results[i].payload).Success?
    ensures MapResults(results).Success? ==> forall i :: 0 <= i < |results| ==>
              MapResults(results).value[i] == (FromPayload(results[i].payload).value, results[i].score)
    decreases |results|
  {
    if |results| > 0 {
      var tail := results[1..];
      MapResultsSuccess(tail);
      var head := FromPayload(results[0].payload);
      if head.Failure? {
        assert MapResults(results) == Failure(head.error);
      } else if MapResults(tail).Failure? {
        var i :| 0 <= i < |tail| && FromPayload(tail[i].payload).Failure?;
        assert results[i + 1] == tail[i];
        assert MapResults(results) == Failure(MapResults(tail).error);
      } else {
        var r := [(head.value, results[0].score)] + MapResults(tail).value;
        assert MapResults(results) == Success(r);
        forall i | 0 <= i < |results|
          ensures FromPayload(results[i].payload).Success?
          ensures r[i] == (FromPayload(results[i].payload).value, results[i].score)
        {
          if i > 0 {
            assert results[i] == tail[i - 1] && r[i] == MapResults(tail).value[i - 1];
          }
        }
      }
    }
  }

  /** A failing mapping throws the error of the first payload that does not decode. */
  lemma {:induction false} MapResultsFailure<S>(results: seq<ScoredPoint<S>>)
    ensures MapResults(results).Failure? ==>
              exists i: nat :: FirstFailure(results, i) && MapResults(results).error == FromPayload(results[i].payload).error
    decreases |results|
  {
    if |results| > 0 {
      if FromPayload(results[0].payload).Failure? {
        assert FirstFailure(results, 0);
      } else if MapResults(results).Failure? {
        var tail := results[1..];
        MapResultsFailure(tail);
        var i: nat :| FirstFailure(tail, i) && MapResults(tail).error == FromPayload(tail[i].payload).error;
        assert results[i + 1] == tail[i];
        assert forall j :: 0 < j <= i ==> results[j] == tail[j - 1];
        assert FirstFailure(results, i + 1);
      }
    }
  }

  /** Result `i` is the first whose payload does not decode. */
  ghost predicate FirstFailure<S>(results: seq<ScoredPoint<S>>, i: nat) {
    && i < |results|
    && FromPayload(results[i].payload).Failure?
    && forall j :: 0 <= j < i ==> FromPayload(results[j].payload).Success?
  }

  /** `GetById`'s mapping: the first retrieved point decoded, or null when none came back. */
  function FirstDecoded(points: seq<Payload>): (r: Result<Option<DocumentChunk>, DecodeError>)
    ensures |points| == 0 <==> r == Success(None)
    ensures |points| > 0 && FromPayload(points[0]).Success? ==> r == Success(Some(FromPayload(points[0]).value))
    ensures |points| > 0 && FromPayload(points[0]).Failure? ==> r == Failure(FromPayload(points[0]).error)
  {
    if |points| == 0 then Success(None)
    else
      match FromPayload(points[0])
      case Success(c) => Success(Some(c))
      case Failure(e) => Failure(e)
  }
}
