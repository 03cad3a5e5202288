/**
  `QdrantVectorStore` as a state over stored payloads: each collection keeps
  its vector parameters and, per point identifier, the payload `FillPayload`
  wrote and the vector. Reads go through `FromPayload`.

  The Qdrant server's own work (similarity scoring, filter matching, the
  transport) is not modelled: a search is given the points the server
  returned, in its order.

  `Represents` relates this state to the abstract `VectorStore` state, and
  the lemmas below show that every operation keeps the relation and that
  reads return the abstract chunks up to what the payload cannot carry
  (`Normalize`).
 */
module QdrantStore {
  import opened Base
  import opened Guids
  import opened Models
  import opened QdrantPayload
  import VectorStore

  datatype Distance = Cosine | Euclid | Dot | Manhattan

  datatype VectorParams = VectorParams(size: nat, distance: Distance)

  /** The parameters `CreateCollectionAsync` creates every collection with. */
  const CollectionParams := VectorParams(1536, Cosine)

  /** A Qdrant point as stored: its payload and its vector. */
  datatype StoredPoint<V> = StoredPoint(payload: Payload, vector: V)

  datatype QdrantCollection<V> = QdrantCollection(params: VectorParams, points: map<Guid, StoredPoint<V>>)

  type QdrantState<V> = map<string, QdrantCollection<V>>

  /** What a call can throw: a client error about the collection, or a payload that does not decode. */
  datatype Error = StoreFailure(storeError: VectorStore.StoreError) | DecodeFailure(decodeError: DecodeError)

  /** `CreateCollectionAsync`: an empty collection of 1536-dimensional cosine vectors. */
  function CreateCollection<V>(q: QdrantState<V>, name: string): (r: Result<QdrantState<V>, Error>)
    ensures name in q <==> r == Failure(StoreFailure(VectorStore.CollectionExists(name)))
    ensures r.Success? ==> r.value.Keys == q.Keys + {name}
    ensures r.Success? ==> r.value[name].params == VectorParams(1536, Cosine) && |r.value[name].points| == 0
    ensures r.Success? ==> forall n :: n in q ==> r.value[n] == q[n]
  {
    if name in q then Failure(StoreFailure(VectorStore.CollectionExists(name)))
    else
      var c: QdrantCollection<V> := QdrantCollection(CollectionParams, map[]);
      Success(q[name := c])
  }

  /** `DeleteCollectionAsync`. */
  function DeleteCollection<V>(q: QdrantState<V>, name: string): (r: Result<QdrantState<V>, Error>)
    ensures name !in q <==> r == Failure(StoreFailure(VectorStore.CollectionNotFound(name)))
    ensures r.Success? ==> r.value.Keys == q.Keys - {name}
    ensures r.Success? ==> forall n :: n in r.value ==> r.value[n] == q[n]
  {
    if name !in q then Failure(StoreFailure(VectorStore.CollectionNotFound(name)))
    else Success(q - {name})
  }

  /** `ListCollectionsAsync`: the names the server holds collections under. */
  function ListCollections<V>(q: QdrantState<V>): set<string> {
    q.Keys
  }

  /** `UpsertAsync`: the point under `id` now holds the chunk's payload and the vector. */
  function Upsert<V>(q: QdrantState<V>, collection: string, id: Guid, chunk: DocumentChunk, vector: V)
    : (r: Result<QdrantState<V>, Error>)
    ensures collection !in q <==> r == Failure(StoreFailure(VectorStore.CollectionNotFound(collection)))
    ensures r.Success? ==> r.value.Keys == q.Keys
    ensures r.Success? ==> forall n :: n in q && n != collection ==> r.value[n] == q[n]
    ensures r.Success? ==> r.value[collection].params == q[collection].params
    ensures r.Success? ==> r.value[collection].points.Keys == q[collection].points.Keys + {id}
    ensures r.Success? ==> r.value[collection].points[id] == StoredPoint(FillPayload(chunk), vector)
    ensures r.Success? ==> forall j :: j in q[collection].points && j != id ==>
              r.value[collection].points[j] == q[collection].points[j]
  {
    if collection !in q then Failure(StoreFailure(VectorStore.CollectionNotFound(collection)))
    else
      var c := q[collection];
      var c' := c.(points := c.points[id := StoredPoint(FillPayload(chunk), vector)]);
      Success(q[collection := c'])
  }

  /** `AddAsync`: an upsert under a freshly generated identifier. */
  function Add<V>(q: QdrantState<V>, collection: string, chunk: DocumentChunk, vector: V, freshId: Guid)
    : (r: Result<QdrantState<V>, Error>)
    ensures r.Success? <==> collection in q
    ensures r.Success? ==> collection in r.value && freshId in r.value[collection].points
    ensures r.Success? ==> r.value[collection].points[freshId] == StoredPoint(FillPayload(chunk), vector)
    ensures r.Success? && freshId !in q[collection].points ==>
              |r.value[collection].points| == |q[collection].points| + 1
  {
    Upsert(q, collection, freshId, chunk, vector)
  }

  /** The points `AddRangeAsync` builds, one per item under its fresh identifier. */
  function PointsOf<V>(items: seq<(DocumentChunk, V)>, freshIds: seq<Guid>): (b: map<Guid, StoredPoint<V>>)
    requires |freshIds| == |items|
    ensures forall k :: k in b <==> k in freshIds
  {
    if |items| == 0 then map[]
    else
      var n := |items| - 1;
      assert forall k :: k in freshIds <==> k in freshIds[..n] || k == freshIds[n];
      PointsOf(items[..n], freshIds[..n])[freshIds[n] := StoredPoint(FillPayload(items[n].0), items[n].1)]
  }

  /** `AddRangeAsync`: all items upserted in one call. */
  function AddRange<V>(q: QdrantState<V>, collection: string, items: seq<(DocumentChunk, V)>, freshIds: seq<Guid>)
    : (r: Result<QdrantState<V>, Error>)
    requires |freshIds| == |items|
    ensures collection !in q <==> r == Failure(StoreFailure(VectorStore.CollectionNotFound(collection)))
    ensures r.Success? ==> r.value.Keys == q.Keys
    ensures r.Success? ==> forall n :: n in q && n != collection ==> r.value[n] == q[n]
    ensures r.Success? ==> r.value[collection].params == q[collection].params
    ensures r.Success? ==> forall k :: k in r.value[collection].points <==> k in q[collection].points || k in freshIds
    ensures r.Success? ==> forall k :: k in q[collection].points && k !in freshIds ==>
              r.value[collection].points[k] == q[collection].points[k]
  {
    if collection !in q then Failure(StoreFailure(VectorStore.CollectionNotFound(collection)))
    else
      var c := q[collection];
      Success(q[collection := c.(points := c.points + PointsOf(items, freshIds))])
  }

  /** Each item of a batch with distinct fresh ids is stored under its id as its payload and vector. */
  lemma AddRangeStores<V>(q: QdrantState<V>, collection: string, items: seq<(DocumentChunk, V)>, freshIds: seq<Guid>, i: nat)
    requires |freshIds| == |items| && VectorStore.Distinct(freshIds)
    requires collection in q && i < |items|
    ensures var r := AddRange(q, collection, items, freshIds);
      && r.Success? && freshIds[i] in r.value[collection].points
      && r.value[collection].points[freshIds[i]] == StoredPoint(FillPayload(items[i].0), items[i].1)
  {
    PointsOfBatch(items, freshIds);
    VectorStore.BatchAt(items, freshIds, i);
  }

  /** `DeleteAsync`. */
  function Delete<V>(q: QdrantState<V>, collection: string, id: Guid): (r: Result<QdrantState<V>, Error>)
    ensures collection !in q <==> r == Failure(StoreFailure(VectorStore.CollectionNotFound(collection)))
    ensures r.Success? ==> r.value.Keys == q.Keys
    ensures r.Success? ==> forall n :: n in q && n != collection ==> r.value[n] == q[n]
    ensures r.Success? ==> r.value[collection].params == q[collection].params
    ensures r.Success? ==> id !in r.value[collection].points
    ensures r.Success? ==> forall j :: j != id ==>
              (j in r.value[collection].points <==> j in q[collection].points)
              && (j in q[collection].points ==> r.value[collection].points[j] == q[collection].points[j])
  {
    if collection !in q then Failure(StoreFailure(VectorStore.CollectionNotFound(collection)))
    else
      var c := q[collection];
      Success(q[collection := c.(points := c.points - {id})])
  }

  /** What `RetrieveAsync` returns for one identifier: its payload, or nothing. */
  function Retrieve<V>(c: QdrantCollection<V>, id: Guid): (r: seq<Payload>)
    ensures |r| <= 1
    ensures |r| == 1 <==> id in c.points
  {
    if id in c.points then [c.points[id].payload] else []
  }

  /** `GetById`: the first retrieved point decoded, or null when none came back. */
  function GetById<V>(q: QdrantState<V>, collection: string, id: Guid): (r: Result<Option<DocumentChunk>, Error>)
    ensures collection !in q <==> r == Failure(StoreFailure(VectorStore.CollectionNotFound(collection)))
    ensures collection in q && id !in q[collection].points <==> r == Success(None)
    ensures collection in q && id in q[collection].points ==>
              match FromPayload(q[collection].points[id].payload)
              case Success(chunk) => r == Success(Some(chunk))
              case Failure(e) => r == Failure(DecodeFailure(e))
  {
    if collection !in q then Failure(StoreFailure(VectorStore.CollectionNotFound(collection)))
    else
      match FirstDecoded(Retrieve(q[collection], id))
      case Success(found) => Success(found)
      case Failure(e) => Failure(DecodeFailure(e))
  }

  /** What `SearchAsync` sends: the filter and the limit. */
  datatype SearchRequest = SearchRequest(filter: Option<Filter>, limit: nat)

  function Request(topK: int, filters: Option<seq<(string, string)>>): (r: SearchRequest)
    requires IsInt32(topK)
    requires filters.Some? ==> DistinctKeys(filters.value)
    ensures r.filter == BuildFilter(filters)
    ensures r.limit == SearchLimit(topK)
  {
    SearchRequest(BuildFilter(filters), SearchLimit(topK))
  }

  /** The points the server returned, as the client sees them: payload and score. */
  function Scored<V, S>(c: QdrantCollection<V>, served: seq<(Guid, S)>): (r: seq<ScoredPoint<S>>)
    requires forall i :: 0 <= i < |served| ==> served[i].0 in c.points
    ensures |r| == |served|
    ensures forall i :: 0 <= i < |r| ==> r[i] == ScoredPoint(c.points[served[i].0].payload, served[i].1)
  {
    seq(|served|, i requires 0 <= i < |served| => ScoredPoint(c.points[served[i].0].payload, served[i].1))
  }

  /** `SearchAsync`'s result: the served points in order, decoded, with their scores. */
  function SearchResults<V, S>(q: QdrantState<V>, collection: string, served: seq<(Guid, S)>)
    : (r: Result<seq<(DocumentChunk, S)>, Error>)
    requires collection in q ==> forall i :: 0 <= i < |served| ==> served[i].0 in q[collection].points
    ensures collection !in q <==> r == Failure(StoreFailure(VectorStore.CollectionNotFound(collection)))
    ensures r.Success? ==> |r.value| == |served|
    ensures r.Success? ==> forall i :: 0 <= i < |served| ==>
              r.value[i].1 == served[i].1
              && Success(r.value[i].0) == FromPayload(q[collection].points[served[i].0].payload)
  {
    if collection !in q then Failure(StoreFailure(VectorStore.CollectionNotFound(collection)))
    else
      MapResultsSuccess(Scored(q[collection], served));
      match MapResults(Scored(q[collection], served))
      case Success(results) => Success(results)
      case Failure(e) => Failure(DecodeFailure(e))
  }

  // ----------- Relation to the abstract store -----------

  /** The Qdrant state stores, for every abstract point, the chunk's payload and the same vector. */
  ghost predicate Represents<V>(q: QdrantState<V>, s: VectorStore.Store<V>) {
    && q.Keys == s.Keys
    && forall n :: n in s ==>
         && q[n].points.Keys == s[n].Keys
         && forall id :: id in s[n] ==>
              q[n].points[id] == StoredPoint(FillPayload(s[n][id].chunk), s[n][id].vector)
  }

  /** Every stored chunk survives the payload round trip. */
  ghost predicate AllStorable<V>(s: VectorStore.Store<V>) {
    forall n, id :: n in s && id in s[n] ==> Storable(s[n][id].chunk)
  }

  /** Both fail together, or both succeed with related states. */
  ghost predicate Corresponds<V>(qr: Result<QdrantState<V>, Error>, sr: Result<VectorStore.Store<V>, VectorStore.StoreError>) {
    match sr
    case Failure(e) => qr == Failure(StoreFailure(e))
    case Success(s) => qr.Success? && Represents(qr.value, s)
  }

  lemma CreateCollectionRefines<V>(q: QdrantState<V>, s: VectorStore.Store<V>, name: string)
    requires Represents(q, s)
    ensures Corresponds(CreateCollection(q, name), VectorStore.CreateCollection(s, name))
  {
  }

  lemma DeleteCollectionRefines<V>(q: QdrantState<V>, s: VectorStore.Store<V>, name: string)
    requires Represents(q, s)
    ensures Corresponds(DeleteCollection(q, name), VectorStore.DeleteCollection(s, name))
  {
  }

  /** Listing through the client names exactly the abstract store's collections. */
  lemma ListCollectionsRefines<V>(q: QdrantState<V>, s: VectorStore.Store<V>)
    requires Represents(q, s)
    ensures ListCollections(q) == VectorStore.ListCollections(s)
  {
  }

  lemma UpsertRefines<V>(q: QdrantState<V>, s: VectorStore.Store<V>, collection: string, id: Guid, chunk: DocumentChunk, vector: V)
    requires Represents(q, s)
    ensures Corresponds(Upsert(q, collection, id, chunk, vector), VectorStore.Upsert(s, collection, id, chunk, vector))
  {
    if collection in s {
      var c := q[collection];
      var qc := c.(points := c.points[id := StoredPoint(FillPayload(chunk), vector)]);
      var sc: VectorStore.Collection<V> := s[collection][id := VectorStore.Point(chunk, vector)];
      assert Upsert(q, collection, id, chunk, vector) == Success(q[collection := qc]);
      assert VectorStore.Upsert(s, collection, id, chunk, vector) == Success(s[collection := sc]);
      RepresentsUpdate(q, s, collection, qc, sc);
    }
  }

  /** Replacing one collection on both sides by related contents keeps the relation. */
  lemma RepresentsUpdate<V>(q: QdrantState<V>, s: VectorStore.Store<V>, collection: string,
                            qc: QdrantCollection<V>, sc: VectorStore.Collection<V>)
    requires Represents(q, s) && collection in s
    requires qc.points.Keys == sc.Keys
    requires forall j :: j in sc ==> qc.points[j] == StoredPoint(FillPayload(sc[j].chunk), sc[j].vector)
    ensures Represents(q[collection := qc], s[collection := sc])
  {
  }

  lemma DeleteRefines<V>(q: QdrantState<V>, s: VectorStore.Store<V>, collection: string, id: Guid)
    requires Represents(q, s)
    ensures Corresponds(Delete(q, collection, id), VectorStore.Delete(s, collection, id))
  {
  }

  /** The payload points of a batch are the abstract batch, written out. */
  lemma {:induction false} PointsOfBatch<V>(items: seq<(DocumentChunk, V)>, freshIds: seq<Guid>)
    requires |freshIds| == |items|
    ensures var b := VectorStore.Batch(items, freshIds);
      var p := PointsOf(items, freshIds);
      && p.Keys == b.Keys
      && forall id :: id in b ==> p[id] == StoredPoint(FillPayload(b[id].chunk), b[id].vector)
    decreases |items|
  {
    if |items| > 0 {
      var n := |items| - 1;
      PointsOfBatch(items[..n], freshIds[..n]);
    }
  }

  lemma AddRangeRefines<V>(q: QdrantState<V>, s: VectorStore.Store<V>, collection: string,
                           items: seq<(DocumentChunk, V)>, freshIds: seq<Guid>)
    requires Represents(q, s)
    requires |freshIds| == |items|
    ensures Corresponds(AddRange(q, collection, items, freshIds), VectorStore.AddRange(s, collection, items, freshIds))
  {
    if collection in s {
      var c := q[collection];
      var qc := c.(points := c.points + PointsOf(items, freshIds));
      var sc: VectorStore.Collection<V> := s[collection] + VectorStore.Batch(items, freshIds);
      assert AddRange(q, collection, items, freshIds) == Success(q[collection := qc]);
      VectorStore.AddRangeValue(s, collection, items, freshIds);
      UnionRepresents(q, s, collection, items, freshIds);
      RepresentsUpdate(q, s, collection, qc, sc);
    }
  }

  /** The existing points joined with the batch's payload points match the abstract union. */
  lemma UnionRepresents<V>(q: QdrantState<V>, s: VectorStore.Store<V>, collection: string,
                           items: seq<(DocumentChunk, V)>, freshIds: seq<Guid>)
    requires Represents(q, s) && collection in s && |freshIds| == |items|
    ensures var qp := q[collection].points + PointsOf(items, freshIds);
      var sc := s[collection] + VectorStore.Batch(items, freshIds);
      && qp.Keys == sc.Keys
      && forall j :: j in sc ==> qp[j] == StoredPoint(FillPayload(sc[j].chunk), sc[j].vector)
  {
    PointsOfBatch(items, freshIds);
  }

  /** `GetById` through the payload returns the abstract chunk, normalized. */
  lemma GetByIdRefines<V>(q: QdrantState<V>, s: VectorStore.Store<V>, collection: string, id: Guid)
    requires Represents(q, s) && AllStorable(s)
    ensures var a := VectorStore.GetById(s, collection, id);
      GetById(q, collection, id) ==
        match a
        case Failure(e) => Failure(StoreFailure(e))
        case Success(None) => Success(None)
        case Success(Some(chunk)) => Success(Some(Normalize(chunk)))
  {
    if collection in s && id in s[collection] {
      DecodeFill(s[collection][id].chunk);
    }
  }

  /** Every served point's payload decodes to the abstract chunk, normalized. */
  lemma ServedDecode<V, S>(q: QdrantState<V>, s: VectorStore.Store<V>, collection: string, served: seq<(Guid, S)>)
    requires Represents(q, s) && AllStorable(s)
    requires collection in s && VectorStore.Ranks(s[collection], served)
    ensures forall i :: 0 <= i < |served| ==>
              FromPayload(Scored(q[collection], served)[i].payload) == Success(Normalize(s[collection][served[i].0].chunk))
  {
    var sc := Scored(q[collection], served);
    forall i | 0 <= i < |served|
      ensures FromPayload(sc[i].payload) == Success(Normalize(s[collection][served[i].0].chunk))
    {
      assert sc[i].payload == FillPayload(s[collection][served[i].0].chunk);
      DecodeFill(s[collection][served[i].0].chunk);
    }
  }

  /**
    A search whose server response follows the abstract ranking and stays
    within the limit returns the abstract search's results, normalized. A
    negative `topK` is cast to a limit of at least 2^64 - 2^31, so every
    served point comes back, as in the abstract search.
   */
  lemma SearchRefines<V, S>(q: QdrantState<V>, s: VectorStore.Store<V>, collection: string,
                            served: seq<(Guid, S)>, topK: int)
    requires Represents(q, s) && AllStorable(s)
    requires IsInt32(topK)
    requires collection in s ==> VectorStore.Ranks(s[collection], served)
    requires |served| <= SearchLimit(topK)
    ensures var a := VectorStore.Search(s, collection, served, topK);
      var r := SearchResults(q, collection, served);
      && (a.Failure? ==> r == Failure(StoreFailure(a.error)))
      && (a.Success? ==> r.Success? && |r.value| == |a.value|
                         && forall i :: 0 <= i < |r.value| ==>
                              r.value[i] == (Normalize(a.value[i].0), a.value[i].1))
  {
    if collection in s {
      ServedDecode(q, s, collection, served);
      SearchFromDecoded(q, s, collection, served, topK);
    }
  }

  /** The search step of `SearchRefines`, once every served payload is known to decode. */
  lemma SearchFromDecoded<V, S>(q: QdrantState<V>, s: VectorStore.Store<V>, collection: string,
                                served: seq<(Guid, S)>, topK: int)
    requires collection in q && collection in s && VectorStore.Ranks(s[collection], served)
    requires forall i :: 0 <= i < |served| ==> served[i].0 in q[collection].points
    requires topK < 0 || |served| <= topK
    requires forall i :: 0 <= i < |served| ==>
               FromPayload(Scored(q[collection], served)[i].payload) == Success(Normalize(s[collection][served[i].0].chunk))
    ensures var a := VectorStore.Search(s, collection, served, topK);
      var r := SearchResults(q, collection, served);
      a.Success? && r.Success? && |r.value| == |a.value|
      && forall i :: 0 <= i < |r.value| ==> r.value[i] == (Normalize(a.value[i].0), a.value[i].1)
  {
    var sc := Scored(q[collection], served);
    var m := MapResults(sc);
    MapResultsSuccess(sc);
    assert m.Success?;
    assert SearchResults(q, collection, served) == Success(m.value);
    var a := VectorStore.Search(s, collection, served, topK);
    forall i | 0 <= i < |served|
      ensures m.value[i] == (Normalize(a.value[i].0), a.value[i].1)
    {
      assert m.value[i] == (FromPayload(sc[i].payload).value, sc[i].score);
      assert a.value[i] == (s[collection][served[i].0].chunk, served[i].1);
    }
  }
}
