/**
  `IVectorStore` as an abstract state: named collections, each mapping point
  identifiers to a chunk and its embedding vector. The operations carry what
  the interface's doc comments promise; the vector type `V` and the score
  type `S` are left abstract, and the similarity ranking a search follows is
  supplied by the caller.

  Operations on a collection that does not exist, and creating one that
  does, fail with a `StoreError`.
 */
module VectorStore {
  import opened Base
  import opened Guids
  import opened Models

  /** A stored point: the chunk and its embedding. */
  datatype Point<V> = Point(chunk: DocumentChunk, vector: V)

  type Collection<V> = map<Guid, Point<V>>

  /** The whole store: collection name to its points. */
  type Store<V> = map<string, Collection<V>>

  datatype StoreError = CollectionExists(name: string) | CollectionNotFound(name: string)

  /** `ListCollectionsAsync`: the names of the existing collections. */
  function ListCollections<V>(s: Store<V>): (names: set<string>)
    ensures forall n :: n in names <==> n in s
  {
    s.Keys
  }

  /** `CreateCollectionAsync`: a new, empty collection; the others are untouched. */
  function CreateCollection<V>(s: Store<V>, name: string): (r: Result<Store<V>, StoreError>)
    ensures name in s <==> r == Failure(CollectionExists(name))
    ensures r.Success? ==> ListCollections(r.value) == ListCollections(s) + {name}
    ensures r.Success? ==> |r.value[name]| == 0
    ensures r.Success? ==> forall n :: n in s ==> r.value[n] == s[n]
  {
    if name in s then Failure(CollectionExists(name))
    else
      var c: Collection<V> := map[];
      Success(s[name := c])
  }

  /** `DeleteCollectionAsync`: the collection and all its points are gone; the others are untouched. */
  function DeleteCollection<V>(s: Store<V>, name: string): (r: Result<Store<V>, StoreError>)
    ensures name !in s <==> r == Failure(CollectionNotFound(name))
    ensures r.Success? ==> ListCollections(r.value) == ListCollections(s) - {name}
    ensures r.Success? ==> forall n :: n in r.value ==> r.value[n] == s[n]
  {
    if name !in s then Failure(CollectionNotFound(name)) else Success(s - {name})
  }

  /**
    `UpsertAsync`: inserts the point when `id` is absent and replaces its
    chunk and vector when present; no other point and no other collection
    changes.
   */
  function Upsert<V>(s: Store<V>, collection: string, id: Guid, chunk: DocumentChunk, vector: V)
    : (r: Result<Store<V>, StoreError>)
    ensures collection !in s <==> r == Failure(CollectionNotFound(collection))
    ensures r.Success? ==> r.value.Keys == s.Keys
    ensures r.Success? ==> forall n :: n in s && n != collection ==> r.value[n] == s[n]
    ensures r.Success? ==> r.value[collection].Keys == s[collection].Keys + {id}
    ensures r.Success? ==> r.value[collection][id] == Point(chunk, vector)
    ensures r.Success? ==> forall j :: j in s[collection] && j != id ==> r.value[collection][j] == s[collection][j]
  {
    if collection !in s then Failure(CollectionNotFound(collection))
    else
      var c: Collection<V> := s[collection][id := Point(chunk, vector)];
      Success(s[collection := c])
  }

  /** `AddAsync`: an upsert under a freshly generated identifier. */
  function Add<V>(s: Store<V>, collection: string, chunk: DocumentChunk, vector: V, freshId: Guid)
    : (r: Result<Store<V>, StoreError>)
    ensures r == Upsert(s, collection, freshId, chunk, vector)
    ensures r.Success? && freshId !in s[collection] ==> |r.value[collection]| == |s[collection]| + 1
  {
    Upsert(s, collection, freshId, chunk, vector)
  }

  /** Identifiers generated one per item are pairwise distinct. */
  predicate Distinct(ids: seq<Guid>) {
    forall i, j :: 0 <= i < j < |ids| ==> ids[i] != ids[j]
  }

  /** The points of one batch, keyed by their fresh identifiers. */
  function Batch<V>(items: seq<(DocumentChunk, V)>, freshIds: seq<Guid>): Collection<V>
    requires |freshIds| == |items|
  {
    if |items| == 0 then map[]
    else
      var n := |items| - 1;
      Batch(items[..n], freshIds[..n])[freshIds[n] := Point(items[n].0, items[n].1)]
  }

  /** A batch holds exactly the fresh identifiers. */
  lemma {:induction false} BatchKeys<V>(items: seq<(DocumentChunk, V)>, freshIds: seq<Guid>)
    requires |freshIds| == |items|
    ensures forall k :: k in Batch(items, freshIds) <==> k in freshIds
    decreases |items|
  {
    if |items| > 0 {
      var n := |items| - 1;
      BatchKeys(items[..n], freshIds[..n]);
      assert freshIds == freshIds[..n] + [freshIds[n]];
    }
  }

  /** With distinct identifiers every item of the batch is stored under its own. */
  lemma {:induction false} BatchAt<V>(items: seq<(DocumentChunk, V)>, freshIds: seq<Guid>, i: nat)
    requires |freshIds| == |items| && Distinct(freshIds) && i < |items|
    ensures freshIds[i] in Batch(items, freshIds)
    ensures Batch(items, freshIds)[freshIds[i]] == Point(items[i].0, items[i].1)
    decreases |items|
  {
    var n := |items| - 1;
    if i < n {
      assert Distinct(freshIds[..n]);
      BatchAt(items[..n], freshIds[..n], i);
      assert freshIds[..n][i] == freshIds[i] && items[..n][i] == items[i];
      assert freshIds[i] != freshIds[n];
    }
  }

  /** `AddRangeAsync`: every item upserted in one batch, each under its own fresh identifier. */
  function AddRange<V>(s: Store<V>, collection: string, items: seq<(DocumentChunk, V)>, freshIds: seq<Guid>)
    : (r: Result<Store<V>, StoreError>)
    requires |freshIds| == |items|
    ensures collection !in s <==> r == Failure(CollectionNotFound(collection))
    ensures r.Success? ==> r.value.Keys == s.Keys
    ensures r.Success? ==> forall n :: n in s && n != collection ==> r.value[n] == s[n]
    ensures r.Success? ==> forall k :: k in r.value[collection] <==> k in s[collection] || k in freshIds
    ensures r.Success? ==> forall k :: k in s[collection] && k !in freshIds ==> r.value[collection][k] == s[collection][k]
  {
    if collection !in s then Failure(CollectionNotFound(collection))
    else
      var c: Collection<V> := s[collection] + Batch(items, freshIds);
      BatchKeys(items, freshIds);
      Success(s[collection := c])
  }

  /** Adding the items one by one, each under its own identifier. */
  function AddEach<V>(s: Store<V>, collection: string, items: seq<(DocumentChunk, V)>, freshIds: seq<Guid>)
    : Result<Store<V>, StoreError>
    requires |freshIds| == |items|
  {
    if |items| == 0 then
      if collection in s then Success(s) else Failure(CollectionNotFound(collection))
    else
      var n := |items| - 1;
      match AddEach(s, collection, items[..n], freshIds[..n])
      case Failure(e) => Failure(e)
      case Success(s') => Add(s', collection, items[n].0, items[n].1, freshIds[n])
  }

  /** `AddRange` has the same effect as adding each item individually. */
  lemma {:induction false} AddRangeIsAdds<V>(s: Store<V>, collection: string, items: seq<(DocumentChunk, V)>, freshIds: seq<Guid>)
    requires |freshIds| == |items|
    ensures AddRange(s, collection, items, freshIds) == AddEach(s, collection, items, freshIds)
    decreases |items|
  {
    if collection !in s {
      AddEachMissing(s, collection, items, freshIds);
    } else if |items| == 0 {
      AddRangeNone(s, collection);
    } else {
      var n := |items| - 1;
      AddRangeIsAdds(s, collection, items[..n], freshIds[..n]);
      AddRangeStep(s, collection, items, freshIds);
    }
  }

  /** An empty batch changes nothing. */
  lemma AddRangeNone<V>(s: Store<V>, collection: string)
    requires collection in s
    ensures AddRange(s, collection, [], []) == Success(s)
  {
    var c: Collection<V> := s[collection] + Batch([], []);
    assert c == s[collection];
    assert s[collection := c] == s;
  }

  /** One more item in the batch is one more `Add` after the shorter batch. */
  lemma AddRangeStep<V>(s: Store<V>, collection: string, items: seq<(DocumentChunk, V)>, freshIds: seq<Guid>)
    requires |freshIds| == |items| > 0 && collection in s
    requires AddRange(s, collection, items[..|items| - 1], freshIds[..|items| - 1])
          == AddEach(s, collection, items[..|items| - 1], freshIds[..|items| - 1])
    ensures AddRange(s, collection, items, freshIds) == AddEach(s, collection, items, freshIds)
  {
    var n := |items| - 1;
    var p := Point(items[n].0, items[n].1);
    var b := Batch(items[..n], freshIds[..n]);
    var before: Collection<V> := s[collection] + b;
    var s': Store<V> := s[collection := before];
    AddRangeValue(s, collection, items[..n], freshIds[..n]);
    AddEachLast(s, collection, items, freshIds, s');
    UpsertValue(s', collection, freshIds[n], p.chunk, p.vector);
    UpdateTwice(s, collection, before, Put(before, freshIds[n], p));
    BatchLast(items, freshIds);
    UnionUpdate(s[collection], b, freshIds[n], p);
    AddRangeValue(s, collection, items, freshIds);
  }

  lemma AddRangeValue<V>(s: Store<V>, collection: string, items: seq<(DocumentChunk, V)>, freshIds: seq<Guid>)
    requires |freshIds| == |items| && collection in s
    ensures AddRange(s, collection, items, freshIds) == Success(s[collection := s[collection] + Batch(items, freshIds)])
  {
  }

  lemma UpsertValue<V>(s: Store<V>, collection: string, id: Guid, chunk: DocumentChunk, vector: V)
    requires collection in s
    ensures Add(s, collection, chunk, vector, id) == Success(s[collection := Put(s[collection], id, Point(chunk, vector))])
  {
  }

  function Put<V>(c: Collection<V>, id: Guid, p: Point<V>): Collection<V> {
    c[id := p]
  }

  /** Adding one more item is one `Add` on the store the shorter list left. */
  lemma AddEachLast<V>(s: Store<V>, collection: string, items: seq<(DocumentChunk, V)>, freshIds: seq<Guid>, s': Store<V>)
    requires |freshIds| == |items| > 0
    requires AddEach(s, collection, items[..|items| - 1], freshIds[..|items| - 1]) == Success(s')
    ensures AddEach(s, collection, items, freshIds)
         == Add(s', collection, items[|items| - 1].0, items[|items| - 1].1, freshIds[|items| - 1])
  {
  }

  /** A batch is the shorter batch with the last item written on top. */
  lemma BatchLast<V>(items: seq<(DocumentChunk, V)>, freshIds: seq<Guid>)
    requires |freshIds| == |items| > 0
    ensures var n := |items| - 1;
      Batch(items, freshIds) == Batch(items[..n], freshIds[..n])[freshIds[n] := Point(items[n].0, items[n].1)]
  {
  }

  lemma UpdateTwice<K, W>(m: map<K, W>, k: K, v: W, w: W)
    ensures m[k := v][k := w] == m[k := w]
  {
  }

  /** Adding to a collection that does not exist fails, however many items there are. */
  lemma {:induction false} AddEachMissing<V>(s: Store<V>, collection: string, items: seq<(DocumentChunk, V)>, freshIds: seq<Guid>)
    requires |freshIds| == |items| && collection !in s
    ensures AddEach(s, collection, items, freshIds) == Failure(CollectionNotFound(collection))
    ensures AddRange(s, collection, items, freshIds) == AddEach(s, collection, items, freshIds)
    decreases |items|
  {
    if |items| > 0 {
      var n := |items| - 1;
      AddEachMissing(s, collection, items[..n], freshIds[..n]);
    }
  }

  /** Upserting on top of a union is upserting into its right operand. */
  lemma UnionUpdate<V>(c: Collection<V>, b: Collection<V>, id: Guid, p: Point<V>)
    ensures c + b[id := p] == (c + b)[id := p]
  {
  }

  /** `DeleteAsync`: only that point is removed from the collection. */
  function Delete<V>(s: Store<V>, collection: string, id: Guid): (r: Result<Store<V>, StoreError>)
    ensures collection !in s <==> r == Failure(CollectionNotFound(collection))
    ensures r.Success? ==> r.value.Keys == s.Keys
    ensures r.Success? ==> forall n :: n in s && n != collection ==> r.value[n] == s[n]
    ensures r.Success? ==> id !in r.value[collection]
    ensures r.Success? ==> forall j :: j != id ==>
              (j in r.value[collection] <==> j in s[collection])
              && (j in s[collection] ==> r.value[collection][j] == s[collection][j])
  {
    if collection !in s then Failure(CollectionNotFound(collection))
    else
      var c: Collection<V> := s[collection] - {id};
      Success(s[collection := c])
  }

  /** `GetById`: the stored chunk, or null when the identifier is not present. */
  function GetById<V>(s: Store<V>, collection: string, id: Guid): (r: Result<Option<DocumentChunk>, StoreError>)
    ensures collection !in s <==> r == Failure(CollectionNotFound(collection))
    ensures collection in s && id in s[collection] <==> r.Success? && r.value.Some?
    ensures r.Success? && r.value.Some? ==> r.value.value == s[collection][id].chunk
  {
    if collection !in s then Failure(CollectionNotFound(collection))
    else if id in s[collection] then Success(Some(s[collection][id].chunk))
    else Success(None)
  }

  /** The ranking only names points of the collection. */
  predicate Ranks<V, S>(c: Collection<V>, ranking: seq<(Guid, S)>) {
    forall i :: 0 <= i < |ranking| ==> ranking[i].0 in c
  }

  /**
    `SearchAsync`, given the store's ranking of the collection's points by
    similarity to the query (filters applied): at most `topK` results, the
    best ones first, each a stored chunk with its score. A negative `topK`
    bounds nothing, so the whole ranking comes back.
   */
  function Search<V, S>(s: Store<V>, collection: string, ranking: seq<(Guid, S)>, topK: int)
    : (r: Result<seq<(DocumentChunk, S)>, StoreError>)
    requires collection in s ==> Ranks(s[collection], ranking)
    ensures collection !in s <==> r == Failure(CollectionNotFound(collection))
    ensures r.Success? ==> |r.value| <= |ranking|
    ensures r.Success? && topK >= 0 ==> |r.value| <= topK
    ensures r.Success? ==> |r.value| == |ranking| || |r.value| == topK
    ensures r.Success? && topK < 0 ==> |r.value| == |ranking|
    ensures r.Success? ==> forall i :: 0 <= i < |r.value| ==>
              r.value[i] == (s[collection][ranking[i].0].chunk, ranking[i].1)
  {
    if collection !in s then Failure(CollectionNotFound(collection))
    else
      var n := if topK < 0 || |ranking| <= topK then |ranking| else topK;
      Success(seq(n, i requires 0 <= i < n => (s[collection][ranking[i].0].chunk, ranking[i].1)))
  }

  /** What was upserted is what `GetById` returns; every other identifier reads as before. */
  lemma GetAfterUpsert<V>(s: Store<V>, collection: string, id: Guid, chunk: DocumentChunk, vector: V, other: Guid)
    requires collection in s && other != id
    ensures var s' := Upsert(s, collection, id, chunk, vector).value;
      && GetById(s', collection, id) == Success(Some(chunk))
      && GetById(s', collection, other) == GetById(s, collection, other)
  {
  }

  /** A deleted point reads as null; every other identifier reads as before. */
  lemma GetAfterDelete<V>(s: Store<V>, collection: string, id: Guid, other: Guid)
    requires collection in s && other != id
    ensures var s' := Delete(s, collection, id).value;
      && GetById(s', collection, id) == Success(None)
      && GetById(s', collection, other) == GetById(s, collection, other)
  {
  }

  /** Every item of a batch can be read back under its identifier. */
  lemma GetAfterAddRange<V>(s: Store<V>, collection: string, items: seq<(DocumentChunk, V)>, freshIds: seq<Guid>, i: nat)
    requires |freshIds| == |items| && Distinct(freshIds)
    requires collection in s && i < |items|
    ensures GetById(AddRange(s, collection, items, freshIds).value, collection, freshIds[i]) == Success(Some(items[i].0))
  {
    BatchAt(items, freshIds, i);
  }
}
