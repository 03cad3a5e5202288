/**
  `RagEngineBuilder`: three optional slots (chunker, embedder, vector store),
  setters that fill one slot each, and `Build`, which refuses to build until
  all three are set and checks them in a fixed order.

  The source's builder mutates itself and returns `this`; here each setter
  returns the updated builder. A caller-supplied implementation is an opaque
  handle.
 */
module RagEngineBuilder {
  import opened Base
  import opened Models

  datatype Embedder =
    | CustomEmbedder(handle: nat)
    | GeminiEmbedder(apiKey: string)

  datatype VectorStoreImpl =
    | CustomVectorStore(handle: nat)
    | QdrantVectorStore(endpoint: string)

  datatype Chunker =
    | CustomChunker(handle: nat)
    | FixedSizeChunker(options: ChunkerOptions)

  datatype Builder = Builder(chunker: Option<Chunker>, embedder: Option<Embedder>, vectorStore: Option<VectorStoreImpl>)

  /** The engine `Build` wires: exactly the configured components. */
  datatype Engine = Engine(chunker: Chunker, embedder: Embedder, vectorStore: VectorStoreImpl)

  /** `RagEngineBuilder.Create()`: nothing configured. */
  function Create(): (b: Builder)
    ensures b.chunker.None? && b.embedder.None? && b.vectorStore.None?
  {
    Builder(None, None, None)
  }

  function UseEmbedder(b: Builder, embedder: Embedder): (r: Builder)
    ensures r.embedder == Some(embedder)
    ensures r.chunker == b.chunker && r.vectorStore == b.vectorStore
  {
    b.(embedder := Some(embedder))
  }

  function UseGeminiEmbedder(b: Builder, apiKey: string): (r: Builder)
    ensures r.embedder == Some(GeminiEmbedder(apiKey))
    ensures r.chunker == b.chunker && r.vectorStore == b.vectorStore
  {
    b.(embedder := Some(GeminiEmbedder(apiKey)))
  }

  function UseVectorStore(b: Builder, store: VectorStoreImpl): (r: Builder)
    ensures r.vectorStore == Some(store)
    ensures r.chunker == b.chunker && r.embedder == b.embedder
  {
    b.(vectorStore := Some(store))
  }

  function UseQdrantStore(b: Builder, endpoint: string): (r: Builder)
    ensures r.vectorStore == Some(QdrantVectorStore(endpoint))
    ensures r.chunker == b.chunker && r.embedder == b.embedder
  {
    b.(vectorStore := Some(QdrantVectorStore(endpoint)))
  }

  function UseChunker(b: Builder, chunker: Chunker): (r: Builder)
    ensures r.chunker == Some(chunker)
    ensures r.embedder == b.embedder && r.vectorStore == b.vectorStore
  {
    b.(chunker := Some(chunker))
  }

  /** `UseFixedSizeChunker`: `new ChunkerOptions { ChunkSize = chunkSize }`, the other options at their defaults. */
  function UseFixedSizeChunker(b: Builder, chunkSize: int): (r: Builder)
    ensures r.chunker.Some? && r.chunker.value.FixedSizeChunker?
    ensures r.chunker.value.options.chunkSize == chunkSize
    ensures r.chunker.value.options.chunkOverlap == 100 && r.chunker.value.options.minChunkSize == 200
    ensures r.embedder == b.embedder && r.vectorStore == b.vectorStore
  {
    b.(chunker := Some(FixedSizeChunker(DefaultOptions.(chunkSize := chunkSize))))
  }

  const ChunkerMissing := "Chunker is not configured."
  const EmbedderMissing := "Embedder is not configured."
  const VectorStoreMissing := "Vector store is not configured."

  /**
    `Build`: the first unset slot, in the order chunker, embedder, vector
    store, throws `InvalidOperationException` with its message; with all
    three set, the engine holds exactly the configured components.
   */
  function Build(b: Builder): (r: Result<Engine, string>)
    ensures b.chunker.None? <==> r == Failure(ChunkerMissing)
    ensures b.chunker.Some? && b.embedder.None? <==> r == Failure(EmbedderMissing)
    ensures b.chunker.Some? && b.embedder.Some? && b.vectorStore.None? <==> r == Failure(VectorStoreMissing)
    ensures r.Success? <==> b.chunker.Some? && b.embedder.Some? && b.vectorStore.Some?
    ensures r.Success? ==> r.value == Engine(b.chunker.value, b.embedder.value, b.vectorStore.value)
  {
    if b.chunker.None? then Failure(ChunkerMissing)
    else if b.embedder.None? then Failure(EmbedderMissing)
    else if b.vectorStore.None? then Failure(VectorStoreMissing)
    else Success(Engine(b.chunker.value, b.embedder.value, b.vectorStore.value))
  }

  // ----------- Call sequences -----------

  /** One setter call. */
  datatype Call =
    | CallUseEmbedder(embedder: Embedder)
    | CallUseGeminiEmbedder(apiKey: string)
    | CallUseVectorStore(store: VectorStoreImpl)
    | CallUseQdrantStore(endpoint: string)
    | CallUseChunker(chunker: Chunker)
    | CallUseFixedSizeChunker(chunkSize: int)

  function Apply(b: Builder, call: Call): Builder {
    match call
    case CallUseEmbedder(e) => UseEmbedder(b, e)
    case CallUseGeminiEmbedder(k) => UseGeminiEmbedder(b, k)
    case CallUseVectorStore(s) => UseVectorStore(b, s)
    case CallUseQdrantStore(e) => UseQdrantStore(b, e)
    case CallUseChunker(c) => UseChunker(b, c)
    case CallUseFixedSizeChunker(n) => UseFixedSizeChunker(b, n)
  }

  /** A fluent chain of setter calls, left to right. */
  function ApplyAll(b: Builder, calls: seq<Call>): Builder
    decreases |calls|
  {
    if |calls| == 0 then b else ApplyAll(Apply(b, calls[0]), calls[1..])
  }

  /** The embedder a call installs, if it is an embedder setter. */
  function EmbedderOf(call: Call): Option<Embedder> {
    match call
    case CallUseEmbedder(e) => Some(e)
    case CallUseGeminiEmbedder(k) => Some(GeminiEmbedder(k))
    case _ => None
  }

  function StoreOf(call: Call): Option<VectorStoreImpl> {
    match call
    case CallUseVectorStore(s) => Some(s)
    case CallUseQdrantStore(e) => Some(QdrantVectorStore(e))
    case _ => None
  }

  function ChunkerOf(call: Call): Option<Chunker> {
    match call
    case CallUseChunker(c) => Some(c)
    case CallUseFixedSizeChunker(n) => Some(FixedSizeChunker(DefaultOptions.(chunkSize := n)))
    case _ => None
  }

  /** The value the last call with a value installs, or `current` when no call has one. */
  function Last<T>(values: seq<Option<T>>, current: Option<T>): Option<T>
    decreases |values|
  {
    if |values| == 0 then current
    else if values[|values| - 1].Some? then values[|values| - 1]
    else Last(values[..|values| - 1], current)
  }

  function Embedders(calls: seq<Call>): (r: seq<Option<Embedder>>)
    ensures |r| == |calls| && forall i :: 0 <= i < |calls| ==> r[i] == EmbedderOf(calls[i])
  {
    if |calls| == 0 then [] else [EmbedderOf(calls[0])] + Embedders(calls[1..])
  }

  function Stores(calls: seq<Call>): (r: seq<Option<VectorStoreImpl>>)
    ensures |r| == |calls| && forall i :: 0 <= i < |calls| ==> r[i] == StoreOf(calls[i])
  {
    if |calls| == 0 then [] else [StoreOf(calls[0])] + Stores(calls[1..])
  }

  function Chunkers(calls: seq<Call>): (r: seq<Option<Chunker>>)
    ensures |r| == |calls| && forall i :: 0 <= i < |calls| ==> r[i] == ChunkerOf(calls[i])
  {
    if |calls| == 0 then [] else [ChunkerOf(calls[0])] + Chunkers(calls[1..])
  }

  /** Taking the last value after a first one: the first only matters if nothing later has a value. */
  lemma {:induction false} LastCons<T>(x: Option<T>, rest: seq<Option<T>>, current: Option<T>)
    ensures Last([x] + rest, current) == Last(rest, Last([x], current))
    decreases |rest|
  {
    var xs := [x] + rest;
    if |rest| > 0 {
      assert xs[..|xs| - 1] == [x] + rest[..|rest| - 1];
      LastCons(x, rest[..|rest| - 1], current);
    } else {
      assert xs == [x];
    }
  }

  /** One call changes exactly the slot it names. */
  lemma ApplySlots(b: Builder, call: Call)
    ensures Apply(b, call).embedder == Last([EmbedderOf(call)], b.embedder)
    ensures Apply(b, call).vectorStore == Last([StoreOf(call)], b.vectorStore)
    ensures Apply(b, call).chunker == Last([ChunkerOf(call)], b.chunker)
  {
  }

  /**
    Last write wins: after a chain of setter calls each slot holds what the
    last call naming it installed, or what it held before when no call names it.
   */
  lemma {:induction false} LastWriteWins(b: Builder, calls: seq<Call>)
    ensures ApplyAll(b, calls).embedder == Last(Embedders(calls), b.embedder)
    ensures ApplyAll(b, calls).vectorStore == Last(Stores(calls), b.vectorStore)
    ensures ApplyAll(b, calls).chunker == Last(Chunkers(calls), b.chunker)
    decreases |calls|
  {
    if |calls| > 0 {
      var b' := Apply(b, calls[0]);
      LastWriteWins(b', calls[1..]);
      ApplySlots(b, calls[0]);
      LastCons(EmbedderOf(calls[0]), Embedders(calls[1..]), b.embedder);
      LastCons(StoreOf(calls[0]), Stores(calls[1..]), b.vectorStore);
      LastCons(ChunkerOf(calls[0]), Chunkers(calls[1..]), b.chunker);
    }
  }

  /** Some value is installed exactly when some call carries one, or the slot was already set. */
  lemma {:induction false} LastSome<T>(values: seq<Option<T>>, current: Option<T>)
    ensures Last(values, current).Some? <==> current.Some? || exists i :: 0 <= i < |values| && values[i].Some?
    decreases |values|
  {
    if |values| > 0 {
      var n := |values| - 1;
      LastSome(values[..n], current);
      if values[n].None? {
        assert forall i :: 0 <= i < n ==> values[..n][i] == values[i];
      }
    }
  }

  /** A chain from `Create()` builds exactly when it names all three slots. */
  lemma BuildAfterCalls(calls: seq<Call>)
    ensures Build(ApplyAll(Create(), calls)).Success? <==>
              && (exists i :: 0 <= i < |calls| && ChunkerOf(calls[i]).Some?)
              && (exists i :: 0 <= i < |calls| && EmbedderOf(calls[i]).Some?)
              && (exists i :: 0 <= i < |calls| && StoreOf(calls[i]).Some?)
  {
    LastWriteWins(Create(), calls);
    LastSome(Chunkers(calls), None);
    LastSome(Embedders(calls), None);
    LastSome(Stores(calls), None);
    assert (exists i :: 0 <= i < |calls| && Chunkers(calls)[i].Some?) <==> (exists i :: 0 <= i < |calls| && ChunkerOf(calls[i]).Some?);
    assert (exists i :: 0 <= i < |calls| && Embedders(calls)[i].Some?) <==> (exists i :: 0 <= i < |calls| && EmbedderOf(calls[i]).Some?);
    assert (exists i :: 0 <= i < |calls| && Stores(calls)[i].Some?) <==> (exists i :: 0 <= i < |calls| && StoreOf(calls[i]).Some?);
  }

  /** The example of the last-write rule: a custom embedder replaced by a Gemini one. */
  lemma GeminiReplacesCustom(b: Builder, handle: nat, apiKey: string)
    ensures UseGeminiEmbedder(UseEmbedder(b, CustomEmbedder(handle)), apiKey).embedder == Some(GeminiEmbedder(apiKey))
  {
  }
}
