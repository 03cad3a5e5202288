# RagLib core in Dafny

A Dafny model of the deterministic core of RagLib, a C# library for
retrieval-augmented generation. It covers:

- **Sentence-aware chunker.** It splits a document into sentences with the
  regular expression `(?<=[\.!?])\s+(?=[A-Z])` and drops blank pieces. It
  gathers sentences into a buffer until their lengths reach `ChunkSize`, or
  until the last sentence. It emits each closed buffer, joined by single
  spaces, when it is at least `MinChunkSize` long, with dense indices 0, 1,
  2, …. It seeds the next buffer with a trailing overlap of the closed one
  (`SentenceSplit`, `SentenceAwareChunker`).
- **Fixed-size chunker.** It cuts the text into windows of
  `min(ChunkSize, remaining)` characters and never assigns an index
  (`FixedSizeChunker`).
- **Qdrant payload codec.** `FillPayload` and `FromPayload` translate
  between a chunk and a Qdrant payload (a map from string keys to integer or
  string values). Custom tags overwrite the four reserved keys. The module
  also holds the metadata filter and the `(ulong)topK` limit `SearchAsync`
  sends, and the mapping of search results back to chunks (`QdrantPayload`).
- **Abstract vector store.** The `IVectorStore` contract as a state: named
  collections, each a map from point identifier to chunk and vector
  (`VectorStore`).
- **Qdrant store state.** `QdrantVectorStore` as a state of stored payloads.
  A refinement relation ties it to the abstract store, and every operation
  keeps the relation (`QdrantStore`).
- **`RagEngineBuilder`.** Three optional slots, one setter per slot, and a
  `Build` that checks the slots in a fixed order (`RagEngineBuilder`).

Shared pieces:

- `Base`: `Option`/`Result`, the .NET white-space set (`Char.IsWhiteSpace`,
  which is also regex `\s` and what `TrimEnd()` trims), `string.Join(" ", …)`
  and `TrimEnd`.
- `Guids`: the GUID as 32 hexadecimal digits, with its "D" text format and
  its parser.
- `Models`: `ChunkerOptions` (defaults 500/100/200), `DocumentMetadata` and
  `DocumentChunk`.

A call that throws in C# on a value the model can represent returns a
`Failure` here. The only nulls the model represents are the ones it writes
as `Option`: the text and metadata arguments of the chunkers, the
metadata's id, file name, path, page number and tag dictionary, the search
filter dictionary, and the builder's three slots. "## Left out" lists the
null paths this leaves out. Freshly generated identifiers
(`Guid.NewGuid()`) are parameters. The Qdrant server's answers are
parameters too: the order of search results and the points it returns.

Points where the model follows one reading of the code:

- **Fixed-size indices.** `src/RagLib/Chunking/FixedSizeChunker.cs:16-43`
  never sets `Index`, so every chunk it returns has index 0
  (`FixedSizeChunker.Chunk`). The sentence-aware chunker numbers its chunks
  0, 1, 2, ….
- **`DocumentChunk`.** `src/RagLib/Core/Models/DocumentChunk.cs` declares `Id`
  and a dictionary `Metadata`, which neither chunker nor the codec uses. The
  chunk here is `Index`, `Content` and a `DocumentMetadata`, the shape the
  chunkers build and the codec reads.
- **`IDocumentChunker`.** The interface declares `Chunk(string)`. The model
  follows the implementations' two-argument `Chunk(text, metadata)`.
- **Missing and existing collections.** Creating an existing collection
  fails with `CollectionExists`, and every operation on a missing collection
  fails with `CollectionNotFound`, as the Qdrant client does for the calls
  `QdrantVectorStore` makes.

## Model

| member | source | states |
|---|---|---|
| Base.TrimEnd | src/RagLib/Chunking/SentenceAwareChunker.cs:98 | the result is a prefix of the text, everything cut off is white space, and the result does not end in white space |
| Base.SpacedIsJoin | src/RagLib/Chunking/SentenceAwareChunker.cs:86-98 | prepending `item + " "` for every item builds the single-space join of the items followed by one space |
| Base.TrimEndSpace | src/RagLib/Chunking/SentenceAwareChunker.cs:98 | the trailing space the prepend loop leaves is removed by `TrimEnd` |
| Base.JoinLength | src/RagLib/Chunking/SentenceAwareChunker.cs:48 | a joined buffer is as long as its items plus one space between each pair, so it is never shorter than the running length |
| Guids.Format | src/RagLib/VectorStores/QdrantVectorStore.cs:143 | `Guid.ToString()` is 36 characters with dashes at positions 8, 13, 18 and 23 |
| Guids.Parse | src/RagLib/VectorStores/QdrantVectorStore.cs:165 | `Guid.Parse` accepts only 36-character text; which texts it accepts and what they parse to is stated by `ParseFormat` and `FormatParse` |
| Guids.ParseFormat | src/RagLib/VectorStores/QdrantVectorStore.cs:165 | `Guid.Parse` of a GUID's text gives back that GUID |
| Guids.FormatParse | src/RagLib/VectorStores/QdrantVectorStore.cs:165 | a "D"-format text without upper-case digits that parses is exactly the text of the GUID it parses to |
| Guids.ParseEmptyFails | src/RagLib/VectorStores/QdrantVectorStore.cs:165 | the empty text (what a missing `document_id` is read as) does not parse |
| Models.ToInt32 | src/RagLib/VectorStores/QdrantVectorStore.cs:161 | the unchecked `(int)` cast lands in the 32-bit range, agrees with its argument modulo 2^32, and is the identity on that range |
| SentenceSplit.RunEnd | src/RagLib/Chunking/SentenceAwareChunker.cs:101 | `\s+` matches the maximal white-space run: every character up to the end is white space and the next one is not |
| SentenceSplit.Scan | src/RagLib/Chunking/SentenceAwareChunker.cs:101 | the regex engine's scan returns at least one piece, from the current start to the end of the text, all within the text |
| SentenceSplit.ScanCuts | src/RagLib/Chunking/SentenceAwareChunker.cs:74-75 | the scan cuts only at a match (`IsBoundary`: a `.`, `!` or `?`, then a white-space run followed by `A`–`Z`), and the piece after a cut starts where the match ends |
| SentenceSplit.ScanPieces | src/RagLib/Chunking/SentenceAwareChunker.cs:74-75 | no match starts inside any piece the scan returns |
| SentenceSplit.SplitSpans | src/RagLib/Chunking/SentenceAwareChunker.cs:74-75 | `Regex.Split` cuts the text at exactly the matches: the pieces cover the text, consecutive pieces are separated by one match, and no match starts inside a piece |
| SentenceSplit.SplitUnique | src/RagLib/Chunking/SentenceAwareChunker.cs:74-75 | only one sequence of pieces cuts the text that way, so the split is determined by the text |
| SentenceSplit.DropBlank | src/RagLib/Chunking/SentenceAwareChunker.cs:75 | `Where(!IsNullOrWhiteSpace)` keeps exactly the non-blank pieces, and keeps everything when nothing is blank |
| SentenceSplit.DropBlankKeeps | src/RagLib/Chunking/SentenceAwareChunker.cs:74-75 | the filter keeps the pieces in their order, and each non-blank piece as many times as it occurs and no blank one |
| SentenceSplit.SplitIntoSentences | src/RagLib/Chunking/SentenceAwareChunker.cs:72-76 | no sentence is white space only |
| SentenceSplit.SentenceShape | src/RagLib/Chunking/SentenceAwareChunker.cs:72-76 | on non-blank text nothing is dropped, there is at least one sentence, every sentence but the last ends in `.`, `!` or `?`, and every sentence but the first starts with `A`–`Z` |
| SentenceSplit.PiecesNotBlank | src/RagLib/Chunking/SentenceAwareChunker.cs:75 | no piece of a non-blank text is blank: it ends in a terminator, starts with a capital, or is the whole text |
| SentenceAwareChunker.OverlapStart | src/RagLib/Chunking/SentenceAwareChunker.cs:86-96 | the overlap starts at the shortest suffix whose lengths reach the target, or at the first item when none does, and never after the last item |
| SentenceAwareChunker.GetOverlapText | src/RagLib/Chunking/SentenceAwareChunker.cs:81-99 | the backward prepend loop with its `break` computes the shortest-suffix overlap, joined by single spaces and trimmed |
| SentenceAwareChunker.OverlapEndsWithLast | src/RagLib/Chunking/SentenceAwareChunker.cs:81-98 | the overlap always ends with the buffer's last item, trailing white space trimmed |
| SentenceAwareChunker.RunCovers | src/RagLib/Chunking/SentenceAwareChunker.cs:37-64 | after each iteration of the loop body (`Step`: append the sentence, add its length, close on the threshold or the last sentence) the buffers hold every sentence so far exactly once and in order, and the running length is the sum of the open buffer's lengths |
| SentenceAwareChunker.RunLinked | src/RagLib/Chunking/SentenceAwareChunker.cs:59-62 | every buffer after the first starts with the overlap of the buffer closed before it |
| SentenceAwareChunker.RunThresholds | src/RagLib/Chunking/SentenceAwareChunker.cs:41-46 | a buffer closes exactly when its running length first reaches `ChunkSize`, or at the last sentence |
| SentenceAwareChunker.ClosedBuffersShape | src/RagLib/Chunking/SentenceAwareChunker.cs:37-64 | the closed buffers of a non-empty sentence list take every sentence once and in order, the last closes at the last sentence, each later one starts with the previous overlap, and each closes exactly at the threshold |
| SentenceAwareChunker.KeptTexts | src/RagLib/Chunking/SentenceAwareChunker.cs:48-49 | at most one kept text per closed buffer, each at least `MinChunkSize` long |
| SentenceAwareChunker.KeptTextsKeeps | src/RagLib/Chunking/SentenceAwareChunker.cs:46-56 | the kept texts are the closed buffers' joins in order, with every join that reaches `MinChunkSize` kept as often as it occurs and every shorter one dropped |
| SentenceAwareChunker.Number | src/RagLib/Chunking/SentenceAwareChunker.cs:51-56 | chunk `k` has index `k`, the `k`-th kept text and the shared metadata |
| SentenceAwareChunker.Chunk | src/RagLib/Chunking/SentenceAwareChunker.cs:20-67 | null or white-space text gives no chunk; indices are 0, 1, 2, … without gaps; every content is at least `MinChunkSize` long; all chunks carry the supplied metadata, or one fresh record with the generated `DocumentId` |
| SentenceAwareChunker.ChunkText | src/RagLib/Chunking/SentenceAwareChunker.cs:20-67 | the source's single loop, which buffers, emits and re-seeds in one pass, computes the same chunks as the buffer fold followed by the filter and numbering |
| SentenceAwareChunker.Emit | src/RagLib/Chunking/SentenceAwareChunker.cs:48-57 | closing a buffer appends it under the next index exactly when its joined text is long enough, and the index counter stays equal to the number of chunks |
| SentenceAwareChunker.KeptLeading | src/RagLib/Chunking/SentenceAwareChunker.cs:43-49 | when `MinChunkSize <= ChunkSize`, every buffer closed at the threshold is kept, and the last one is kept exactly when its join reaches `MinChunkSize` |
| SentenceAwareChunker.ChunksFollowOverlap | src/RagLib/Chunking/SentenceAwareChunker.cs:46-62 | when `MinChunkSize <= ChunkSize`, the chunks are the leading closed buffers joined by single spaces, the buffer closed at the last sentence is emitted exactly when its join reaches `MinChunkSize`, and each next chunk begins with the overlap of the buffer before it followed by a space |
| SentenceAwareChunker.FiveShortSentencesOneBuffer | src/RagLib/Chunking/SentenceAwareChunker.cs:37-64 | five 11-character sentences with `ChunkSize` 50 close a single buffer, so at most one chunk is produced; `test/RagLib.Test/Chunking/SentenceAwareChunkerTests.cs:68-79` expects at least two for that input |
| SentenceAwareChunker.LoneShortSentenceDropped | src/RagLib/Chunking/SentenceAwareChunker.cs:49 | a text that is one sentence shorter than `MinChunkSize` yields no chunk |
| SentenceAwareChunker.ClosedBuffersEmpty | src/RagLib/Chunking/SentenceAwareChunker.cs:37 | with no sentences nothing is closed |
| FixedSizeChunker.Windows | src/RagLib/Chunking/FixedSizeChunker.cs:25 | there are no windows exactly when the text is empty |
| FixedSizeChunker.WindowsShape | src/RagLib/Chunking/FixedSizeChunker.cs:25-40 | the windows laid end to end are the text; all but the last are exactly `ChunkSize` long; the last is 1 to `ChunkSize` long |
| FixedSizeChunker.WindowCount | src/RagLib/Chunking/FixedSizeChunker.cs:25-40 | the number of windows is the ceiling of the text length over `ChunkSize` |
| FixedSizeChunker.WindowAt | src/RagLib/Chunking/FixedSizeChunker.cs:27-30 | window `k` is the text from `k * ChunkSize` up to `(k + 1) * ChunkSize` or the end, whichever comes first |
| FixedSizeChunker.Label | src/RagLib/Chunking/FixedSizeChunker.cs:32-36 | one chunk per window, with index left at its default 0 and the shared metadata |
| FixedSizeChunker.Chunk | src/RagLib/Chunking/FixedSizeChunker.cs:16-43 | null text fails; a non-empty text with a negative `ChunkSize` fails at `Substring`; otherwise the contents reassemble the text and every chunk has index 0 and the supplied or one fresh metadata record |
| FixedSizeChunker.OnlyChunkSizeMatters | src/RagLib/Chunking/FixedSizeChunker.cs:16-43 | `ChunkOverlap` and `MinChunkSize` do not affect the chunks |
| FixedSizeChunker.ChunkText | src/RagLib/Chunking/FixedSizeChunker.cs:16-43 | the null check followed by the loop computes `Chunk` |
| FixedSizeChunker.CutWindows | src/RagLib/Chunking/FixedSizeChunker.cs:25-40 | the cursor loop with `Math.Min(ChunkSize, remaining)` emits one chunk per window, in order |
| QdrantPayload.FillPayload | src/RagLib/VectorStores/QdrantVectorStore.cs:139-155 | the written payload always has `index`, `content` and `document_id` |
| QdrantPayload.FillPayloadEntries | src/RagLib/VectorStores/QdrantVectorStore.cs:139-155 | the payload's keys are the three reserved keys, `page_number` when there is a page, and the tags; each tag is stored as a string, and each reserved value is stored unless a tag of the same name overwrote it |
| QdrantPayload.Overwrite | src/RagLib/VectorStores/QdrantVectorStore.cs:148-154 | writing the tags one by one adds every tag as a string value over any earlier entry and leaves the other entries alone |
| QdrantPayload.CustomOf | src/RagLib/VectorStores/QdrantVectorStore.cs:167-169 | the decoded tags are exactly the non-reserved entries, read with `StringValue` |
| QdrantPayload.FromPayload | src/RagLib/VectorStores/QdrantVectorStore.cs:157-174 | fails on a missing `index`, then on a missing `content`, then on a document id that does not parse; otherwise reads the casts unchecked, the page number only when present, no file name or path, and the non-reserved entries as tags |
| QdrantPayload.DecodeFill | src/RagLib/VectorStores/QdrantVectorStore.cs:139-174 | a chunk with a document id, in-range integers and no reserved tag reads back with the same index, content, id, page and tags (an empty map for null); only file name and path are lost |
| QdrantPayload.CustomOfFill | src/RagLib/VectorStores/QdrantVectorStore.cs:148-154 | without reserved tag names, the non-reserved entries of a written payload are exactly the chunk's tags |
| QdrantPayload.FillDecode | src/RagLib/VectorStores/QdrantVectorStore.cs:139-174 | a payload in the shape `FillPayload` writes decodes, and writing the decoded chunk gives the same payload back |
| QdrantPayload.NullIdUndecodable | src/RagLib/VectorStores/QdrantVectorStore.cs:143 | a chunk with a null document id is written with an empty id and cannot be read back |
| QdrantPayload.IndexTagOverrides | src/RagLib/VectorStores/QdrantVectorStore.cs:150-152 | a custom tag named `index` replaces the integer with a string, which reads back as index 0 |
| QdrantPayload.BuildFilter | src/RagLib/VectorStores/QdrantVectorStore.cs:100-114 | no filter for null or empty filters; otherwise one must-condition per entry, and a condition is present exactly when its key and text are an entry |
| QdrantPayload.FilterKeysDistinct | src/RagLib/VectorStores/QdrantVectorStore.cs:103-111 | no key is constrained twice |
| QdrantPayload.SearchLimit | src/RagLib/VectorStores/QdrantVectorStore.cs:116 | `(ulong)topK` is `topK` for non-negative values and wraps a negative one to at least 2^64 - 2^31 |
| QdrantPayload.MapResults | src/RagLib/VectorStores/QdrantVectorStore.cs:118-120 | a successful mapping has one entry per result, and a failure needs at least one result |
| QdrantPayload.MapResultsSuccess | src/RagLib/VectorStores/QdrantVectorStore.cs:118-120 | the mapping succeeds exactly when every payload decodes, and then holds each decoded chunk with its score, in the client's order |
| QdrantPayload.MapResultsFailure | src/RagLib/VectorStores/QdrantVectorStore.cs:118-120 | a failing mapping throws the error of the first payload that does not decode |
| QdrantPayload.FirstDecoded | src/RagLib/VectorStores/QdrantVectorStore.cs:84-87 | null when no point came back, otherwise the first point decoded or its decoding error |
| VectorStore.ListCollections | src/RagLib/Core/Interfaces/IVectorStore.cs:26-30 | exactly the names of the existing collections |
| VectorStore.CreateCollection | src/RagLib/Core/Interfaces/IVectorStore.cs:13-18 | fails exactly on an existing name; otherwise the name is listed afterwards, its collection is empty and the others are untouched |
| VectorStore.DeleteCollection | src/RagLib/Core/Interfaces/IVectorStore.cs:20-24 | fails exactly on a missing name; otherwise the name and all its points are gone and the other collections are unchanged |
| VectorStore.Upsert | src/RagLib/Core/Interfaces/IVectorStore.cs:50-58 | inserts the point when the id is absent and replaces its chunk and vector when present; no other point or collection changes |
| VectorStore.Add | src/RagLib/Core/Interfaces/IVectorStore.cs:35-41 | an upsert under the fresh id; a fresh id grows the collection by one |
| VectorStore.AddRange | src/RagLib/Core/Interfaces/IVectorStore.cs:43-48 | the collection afterwards holds its old ids and the fresh ids; old points not overwritten keep their values; other collections are unchanged |
| VectorStore.BatchKeys | src/RagLib/Core/Interfaces/IVectorStore.cs:43-48 | a batch holds exactly the fresh ids |
| VectorStore.BatchAt | src/RagLib/Core/Interfaces/IVectorStore.cs:43-48 | with distinct ids, every item of a batch is stored under its own id |
| VectorStore.AddRangeIsAdds | src/RagLib/Core/Interfaces/IVectorStore.cs:35-48 | adding a batch has the same effect as adding each item individually, in order, including failing on a missing collection |
| VectorStore.Delete | src/RagLib/Core/Interfaces/IVectorStore.cs:60-65 | only that id is removed from the collection |
| VectorStore.GetById | src/RagLib/Core/Interfaces/IVectorStore.cs:67-73 | the stored chunk when the id is present, null when it is not |
| VectorStore.Search | src/RagLib/Core/Interfaces/IVectorStore.cs:78-91 | at most `topK` results, the first ones of the ranking, each the stored chunk with its score; a negative `topK` returns the whole ranking |
| VectorStore.GetAfterUpsert | src/RagLib/Core/Interfaces/IVectorStore.cs:50-73 | what was upserted is what `GetById` returns, and every other id reads as before |
| VectorStore.GetAfterDelete | src/RagLib/Core/Interfaces/IVectorStore.cs:60-73 | a deleted point reads as null, and every other id reads as before |
| VectorStore.GetAfterAddRange | src/RagLib/Core/Interfaces/IVectorStore.cs:43-73 | every item of a batch can be read back under its own id |
| QdrantStore.CreateCollection | src/RagLib/VectorStores/QdrantVectorStore.cs:60-67 | an empty collection of 1536-dimensional cosine vectors; fails on an existing name |
| QdrantStore.DeleteCollection | src/RagLib/VectorStores/QdrantVectorStore.cs:76-79 | removes the collection, keeps the others |
| QdrantStore.Upsert | src/RagLib/VectorStores/QdrantVectorStore.cs:124-135 | the point under the id holds the chunk's payload and the vector; nothing else changes |
| QdrantStore.Add | src/RagLib/VectorStores/QdrantVectorStore.cs:28-39 | the point under the fresh id holds the chunk's payload and the vector |
| QdrantStore.PointsOf | src/RagLib/VectorStores/QdrantVectorStore.cs:44-54 | one payload point per item, keyed by exactly the fresh ids |
| QdrantStore.AddRange | src/RagLib/VectorStores/QdrantVectorStore.cs:42-57 | one upsert of all the points: the collection holds its old ids and the fresh ids, old points not overwritten keep their payload and vector, the collection's vector parameters and the other collections are unchanged |
| QdrantStore.AddRangeStores | src/RagLib/VectorStores/QdrantVectorStore.cs:44-56 | with distinct fresh ids, each item is stored under its id as its filled payload and its vector |
| QdrantStore.Delete | src/RagLib/VectorStores/QdrantVectorStore.cs:70-73 | only that id is removed: every other point keeps its payload and vector, and the collection's vector parameters and the other collections are unchanged |
| QdrantStore.Retrieve | src/RagLib/VectorStores/QdrantVectorStore.cs:84 | at most one point comes back, and one does exactly when the id is stored |
| QdrantStore.GetById | src/RagLib/VectorStores/QdrantVectorStore.cs:82-88 | null for an absent id, otherwise the stored payload decoded or its decoding error |
| QdrantStore.Request | src/RagLib/VectorStores/QdrantVectorStore.cs:98-116 | the search request carries the built filter and the `(ulong)topK` limit |
| QdrantStore.Scored | src/RagLib/VectorStores/QdrantVectorStore.cs:116 | the served points as the client sees them: payload and score, in the server's order |
| QdrantStore.SearchResults | src/RagLib/VectorStores/QdrantVectorStore.cs:116-120 | one result per served point, in order, each the decoded payload with its score |
| QdrantStore.CreateCollectionRefines | src/RagLib/VectorStores/QdrantVectorStore.cs:60-67 | creating a collection keeps the Qdrant state related to the abstract store, failing together |
| QdrantStore.DeleteCollectionRefines | src/RagLib/VectorStores/QdrantVectorStore.cs:76-79 | deleting a collection keeps the relation, failing together |
| QdrantStore.ListCollectionsRefines | src/RagLib/VectorStores/QdrantVectorStore.cs:91-95 | `QdrantStore.ListCollections`, the names `ListCollectionsAsync` returns, is exactly the abstract store's set of collection names |
| QdrantStore.UpsertRefines | src/RagLib/VectorStores/QdrantVectorStore.cs:124-135 | an upsert keeps the relation, failing together |
| QdrantStore.DeleteRefines | src/RagLib/VectorStores/QdrantVectorStore.cs:70-73 | deleting a point keeps the relation, failing together |
| QdrantStore.PointsOfBatch | src/RagLib/VectorStores/QdrantVectorStore.cs:44-54 | the batch's payload points are the abstract batch with each chunk written as its payload |
| QdrantStore.AddRangeRefines | src/RagLib/VectorStores/QdrantVectorStore.cs:42-57 | adding a batch keeps the relation, failing together |
| QdrantStore.GetByIdRefines | src/RagLib/VectorStores/QdrantVectorStore.cs:82-88 | when every stored chunk is storable, `GetById` returns the abstract chunk with file name and path dropped and null tags made empty |
| QdrantStore.SearchRefines | src/RagLib/VectorStores/QdrantVectorStore.cs:98-121 | a search whose server response follows the abstract ranking within the `(ulong)topK` limit returns the abstract results, normalized the same way, with their scores; for a negative `topK` that is every served point |
| RagEngineBuilder.Create | src/RagLib/Core/Builders/RagEngineBuilder.cs:28 | a new builder has no slot set |
| RagEngineBuilder.UseEmbedder | src/RagLib/Core/Builders/RagEngineBuilder.cs:33-37 | sets the embedder slot only |
| RagEngineBuilder.UseGeminiEmbedder | src/RagLib/Core/Builders/RagEngineBuilder.cs:42-46 | sets the embedder slot to a Gemini embedder with that key, nothing else |
| RagEngineBuilder.UseVectorStore | src/RagLib/Core/Builders/RagEngineBuilder.cs:51-55 | sets the vector-store slot only |
| RagEngineBuilder.UseQdrantStore | src/RagLib/Core/Builders/RagEngineBuilder.cs:60-64 | sets the vector-store slot to a Qdrant store at that endpoint, nothing else |
| RagEngineBuilder.UseChunker | src/RagLib/Core/Builders/RagEngineBuilder.cs:69-73 | sets the chunker slot only |
| RagEngineBuilder.UseFixedSizeChunker | src/RagLib/Core/Builders/RagEngineBuilder.cs:78-83 | installs a fixed-size chunker with that `ChunkSize`, overlap 100 and minimum 200, nothing else |
| RagEngineBuilder.Build | src/RagLib/Core/Builders/RagEngineBuilder.cs:88-98 | fails with the chunker message exactly when the chunker is unset, with the embedder message exactly when only the embedder is missing after it, with the store message when only the store is missing; succeeds exactly when all three are set, with exactly the configured components |
| RagEngineBuilder.LastWriteWins | src/RagLib/Core/Builders/RagEngineBuilder.cs:33-83 | after any chain of setter calls each slot holds what the last call naming it installed, or its earlier value when no call names it |
| RagEngineBuilder.LastSome | src/RagLib/Core/Builders/RagEngineBuilder.cs:33-83 | a slot ends up set exactly when it was set before or some call names it |
| RagEngineBuilder.BuildAfterCalls | src/RagLib/Core/Builders/RagEngineBuilder.cs:28-98 | a chain started with `Create()` builds exactly when it names all three slots |
| RagEngineBuilder.GeminiReplacesCustom | src/RagLib/Core/Builders/RagEngineBuilder.cs:35-44 | `UseEmbedder` followed by `UseGeminiEmbedder` leaves the Gemini embedder |

## Left out

- Async `Task` plumbing: every call is modelled as one sequential step.
- The Qdrant client and server: transport, similarity scoring and the
  filter-matching semantics of `Match.Text`. Search gets the server's
  response as a parameter, and scores are an abstract type.
- The embedders (`GeminiEmbedder` in both namespaces): remote calls that
  return float vectors. Vectors are an abstract type.
- QdrantStore.Upsert, QdrantStore.Add and QdrantStore.AddRange: no vector
  dimension check is modelled. The collection records its 1536-dimensional
  cosine parameters, but the Qdrant server's rejection of a point or query
  vector of another length is not modelled, because vectors are an abstract
  type with no length. In the model these calls succeed on every existing
  collection.
- `RagEngine`, `IRagEngine`, dependency-injection wiring, the builder's
  `HttpClientHandler`, and the samples. `RagEngine`'s methods only throw
  `NotImplementedException`, and the three-argument constructor `Build`
  calls does not exist, so `Build` returns the configured triple.
  Likewise `UseGeminiEmbedder`
  (`src/RagLib/Core/Builders/RagEngineBuilder.cs:44`) calls
  `new GeminiEmbedder(apiKey, HttpClient)`, but both `GeminiEmbedder`
  classes (`src/RagLib/Embedders/GeminiEmbedder.cs:14`,
  `src/RagLib/Embedding/GeminiEmbedder.cs:13`) declare only a constructor
  taking `apiKey`. The model records a Gemini embedder with that key.
- Randomness: `Guid.NewGuid()` is a parameter. Nothing states that fresh ids
  differ from `Guid.Empty` or from stored ids.
- `Guid.Parse` is modelled only on the "D" format `Guid.ToString()` writes.
  Other formats, braces and surrounding white space are not modelled.
- Strings are sequences of Unicode scalar values, while .NET strings are
  sequences of UTF-16 code units. A model string cannot hold a lone
  surrogate. For text outside the Basic Multilingual Plane the source's
  `Length` and `Substring` counts differ from the model's: an emoji counts 2
  towards `ChunkSize` in the source and 1 here, and `FixedSizeChunker` can
  cut it in half in the source but never in the model. There is no
  culture-dependent behaviour.
- `Regex.Split` is modelled for this one pattern, which has no capture
  groups.
- FixedSizeChunker.Chunk: requires a non-zero `ChunkSize` for a non-empty
  text, because with 0 the source's loop never advances and never returns.
- SentenceAwareChunker.Chunk: does not model overflow of the 32-bit
  `chunkIndex` and `currentLength`, because they would need more than 2^31
  characters of text.
- SentenceAwareChunker.ChunksFollowOverlap: states that chunk contents are
  the joined buffers only when `MinChunkSize <= ChunkSize`. With a larger
  minimum, any buffer may be dropped; `Chunk` still states the bounds,
  indices and metadata, and `KeptTextsKeeps` states which buffers are kept
  for any minimum.
- QdrantPayload.MapResults: its own contract states only lengths. The
  element-wise contents and the first-error rule are in
  `MapResultsSuccess` and `MapResultsFailure`.
- FixedSizeChunker.Windows: its own contract states only emptiness.
  Reassembly, window lengths, count and positions are in `WindowsShape`,
  `WindowCount` and `WindowAt`.
- VectorStore.Search: the ranking by similarity and the filters are given by
  the caller. The contract states the `topK` bound, the order and the
  contents, but not that the ranking is by similarity.
- VectorStore.Search: the interface does not say what a negative `topK`
  means. The model returns the whole ranking, which is what the Qdrant
  store's `(ulong)topK` amounts to: a limit of at least 2^64 - 2^31 points
  (`QdrantPayload.SearchLimit`, `QdrantStore.SearchRefines`).
- A chunk whose `Metadata` is null: `FillPayload` dereferences it
  (`src/RagLib/VectorStores/QdrantVectorStore.cs:143`), so `AddAsync`,
  `AddRangeAsync` and `UpsertAsync` throw before any client call. The
  chunk's metadata is never null in the model, and the chunkers always set
  it.
- A null tag value: `FillPayload` passes it to `new Value(...)`
  (`src/RagLib/VectorStores/QdrantVectorStore.cs:152`). Tag values are
  never null in the model.
- A null argument to `UseEmbedder`, `UseVectorStore` or `UseChunker`: the
  source stores it and so clears the slot
  (`src/RagLib/Core/Builders/RagEngineBuilder.cs:35,53,71`). The model's
  setters always take an implementation, so `LastSome` and
  `BuildAfterCalls` do not cover a chain that clears a slot this way.
- Null `collection` names and null string arguments to the Qdrant client:
  collection names and keys are always strings in the model.
- VectorStore.AddRange: the interface says nothing about repeated ids.
  `GetAfterAddRange` assumes the fresh ids are distinct; with repeats, the
  later item wins, as in `AddRangeIsAdds`.
- QdrantStore.GetByIdRefines and QdrantStore.SearchRefines: hold only for
  storable chunks. These have a document id, integers in the 32-bit range
  and no reserved tag names. `NullIdUndecodable` and `IndexTagOverrides` show
  what happens otherwise.
