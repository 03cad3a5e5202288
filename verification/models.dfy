/**
  The value types passed between the components: chunker options, document
  metadata and document chunks.
 */
module Models {
  import opened Base
  import opened Guids

  /** `ChunkerOptions`: sizes in characters; the chunkers do not validate them. */
  datatype ChunkerOptions = ChunkerOptions(chunkSize: int, chunkOverlap: int, minChunkSize: int)

  const DefaultChunkSize := 500
  const DefaultChunkOverlap := 100
  const DefaultMinChunkSize := 200

  /** `new ChunkerOptions()`. */
  const DefaultOptions := ChunkerOptions(DefaultChunkSize, DefaultChunkOverlap, DefaultMinChunkSize)

  /** `DocumentMetadata`: every field is optional (nullable in the source). */
  datatype DocumentMetadata = DocumentMetadata(
    documentId: Option<Guid>,
    fileName: Option<string>,
    filePath: Option<string>,
    pageNumber: Option<int>,
    custom: Option<map<string, string>>)

  /** `new DocumentMetadata { DocumentId = id }`. */
  function FreshMetadata(id: Guid): DocumentMetadata {
    DocumentMetadata(Some(id), None, None, None, None)
  }

  /**
    `metadata ??= new DocumentMetadata { DocumentId = Guid.NewGuid() }`, with the
    newly generated identifier supplied as `freshId`.
   */
  function ResolveMetadata(metadata: Option<DocumentMetadata>, freshId: Guid): DocumentMetadata {
    metadata.GetOr(FreshMetadata(freshId))
  }

  /** A chunk as the chunkers build it and the payload codec reads it. */
  datatype DocumentChunk = DocumentChunk(index: int, content: string, metadata: DocumentMetadata)

  /** The range of a C# `int`. */
  predicate IsInt32(n: int) {
    -0x8000_0000 <= n < 0x8000_0000
  }

  /** An unchecked conversion to C# `int`: keeps the low 32 bits, two's complement. */
  function ToInt32(n: int): (r: int)
    ensures IsInt32(r)
    ensures (n - r) % 0x1_0000_0000 == 0
    ensures IsInt32(n) ==> r == n
  {
    (n + 0x8000_0000) % 0x1_0000_0000 - 0x8000_0000
  }
}
