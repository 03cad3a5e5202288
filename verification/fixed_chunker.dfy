/**
  `FixedSizeChunker`: cuts the text into consecutive windows of `ChunkSize`
  characters, the last one holding what is left. No overlap, no minimum
  length, and no chunk index is assigned (every chunk keeps the default
  index 0).
 */
module FixedSizeChunker {
  import opened Base
  import opened Guids
  import opened Models

  /** The exceptions the source's loop can throw. */
  datatype ChunkError =
    | NullText        // `text.Length` on a null text: `NullReferenceException`
    | SizeOutOfRange  // `Substring` with a negative length: `ArgumentOutOfRangeException`

  /** The texts laid end to end. */
  function Concat(xs: seq<string>): string {
    if |xs| == 0 then "" else xs[0] + Concat(xs[1..])
  }

  function Min(a: int, b: int): int {
    if a <= b then a else b
  }

  /** The windows the loop cuts: `size` characters at a time, the last window taking what is left. */
  function Windows(text: string, size: int): (r: seq<string>)
    requires |text| == 0 || size > 0
    ensures |text| == 0 <==> |r| == 0
    decreases |text|
  {
    if |text| == 0 then []
    else if |text| <= size then [text]
    else [text[..size]] + Windows(text[size..], size)
  }

  /**
    The windows reassemble the text, all but the last are exactly `size`
    long, and the last is between 1 and `size` long.
   */
  lemma {:induction false} WindowsShape(text: string, size: int)
    requires |text| == 0 || size > 0
    ensures Concat(Windows(text, size)) == text
    ensures var r := Windows(text, size);
      forall k :: 0 <= k < |r| - 1 ==> |r[k]| == size
    ensures var r := Windows(text, size);
      |r| > 0 ==> 0 < |r[|r| - 1]| <= size
    decreases |text|
  {
    if size > 0 && |text| > size {
      var rest := text[size..];
      WindowsShape(rest, size);
      var r := Windows(text, size);
      assert r == [text[..size]] + Windows(rest, size);
      assert r[1..] == Windows(rest, size);
      assert text == text[..size] + rest;
    }
  }

  /**
    There are `ceil(|text| / size)` windows: `size` times one window fewer
    than there are falls short of the text, `size` times their number covers it.
   */
  lemma {:induction false} WindowCount(text: string, size: int)
    requires size > 0
    ensures var n := |Windows(text, size)|;
      (n - 1) * size < |text| <= n * size
    decreases |text|
  {
    if |text| > size {
      var rest := text[size..];
      WindowCount(rest, size);
      MulStep(|Windows(rest, size)|, size);
    }
  }

  /** Multiplication by `size` steps by `size`. */
  lemma MulStep(k: int, size: int)
    ensures k >= 1 && size >= 0 ==> (k - 1) * size >= 0
    ensures (k - 1) * size + size == k * size
    ensures k * size + size == (k + 1) * size
  {
  }

  lemma SliceShift(text: string, d: nat, lo: nat, hi: nat)
    requires d <= |text| && lo <= hi <= |text| - d
    ensures text[d..][lo..hi] == text[d + lo..d + hi]
  {
  }

  /** Window `k` is the text from `k * size` up to `(k + 1) * size` or the end, whichever comes first. */
  lemma {:induction false} WindowAt(text: string, size: int, k: nat)
    requires size > 0 && k < |Windows(text, size)|
    ensures k * size < |text|
    ensures Windows(text, size)[k] == text[k * size..Min((k + 1) * size, |text|)]
    decreases |text|
  {
    if |text| <= size {
      assert k == 0;
    } else if k == 0 {
    } else {
      var rest := text[size..];
      WindowAt(rest, size, k - 1);
      var lo := (k - 1) * size;
      var hi := Min(k * size, |rest|);
      assert lo >= 0 && size + lo == k * size && size + hi == Min((k + 1) * size, |text|) by {
        MulStep(k, size);
      }
      SliceShift(text, size, lo, hi);
    }
  }

  /**
    `FixedSizeChunker.Chunk`: a null text throws; otherwise one chunk per
    window, each with index 0 and the supplied metadata or the one fresh
    record. A non-empty text with a negative `ChunkSize` throws at the first
    `Substring`; with `ChunkSize` 0 the loop never advances, so callers must
    not ask for that.
   */
  function Chunk(opts: ChunkerOptions, text: Option<string>, metadata: Option<DocumentMetadata>, freshId: Guid)
    : (r: Result<seq<DocumentChunk>, ChunkError>)
    requires text.None? || |text.value| == 0 || opts.chunkSize != 0
    ensures text.None? <==> r == Failure(NullText)
    ensures r == Failure(SizeOutOfRange) <==> text.Some? && |text.value| > 0 && opts.chunkSize < 0
    ensures r.Success? ==> Concat(Contents(r.value)) == text.value
    ensures r.Success? ==> forall k :: 0 <= k < |r.value| ==>
              r.value[k].index == 0 && r.value[k].metadata == ResolveMetadata(metadata, freshId)
  {
    if text.None? then Failure(NullText)
    else if |text.value| > 0 && opts.chunkSize < 0 then Failure(SizeOutOfRange)
    else
      var windows := Windows(text.value, opts.chunkSize);
      var chunks := Label(windows, ResolveMetadata(metadata, freshId));
      WindowsShape(text.value, opts.chunkSize);
      assert Contents(chunks) == windows;
      Success(chunks)
  }

  /** `ChunkOverlap` and `MinChunkSize` play no part: a short last window is kept and nothing is repeated. */
  lemma OnlyChunkSizeMatters(opts: ChunkerOptions, overlap: int, minSize: int, text: Option<string>,
                             metadata: Option<DocumentMetadata>, freshId: Guid)
    requires text.None? || |text.value| == 0 || opts.chunkSize != 0
    ensures Chunk(opts, text, metadata, freshId)
         == Chunk(ChunkerOptions(opts.chunkSize, overlap, minSize), text, metadata, freshId)
  {
  }

  /** The contents of the chunks, in order. */
  function Contents(chunks: seq<DocumentChunk>): (r: seq<string>)
    ensures |r| == |chunks|
    ensures forall k :: 0 <= k < |r| ==> r[k] == chunks[k].content
  {
    seq(|chunks|, k requires 0 <= k < |chunks| => chunks[k].content)
  }

  /** One chunk per text, index left at its default 0. */
  function Label(texts: seq<string>, metadata: DocumentMetadata): (r: seq<DocumentChunk>)
    ensures |r| == |texts|
    ensures forall k :: 0 <= k < |r| ==> r[k] == DocumentChunk(0, texts[k], metadata)
  {
    seq(|texts|, k requires 0 <= k < |texts| => DocumentChunk(0, texts[k], metadata))
  }

  /** `FixedSizeChunker.Chunk` as written: the null check, then the loop. */
  method ChunkText(opts: ChunkerOptions, text: Option<string>, metadata: Option<DocumentMetadata>, freshId: Guid)
    returns (r: Result<seq<DocumentChunk>, ChunkError>)
    requires text.None? || |text.value| == 0 || opts.chunkSize != 0
    ensures r == Chunk(opts, text, metadata, freshId)
  {
    if text.None? {
      return Failure(NullText);
    }
    var md := ResolveMetadata(metadata, freshId);
    if |text.value| > 0 && opts.chunkSize < 0 {
      return Failure(SizeOutOfRange);
    }
    var chunks := CutWindows(text.value, opts.chunkSize, md);
    r := Success(chunks);
  }

  /** The source's loop: a moving position and `Math.Min(ChunkSize, remaining)`. */
  method CutWindows(t: string, chunkSize: int, md: DocumentMetadata) returns (result: seq<DocumentChunk>)
    requires |t| == 0 || chunkSize > 0
    ensures result == Label(Windows(t, chunkSize), md)
  {
    result := [];
    var position := 0;
    assert t[position..] == t;
    assert result + Label(Windows(t[position..], chunkSize), md) == Label(Windows(t, chunkSize), md);
    while position < |t|
      invariant 0 <= position <= |t|
      invariant result + Label(Windows(t[position..], chunkSize), md) == Label(Windows(t, chunkSize), md)
      decreases |t| - position
    {
      var remaining := |t| - position;
      var size := Min(chunkSize, remaining);
      var chunkText := t[position..position + size];
      ghost var prev := result;
      result := result + [DocumentChunk(0, chunkText, md)];
      CutStep(t, chunkSize, position, size, md, prev, result);
      position := position + size;
    }
    assert t[position..] == [];
  }

  /** One turn of the loop keeps the emitted chunks followed by the rest's windows equal to all windows. */
  lemma CutStep(t: string, chunkSize: int, position: nat, size: nat, md: DocumentMetadata,
                prev: seq<DocumentChunk>, result: seq<DocumentChunk>)
    requires chunkSize > 0 && position < |t| && size == Min(chunkSize, |t| - position)
    requires prev + Label(Windows(t[position..], chunkSize), md) == Label(Windows(t, chunkSize), md)
    requires result == prev + [DocumentChunk(0, t[position..position + size], md)]
    ensures result + Label(Windows(t[position + size..], chunkSize), md) == Label(Windows(t, chunkSize), md)
  {
    var w := t[position..position + size];
    var rest := Label(Windows(t[position + size..], chunkSize), md);
    WindowsStep(t, chunkSize, position);
    LabelCons(w, Windows(t[position + size..], chunkSize), md);
    assert result + rest == prev + ([DocumentChunk(0, w, md)] + rest);
  }

  lemma LabelCons(w: string, rest: seq<string>, md: DocumentMetadata)
    ensures Label([w] + rest, md) == [DocumentChunk(0, w, md)] + Label(rest, md)
  {
  }

  /** One turn of the loop cuts the next window off the rest of the text. */
  lemma WindowsStep(t: string, size: int, position: nat)
    requires size > 0 && position < |t|
    ensures var n := Min(size, |t| - position);
      Windows(t[position..], size) == [t[position..position + n]] + Windows(t[position + n..], size)
  {
    var n := Min(size, |t| - position);
    var u := t[position..];
    if |u| <= size {
      assert u == t[position..position + n];
      assert t[position + n..] == [];
    } else {
      assert u[size..] == t[position + n..];
      assert u[..size] == t[position..position + n];
    }
  }
}
