/**
  `SentenceAwareChunker`: sentences are accumulated into a buffer that closes
  once the sum of their lengths reaches `ChunkSize` (or at the last
  sentence); a closed buffer becomes a chunk when its joined text is at least
  `MinChunkSize` long, and the next buffer is seeded with a trailing overlap of
  the closed one.

  The reference definition is a left fold (`Step`, `Run`) producing the sequence of
  closed buffers, followed by `Emit`, which keeps the long enough ones and
  numbers them; `ChunkText` is the source's single loop, which does both at
  once, and is proved to compute the same chunks.
 */
module SentenceAwareChunker {
  import opened Base
  import opened Guids
  import opened Models
  import opened SentenceSplit

  // ----------- Overlap -----------

  /**
    Where the overlap starts: the shortest suffix of `items` whose lengths sum
    to at least `target`, or the whole of `items` when no suffix does. It never
    starts after the last item.
   */
  function OverlapStart(items: seq<string>, target: int): (k: nat)
    ensures |items| == 0 ==> k == 0
    ensures |items| > 0 ==> k < |items|
    ensures k > 0 ==> SumLen(items[k..]) >= target
    ensures forall j :: k < j < |items| ==> SumLen(items[j..]) < target
    decreases |items|
  {
    if |items| == 0 then 0
    else
      var last := items[|items| - 1];
      if |last| >= target then |items| - 1
      else
        SumLenSuffixAll(items);
        OverlapStart(items[..|items| - 1], target - |last|)
  }

  lemma SumLenSuffixAll(xs: seq<string>)
    requires |xs| > 0
    ensures forall j :: 0 <= j < |xs| ==> SumLen(xs[j..]) == SumLen(xs[..|xs| - 1][j..]) + |xs[|xs| - 1]|
  {
    forall j | 0 <= j < |xs|
      ensures SumLen(xs[j..]) == SumLen(xs[..|xs| - 1][j..]) + |xs[|xs| - 1]|
    {
      SumLenSuffix(xs, j);
    }
  }

  /** The overlap text: that suffix joined by single spaces, trailing white space trimmed. */
  function Overlap(items: seq<string>, target: int): string {
    TrimEnd(Join(items[OverlapStart(items, target)..]))
  }

  /** `GetOverlapText`: walks back from the last item, prepending `item + " "`, until the lengths reach the target. */
  method GetOverlapText(sentences: seq<string>, targetLength: int) returns (r: string)
    ensures r == Overlap(sentences, targetLength)
  {
    var sb := "";
    var total := 0;
    var i := |sentences|;
    var stop := false;
    while 0 < i && !stop
      invariant 0 <= i <= |sentences|
      invariant total == SumLen(sentences[i..])
      invariant sb == Spaced(sentences[i..])
      invariant stop ==> i < |sentences| && total >= targetLength
      invariant !stop && i < |sentences| ==> total < targetLength
      invariant forall j :: i < j < |sentences| ==> SumLen(sentences[j..]) < targetLength
      decreases i
    {
      SuffixStep(sentences, i);
      i := i - 1;
      var sentence := sentences[i];
      sb := sentence + " " + sb;
      total := total + |sentence|;
      stop := total >= targetLength;
    }
    OverlapStartUnique(sentences, targetLength, i);
    if |sentences[i..]| > 0 {
      SpacedIsJoin(sentences[i..]);
      TrimEndSpace(Join(sentences[i..]));
    }
    r := TrimEnd(sb);
  }

  /** Taking one more item from the back of the suffix. */
  lemma SuffixStep(xs: seq<string>, i: nat)
    requires 0 < i <= |xs|
    ensures SumLen(xs[i - 1..]) == |xs[i - 1]| + SumLen(xs[i..])
    ensures Spaced(xs[i - 1..]) == xs[i - 1] + " " + Spaced(xs[i..])
  {
    assert xs[i - 1..] == [xs[i - 1]] + xs[i..];
    assert xs[i - 1..][1..] == xs[i..];
    SumLenCons(xs[i - 1], xs[i..]);
  }

  /** The loop stops where `OverlapStart` says the overlap starts. */
  lemma OverlapStartUnique(items: seq<string>, target: int, i: nat)
    requires i <= |items|
    requires i > 0 ==> i < |items| && SumLen(items[i..]) >= target
    requires forall j :: i < j < |items| ==> SumLen(items[j..]) < target
    ensures i == OverlapStart(items, target)
  {
    var k := OverlapStart(items, target);
    if i < k {
      assert false;
    } else if k < i {
      assert false;
    }
  }

  /** The sum of lengths with one more item in front. */
  lemma {:induction false} SumLenCons(x: string, ys: seq<string>)
    ensures SumLen([x] + ys) == |x| + SumLen(ys)
    decreases |ys|
  {
    if |ys| > 0 {
      var xs := [x] + ys;
      assert xs[..|xs| - 1] == [x] + ys[..|ys| - 1];
      SumLenCons(x, ys[..|ys| - 1]);
    } else {
      assert [x] + ys == [x];
      assert [x][..0] == [];
    }
  }

  // ----------- Buffers -----------

  /** The loop state: the open buffer, its running length, and the buffers closed so far. */
  datatype State = State(buffer: seq<string>, length: int, closed: seq<seq<string>>)

  const Start := State([], 0, [])

  /** One iteration: append the sentence, and close the buffer if it is long enough or this is the last sentence. */
  function Step(opts: ChunkerOptions, st: State, sentence: string, isLast: bool): State {
    var buffer := st.buffer + [sentence];
    var length := st.length + |sentence|;
    if length >= opts.chunkSize || isLast then
      var overlap := Overlap(buffer, opts.chunkOverlap);
      State([overlap], |overlap|, st.closed + [buffer])
    else State(buffer, length, st.closed)
  }

  /** The state after the first `n` sentences. */
  function Run(opts: ChunkerOptions, sentences: seq<string>, n: nat): State
    requires n <= |sentences|
  {
    if n == 0 then Start
    else Step(opts, Run(opts, sentences, n - 1), sentences[n - 1], n == |sentences|)
  }

  /** Every buffer the loop closes, in order. */
  function ClosedBuffers(opts: ChunkerOptions, sentences: seq<string>): seq<seq<string>> {
    Run(opts, sentences, |sentences|).closed
  }

  /** The first position of a buffer holding a freshly appended sentence (later buffers start with the overlap seed). */
  function FirstFresh(j: nat): nat {
    if j == 0 then 0 else 1
  }

  /** Every closed buffer holds at least one freshly appended sentence. */
  ghost predicate NonEmptyFresh(closed: seq<seq<string>>) {
    forall j :: 0 <= j < |closed| ==> |closed[j]| > FirstFresh(j)
  }

  /** All sentences the closed buffers took from the input, in order. */
  function FreshOf(closed: seq<seq<string>>): seq<string>
    requires NonEmptyFresh(closed)
  {
    if |closed| == 0 then []
    else FreshOf(closed[..|closed| - 1]) + closed[|closed| - 1][FirstFresh(|closed| - 1)..]
  }

  /** The sentences of the open buffer that came from the input. */
  function OpenFresh(st: State): seq<string>
    requires |st.closed| > 0 ==> |st.buffer| >= 1
  {
    if |st.closed| == 0 then st.buffer else st.buffer[1..]
  }

  /** Nothing lost, nothing repeated: the buffers took exactly the first `n` sentences. */
  ghost predicate Covers(sentences: seq<string>, n: nat, st: State)
    requires n <= |sentences|
  {
    && st.length == SumLen(st.buffer)
    && (|st.closed| > 0 ==> |st.buffer| >= 1)
    && NonEmptyFresh(st.closed)
    && FreshOf(st.closed) + OpenFresh(st) == sentences[..n]
  }

  /** Each buffer after the first starts with the overlap of the one closed before it. */
  ghost predicate Linked(opts: ChunkerOptions, st: State) {
    && (|st.closed| > 0 ==>
          |st.buffer| >= 1 && st.buffer[0] == Overlap(st.closed[|st.closed| - 1], opts.chunkOverlap))
    && (forall j :: 0 < j < |st.closed| ==>
          |st.closed[j]| > 0 && st.closed[j][0] == Overlap(st.closed[j - 1], opts.chunkOverlap))
  }

  /**
    A buffer closes exactly when its running length reaches the chunk size
    (only the buffer closed at the last sentence may fall short): the running
    length after each earlier fresh sentence stayed below the chunk size.
   */
  ghost predicate Thresholds(opts: ChunkerOptions, sentences: seq<string>, n: nat, st: State) {
    && (forall j :: 0 <= j < |st.closed| - 1 ==> SumLen(st.closed[j]) >= opts.chunkSize)
    && (0 < |st.closed| && n < |sentences| ==> SumLen(st.closed[|st.closed| - 1]) >= opts.chunkSize)
    && (forall j, m :: 0 <= j < |st.closed| && FirstFresh(j) < m < |st.closed[j]| ==>
          SumLen(st.closed[j][..m]) < opts.chunkSize)
    && (forall m :: FirstFresh(|st.closed|) < m <= |st.buffer| ==> SumLen(st.buffer[..m]) < opts.chunkSize)
  }

  /** Whether `Step` closes the buffer. */
  predicate Closes(opts: ChunkerOptions, st: State, sentence: string, isLast: bool) {
    st.length + |sentence| >= opts.chunkSize || isLast
  }

  lemma CoversStep(opts: ChunkerOptions, sentences: seq<string>, n: nat, st: State, isLast: bool)
    requires 0 < n <= |sentences|
    requires Covers(sentences, n - 1, st)
    ensures Covers(sentences, n, Step(opts, st, sentences[n - 1], isLast))
  {
    SumLenAppend(st.buffer, sentences[n - 1]);
    assert sentences[..n] == sentences[..n - 1] + [sentences[n - 1]];
    if Closes(opts, st, sentences[n - 1], isLast) {
      CoversClose(opts, sentences, n, st, isLast);
    } else {
      CoversKeep(opts, sentences, n, st, isLast);
    }
  }

  /** Closing: the buffer's fresh sentences move to the closed ones, the seed takes none. */
  lemma CoversClose(opts: ChunkerOptions, sentences: seq<string>, n: nat, st: State, isLast: bool)
    requires 0 < n <= |sentences|
    requires Closes(opts, st, sentences[n - 1], isLast)
    requires |st.closed| > 0 ==> |st.buffer| >= 1
    requires NonEmptyFresh(st.closed)
    requires sentences[..n] == FreshOf(st.closed) + OpenFresh(st) + [sentences[n - 1]]
    ensures Covers(sentences, n, Step(opts, st, sentences[n - 1], isLast))
  {
    var x := sentences[n - 1];
    var buffer := st.buffer + [x];
    var ov := Overlap(buffer, opts.chunkOverlap);
    var st' := State([ov], |ov|, st.closed + [buffer]);
    assert Step(opts, st, x, isLast) == st';
    var c := st'.closed;
    assert c[..|c| - 1] == st.closed;
    assert buffer[FirstFresh(|st.closed|)..] == OpenFresh(st) + [x];
    assert FreshOf(c) == FreshOf(st.closed) + OpenFresh(st) + [x];
    assert SumLen([ov]) == |ov| by {
      assert [ov][..0] == [];
    }
  }

  /** Keeping the buffer open: it takes one more fresh sentence. */
  lemma CoversKeep(opts: ChunkerOptions, sentences: seq<string>, n: nat, st: State, isLast: bool)
    requires 0 < n <= |sentences|
    requires !Closes(opts, st, sentences[n - 1], isLast)
    requires |st.closed| > 0 ==> |st.buffer| >= 1
    requires NonEmptyFresh(st.closed)
    requires SumLen(st.buffer + [sentences[n - 1]]) == st.length + |sentences[n - 1]|
    requires sentences[..n] == FreshOf(st.closed) + OpenFresh(st) + [sentences[n - 1]]
    ensures Covers(sentences, n, Step(opts, st, sentences[n - 1], isLast))
  {
    var x := sentences[n - 1];
    var buffer := st.buffer + [x];
    var st' := State(buffer, st.length + |x|, st.closed);
    assert Step(opts, st, x, isLast) == st';
    if |st.closed| > 0 {
      assert buffer[1..] == st.buffer[1..] + [x];
    }
    assert OpenFresh(st') == OpenFresh(st) + [x];
  }

  lemma {:induction false} RunCovers(opts: ChunkerOptions, sentences: seq<string>, n: nat)
    requires n <= |sentences|
    ensures Covers(sentences, n, Run(opts, sentences, n))
  {
    if n > 0 {
      RunCovers(opts, sentences, n - 1);
      CoversStep(opts, sentences, n, Run(opts, sentences, n - 1), n == |sentences|);
    }
  }

  lemma LinkedStep(opts: ChunkerOptions, st: State, x: string, isLast: bool)
    requires Linked(opts, st)
    ensures Linked(opts, Step(opts, st, x, isLast))
  {
    var buffer := st.buffer + [x];
    if |st.closed| > 0 {
      assert buffer[0] == st.buffer[0];
    }
    if Closes(opts, st, x, isLast) {
      var ov := Overlap(buffer, opts.chunkOverlap);
      assert Step(opts, st, x, isLast) == State([ov], |ov|, st.closed + [buffer]);
      LinkedClose(opts, st.closed, buffer, ov, |ov|);
    } else {
      assert Step(opts, st, x, isLast) == State(buffer, st.length + |x|, st.closed);
    }
  }

  /** Closing `buffer` links it to the buffer closed before it, and seeds the next one with its overlap. */
  lemma LinkedClose(opts: ChunkerOptions, closed: seq<seq<string>>, buffer: seq<string>, ov: string, length: int)
    requires forall j :: 0 < j < |closed| ==> |closed[j]| > 0 && closed[j][0] == Overlap(closed[j - 1], opts.chunkOverlap)
    requires |closed| > 0 ==> |buffer| > 0 && buffer[0] == Overlap(closed[|closed| - 1], opts.chunkOverlap)
    requires ov == Overlap(buffer, opts.chunkOverlap)
    ensures Linked(opts, State([ov], length, closed + [buffer]))
  {
    var c := closed + [buffer];
    assert forall j :: 0 <= j < |closed| ==> c[j] == closed[j];
    assert c[|closed|] == buffer;
  }

  lemma {:induction false} RunLinked(opts: ChunkerOptions, sentences: seq<string>, n: nat)
    requires n <= |sentences|
    ensures Linked(opts, Run(opts, sentences, n))
  {
    if n > 0 {
      RunLinked(opts, sentences, n - 1);
      LinkedStep(opts, Run(opts, sentences, n - 1), sentences[n - 1], n == |sentences|);
    }
  }

  lemma ThresholdsStep(opts: ChunkerOptions, sentences: seq<string>, n: nat, st: State)
    requires 0 < n <= |sentences|
    requires st.length == SumLen(st.buffer) && (|st.closed| > 0 ==> |st.buffer| >= 1)
    requires Thresholds(opts, sentences, n - 1, st)
    ensures Thresholds(opts, sentences, n, Step(opts, st, sentences[n - 1], n == |sentences|))
  {
    var x := sentences[n - 1];
    var buffer := st.buffer + [x];
    SumLenAppend(st.buffer, x);
    PrefixesOfAppend(st.buffer, x);
    if Closes(opts, st, x, n == |sentences|) {
      ThresholdsClose(opts, sentences, n, st);
    } else {
      ThresholdsKeep(opts, sentences, n, st);
    }
  }

  lemma PrefixesOfAppend(b: seq<string>, x: string)
    ensures forall m :: 0 <= m <= |b| ==> (b + [x])[..m] == b[..m]
    ensures (b + [x])[..|b| + 1] == b + [x]
  {
  }

  /** Closing: the new buffer reached the size unless it was the last, and its prefixes had not. */
  lemma ThresholdsClose(opts: ChunkerOptions, sentences: seq<string>, n: nat, st: State)
    requires 0 < n <= |sentences|
    requires Closes(opts, st, sentences[n - 1], n == |sentences|)
    requires (|st.closed| > 0 ==> |st.buffer| >= 1)
    requires SumLen(st.buffer + [sentences[n - 1]]) == st.length + |sentences[n - 1]|
    requires forall m :: 0 <= m <= |st.buffer| ==> (st.buffer + [sentences[n - 1]])[..m] == st.buffer[..m]
    requires Thresholds(opts, sentences, n - 1, st)
    ensures Thresholds(opts, sentences, n, Step(opts, st, sentences[n - 1], n == |sentences|))
  {
    var x := sentences[n - 1];
    var buffer := st.buffer + [x];
    var ov := Overlap(buffer, opts.chunkOverlap);
    var c := st.closed + [buffer];
    assert Step(opts, st, x, n == |sentences|) == State([ov], |ov|, c);
    forall j | 0 <= j < |c| - 1
      ensures SumLen(c[j]) >= opts.chunkSize
    {
      assert c[j] == st.closed[j];
    }
    forall j, m | 0 <= j < |c| && FirstFresh(j) < m < |c[j]|
      ensures SumLen(c[j][..m]) < opts.chunkSize
    {
      if j < |st.closed| {
        assert c[j] == st.closed[j];
      } else {
        assert c[j] == buffer;
        assert buffer[..m] == st.buffer[..m];
      }
    }
  }

  /** Keeping the buffer open: its running length is still below the size. */
  lemma ThresholdsKeep(opts: ChunkerOptions, sentences: seq<string>, n: nat, st: State)
    requires 0 < n <= |sentences|
    requires !Closes(opts, st, sentences[n - 1], n == |sentences|)
    requires SumLen(st.buffer + [sentences[n - 1]]) == st.length + |sentences[n - 1]|
    requires forall m :: 0 <= m <= |st.buffer| ==> (st.buffer + [sentences[n - 1]])[..m] == st.buffer[..m]
    requires (st.buffer + [sentences[n - 1]])[..|st.buffer| + 1] == st.buffer + [sentences[n - 1]]
    requires Thresholds(opts, sentences, n - 1, st)
    ensures Thresholds(opts, sentences, n, Step(opts, st, sentences[n - 1], n == |sentences|))
  {
    var x := sentences[n - 1];
    var buffer := st.buffer + [x];
    assert Step(opts, st, x, n == |sentences|) == State(buffer, st.length + |x|, st.closed);
    forall m | FirstFresh(|st.closed|) < m <= |buffer|
      ensures SumLen(buffer[..m]) < opts.chunkSize
    {
      if m <= |st.buffer| {
        assert buffer[..m] == st.buffer[..m];
      }
    }
  }

  lemma {:induction false} RunThresholds(opts: ChunkerOptions, sentences: seq<string>, n: nat)
    requires n <= |sentences|
    ensures Thresholds(opts, sentences, n, Run(opts, sentences, n))
  {
    if n > 0 {
      RunThresholds(opts, sentences, n - 1);
      RunCovers(opts, sentences, n - 1);
      ThresholdsStep(opts, sentences, n, Run(opts, sentences, n - 1));
    }
  }

  // ----------- Chunks -----------

  /** The joined texts of the closed buffers that are at least `minChunkSize` long, in order. */
  function KeptTexts(minChunkSize: int, closed: seq<seq<string>>): (r: seq<string>)
    ensures |r| <= |closed|
    ensures forall k :: 0 <= k < |r| ==> |r[k]| >= minChunkSize
  {
    if |closed| == 0 then []
    else
      var prev := KeptTexts(minChunkSize, closed[..|closed| - 1]);
      var text := Join(closed[|closed| - 1]);
      if |text| >= minChunkSize then prev + [text] else prev
  }

  /** The joined text of every closed buffer, in order. */
  function Joins(closed: seq<seq<string>>): (r: seq<string>)
    ensures |r| == |closed|
    ensures forall j :: 0 <= j < |r| ==> r[j] == Join(closed[j])
  {
    if |closed| == 0 then []
    else Joins(closed[..|closed| - 1]) + [Join(closed[|closed| - 1])]
  }

  /**
    The kept texts are the joins in their order, each one that reaches
    `minChunkSize` as often as it occurs and no shorter one; together the two
    clauses fix the result.
   */
  lemma {:induction false} KeptTextsKeeps(minChunkSize: int, closed: seq<seq<string>>)
    ensures IsSubsequence(KeptTexts(minChunkSize, closed), Joins(closed))
    ensures forall x :: multiset(KeptTexts(minChunkSize, closed))[x]
                     == if |x| >= minChunkSize then multiset(Joins(closed))[x] else 0
    decreases |closed|
  {
    if |closed| > 0 {
      var n := |closed| - 1;
      KeptTextsKeeps(minChunkSize, closed[..n]);
      KeptTextsSnoc(minChunkSize, closed);
    }
  }

  /** The induction step of `KeptTextsKeeps`: the last buffer's join is appended or not. */
  lemma KeptTextsSnoc(minChunkSize: int, closed: seq<seq<string>>)
    requires |closed| > 0
    requires var n := |closed| - 1;
      && IsSubsequence(KeptTexts(minChunkSize, closed[..n]), Joins(closed[..n]))
      && forall x :: multiset(KeptTexts(minChunkSize, closed[..n]))[x]
                  == if |x| >= minChunkSize then multiset(Joins(closed[..n]))[x] else 0
    ensures IsSubsequence(KeptTexts(minChunkSize, closed), Joins(closed))
    ensures forall x :: multiset(KeptTexts(minChunkSize, closed))[x]
                     == if |x| >= minChunkSize then multiset(Joins(closed))[x] else 0
  {
    var n := |closed| - 1;
    var prev := KeptTexts(minChunkSize, closed[..n]);
    var joins := Joins(closed[..n]);
    var t := Join(closed[n]);
    var r := KeptTexts(minChunkSize, closed);
    assert r == if |t| >= minChunkSize then prev + [t] else prev;
    SubsequenceSnoc(prev, joins, t);
    assert multiset(joins + [t]) == multiset(joins) + multiset{t};
    assert multiset(prev + [t]) == multiset(prev) + multiset{t};
  }

  /** Chunks over `texts`, indexed 0, 1, 2, … and all sharing `metadata`. */
  function Number(texts: seq<string>, metadata: DocumentMetadata): (r: seq<DocumentChunk>)
    ensures |r| == |texts|
    ensures forall k :: 0 <= k < |r| ==> r[k] == DocumentChunk(k, texts[k], metadata)
  {
    seq(|texts|, k requires 0 <= k < |texts| => DocumentChunk(k, texts[k], metadata))
  }

  /**
    `SentenceAwareChunker.Chunk`: no chunk for null or white-space text;
    otherwise the kept buffers of the sentences, numbered densely, every one
    carrying the supplied metadata or the one fresh record.
   */
  function Chunk(opts: ChunkerOptions, text: Option<string>, metadata: Option<DocumentMetadata>, freshId: Guid)
    : (r: seq<DocumentChunk>)
    ensures IsNullOrWhiteSpace(text) ==> r == []
    ensures forall k :: 0 <= k < |r| ==> r[k].index == k
    ensures forall k :: 0 <= k < |r| ==> |r[k].content| >= opts.minChunkSize
    ensures metadata.Some? ==> forall k :: 0 <= k < |r| ==> r[k].metadata == metadata.value
    ensures metadata.None? ==> forall k :: 0 <= k < |r| ==> r[k].metadata == FreshMetadata(freshId)
  {
    if IsNullOrWhiteSpace(text) then []
    else
      var sentences := SplitIntoSentences(text.value);
      Number(KeptTexts(opts.minChunkSize, ClosedBuffers(opts, sentences)), ResolveMetadata(metadata, freshId))
  }

  /** The source's loop: buffers, emits and re-seeds in one pass; it computes `Chunk`. */
  method ChunkText(opts: ChunkerOptions, text: Option<string>, metadata: Option<DocumentMetadata>, freshId: Guid)
    returns (chunks: seq<DocumentChunk>)
    ensures chunks == Chunk(opts, text, metadata, freshId)
  {
    if IsNullOrWhiteSpace(text) {
      return [];
    }
    var md := ResolveMetadata(metadata, freshId);
    var sentences := SplitIntoSentences(text.value);
    chunks := [];
    var currentChunk: seq<string> := [];
    var currentLength := 0;
    var chunkIndex := 0;
    ghost var closed: seq<seq<string>> := [];
    for i := 0 to |sentences|
      invariant Run(opts, sentences, i) == State(currentChunk, currentLength, closed)
      invariant chunks == Number(KeptTexts(opts.minChunkSize, closed), md)
      invariant chunkIndex == |chunks|
    {
      var sentence := sentences[i];
      currentChunk := currentChunk + [sentence];
      currentLength := currentLength + |sentence|;
      var isChunkReady := currentLength >= opts.chunkSize;
      var isLastSentence := i == |sentences| - 1;
      if isChunkReady || isLastSentence {
        chunks, chunkIndex := Emit(opts.minChunkSize, currentChunk, closed, chunks, chunkIndex, md);
        closed := closed + [currentChunk];
        var overlap := GetOverlapText(currentChunk, opts.chunkOverlap);
        currentChunk := [overlap];
        currentLength := |overlap|;
      }
    }
  }

  /** Closing a buffer: join it and emit it under the next index if it is long enough. */
  method Emit(minChunkSize: int, buffer: seq<string>, ghost closed: seq<seq<string>>,
              chunks: seq<DocumentChunk>, chunkIndex: int, md: DocumentMetadata)
    returns (chunks': seq<DocumentChunk>, chunkIndex': int)
    requires chunks == Number(KeptTexts(minChunkSize, closed), md) && chunkIndex == |chunks|
    ensures chunks' == Number(KeptTexts(minChunkSize, closed + [buffer]), md) && chunkIndex' == |chunks'|
  {
    var chunkText := Join(buffer);
    KeptAppend(minChunkSize, closed, buffer);
    chunks', chunkIndex' := chunks, chunkIndex;
    if |chunkText| >= minChunkSize {
      NumberAppend(KeptTexts(minChunkSize, closed), chunkText, md);
      chunks' := chunks + [DocumentChunk(chunkIndex, chunkText, md)];
      chunkIndex' := chunkIndex + 1;
    }
  }

  lemma KeptAppend(minChunkSize: int, closed: seq<seq<string>>, b: seq<string>)
    ensures KeptTexts(minChunkSize, closed + [b])
         == KeptTexts(minChunkSize, closed) + (if |Join(b)| >= minChunkSize then [Join(b)] else [])
  {
    assert (closed + [b])[..|closed|] == closed;
  }

  lemma NumberAppend(texts: seq<string>, t: string, metadata: DocumentMetadata)
    ensures Number(texts + [t], metadata) == Number(texts, metadata) + [DocumentChunk(|texts|, t, metadata)]
  {
  }

  // ----------- Properties -----------

  /**
    The closed buffers of a non-empty sentence list: they take every
    sentence exactly once and in order, the last one closes at the last
    sentence, each later one starts with the overlap of the one before, and
    each closes exactly when its running length first reaches the chunk size
    (or at the last sentence).
   */
  lemma ClosedBuffersShape(opts: ChunkerOptions, sentences: seq<string>)
    requires |sentences| > 0
    ensures var c := ClosedBuffers(opts, sentences);
      && |c| > 0
      && NonEmptyFresh(c)
      && FreshOf(c) == sentences
      && c[|c| - 1][|c[|c| - 1]| - 1] == sentences[|sentences| - 1]
      && (forall j :: 0 < j < |c| ==> |c[j]| >= 2 && c[j][0] == Overlap(c[j - 1], opts.chunkOverlap))
      && (forall j :: 0 <= j < |c| - 1 ==> SumLen(c[j]) >= opts.chunkSize)
      && (forall j, m :: 0 <= j < |c| && FirstFresh(j) < m < |c[j]| ==> SumLen(c[j][..m]) < opts.chunkSize)
  {
    var n := |sentences|;
    RunCovers(opts, sentences, n - 1);
    RunCovers(opts, sentences, n);
    RunLinked(opts, sentences, n);
    RunThresholds(opts, sentences, n);
    var st := Run(opts, sentences, n - 1);
    var buffer := st.buffer + [sentences[n - 1]];
    assert Closes(opts, st, sentences[n - 1], true);
    var c := ClosedBuffers(opts, sentences);
    assert c == st.closed + [buffer];
    assert sentences[..n] == sentences;
  }

  /** With no sentences nothing is closed. */
  lemma ClosedBuffersEmpty(opts: ChunkerOptions)
    ensures ClosedBuffers(opts, []) == []
  {
  }

  /** When every closed buffer is long enough, all of them are kept, in order. */
  lemma {:induction false} KeptAll(minChunkSize: int, closed: seq<seq<string>>)
    requires forall j :: 0 <= j < |closed| ==> |Join(closed[j])| >= minChunkSize
    ensures var r := KeptTexts(minChunkSize, closed);
      |r| == |closed| && forall k :: 0 <= k < |r| ==> r[k] == Join(closed[k])
  {
    if |closed| > 0 {
      KeptAll(minChunkSize, closed[..|closed| - 1]);
    }
  }

  /** A buffer closed on reaching the chunk size is at least that long once joined. */
  lemma ClosedLongEnough(opts: ChunkerOptions, b: seq<string>)
    requires |b| > 0 && SumLen(b) >= opts.chunkSize
    ensures |Join(b)| >= opts.chunkSize
  {
    JoinLength(b);
  }

  /** If every buffer but the last reached the chunk size, only the last can be dropped. */
  lemma KeptLeading(opts: ChunkerOptions, c: seq<seq<string>>)
    requires |c| > 0 && opts.minChunkSize <= opts.chunkSize
    requires forall j :: 0 <= j < |c| - 1 ==> |c[j]| > 0 && SumLen(c[j]) >= opts.chunkSize
    ensures var r := KeptTexts(opts.minChunkSize, c);
      && |c| - 1 <= |r| <= |c|
      && (|r| == |c| <==> |Join(c[|c| - 1])| >= opts.minChunkSize)
      && forall k :: 0 <= k < |r| ==> r[k] == Join(c[k])
  {
    var init := c[..|c| - 1];
    forall j | 0 <= j < |init|
      ensures |Join(init[j])| >= opts.minChunkSize
    {
      ClosedLongEnough(opts, c[j]);
    }
    KeptAll(opts.minChunkSize, init);
    assert c == init + [c[|c| - 1]];
    KeptAppend(opts.minChunkSize, init, c[|c| - 1]);
  }

  /** A buffer seeded with the previous overlap joins to a text that begins with it. */
  lemma SeededStartsWithOverlap(c: seq<seq<string>>, target: int)
    requires forall j :: 0 < j < |c| ==> |c[j]| >= 2 && c[j][0] == Overlap(c[j - 1], target)
    ensures forall k :: 0 <= k < |c| - 1 ==> StartsWith(Join(c[k + 1]), Overlap(c[k], target) + " ")
  {
    forall k | 0 <= k < |c| - 1
      ensures StartsWith(Join(c[k + 1]), Overlap(c[k], target) + " ")
    {
      var next := c[k + 1];
      assert next == [next[0]] + next[1..];
      JoinCons(next[0], next[1..]);
    }
  }

  /** The kept, numbered buffers of a linked sequence of closed buffers. */
  lemma NumberedFollowOverlap(opts: ChunkerOptions, c: seq<seq<string>>, md: DocumentMetadata)
    requires |c| > 0 && opts.minChunkSize <= opts.chunkSize
    requires forall j :: 0 <= j < |c| - 1 ==> |c[j]| > 0 && SumLen(c[j]) >= opts.chunkSize
    requires forall j :: 0 < j < |c| ==> |c[j]| >= 2 && c[j][0] == Overlap(c[j - 1], opts.chunkOverlap)
    ensures var r := Number(KeptTexts(opts.minChunkSize, c), md);
      && |c| - 1 <= |r| <= |c|
      && (|r| == |c| <==> |Join(c[|c| - 1])| >= opts.minChunkSize)
      && (forall k :: 0 <= k < |r| ==> r[k].content == Join(c[k]))
      && (forall k :: 0 <= k < |r| - 1 ==>
            StartsWith(r[k + 1].content, Overlap(c[k], opts.chunkOverlap) + " "))
  {
    KeptLeading(opts, c);
    SeededStartsWithOverlap(c, opts.chunkOverlap);
  }

  /** The two facts about the closed buffers the chunk-level statement needs. */
  lemma ClosedBuffersLinked(opts: ChunkerOptions, sentences: seq<string>)
    requires |sentences| > 0
    ensures var c := ClosedBuffers(opts, sentences);
      && |c| > 0
      && (forall j :: 0 <= j < |c| - 1 ==> |c[j]| > 0 && SumLen(c[j]) >= opts.chunkSize)
      && (forall j :: 0 < j < |c| ==> |c[j]| >= 2 && c[j][0] == Overlap(c[j - 1], opts.chunkOverlap))
  {
    ClosedBuffersShape(opts, sentences);
  }

  /**
    When `MinChunkSize <= ChunkSize`, only the buffer closed at the last
    sentence can be dropped, and it is kept exactly when its joined text
    reaches `MinChunkSize`: the chunks are the leading closed buffers, and
    each next chunk begins with the overlap of the buffer before it.
   */
  lemma ChunksFollowOverlap(opts: ChunkerOptions, text: Option<string>, metadata: Option<DocumentMetadata>, freshId: Guid)
    requires !IsNullOrWhiteSpace(text)
    requires opts.minChunkSize <= opts.chunkSize
    ensures var c := ClosedBuffers(opts, SplitIntoSentences(text.value));
      var r := Chunk(opts, text, metadata, freshId);
      && |c| - 1 <= |r| <= |c|
      && (|r| == |c| <==> |Join(c[|c| - 1])| >= opts.minChunkSize)
      && (forall k :: 0 <= k < |r| ==> r[k].content == Join(c[k]))
      && (forall k :: 0 <= k < |r| - 1 ==>
            StartsWith(r[k + 1].content, Overlap(c[k], opts.chunkOverlap) + " "))
  {
    var sentences := SplitIntoSentences(text.value);
    var c := ClosedBuffers(opts, sentences);
    var md := ResolveMetadata(metadata, freshId);
    assert |sentences| > 0 by {
      SentenceShape(text.value);
    }
    assert Chunk(opts, text, metadata, freshId) == Number(KeptTexts(opts.minChunkSize, c), md);
    ClosedBuffersLinked(opts, sentences);
    NumberedFollowOverlap(opts, c, md);
  }

  /**
    Five 11-character sentences with `ChunkSize` 50: the running length first
    reaches 50 at the fifth and last sentence, so the loop closes a single
    buffer and at most one chunk comes out.
   */
  lemma FiveShortSentencesOneBuffer(overlap: int, minChunkSize: int)
    ensures var opts := ChunkerOptions(50, overlap, minChunkSize);
      var sentences := ["Sentence A.", "Sentence B.", "Sentence C.", "Sentence D.", "Sentence E."];
      |ClosedBuffers(opts, sentences)| == 1 && |KeptTexts(minChunkSize, ClosedBuffers(opts, sentences))| <= 1
  {
    var opts := ChunkerOptions(50, overlap, minChunkSize);
    var sentences := ["Sentence A.", "Sentence B.", "Sentence C.", "Sentence D.", "Sentence E."];
    assert Run(opts, sentences, 1) == State(sentences[..1], 11, []);
    assert Run(opts, sentences, 2) == State(sentences[..2], 22, []);
    assert Run(opts, sentences, 3) == State(sentences[..3], 33, []);
    assert Run(opts, sentences, 4) == State(sentences[..4], 44, []);
    assert |Run(opts, sentences, 5).closed| == 1;
  }

  /** A text that is a single sentence shorter than `MinChunkSize` yields no chunk. */
  lemma LoneShortSentenceDropped(opts: ChunkerOptions, text: string, metadata: Option<DocumentMetadata>, freshId: Guid)
    requires !IsBlank(text)
    requires |SplitIntoSentences(text)| == 1
    requires |text| < opts.minChunkSize
    ensures Chunk(opts, Some(text), metadata, freshId) == []
  {
    SentenceShape(text);
    var sentences := SplitIntoSentences(text);
    var spans := SplitSpans(text);
    assert sentences[0] == text[spans[0].lo..spans[0].hi] == text;
    var c := ClosedBuffers(opts, sentences);
    assert Run(opts, sentences, 1) == Step(opts, Start, text, true);
    assert c == [[text]];
  }

  /** Trimming only looks at the tail: text before a non-blank part is kept as is. */
  lemma {:induction false} TrimEndAppend(a: string, b: string)
    requires !IsBlank(b)
    ensures TrimEnd(a + b) == a + TrimEnd(b)
    decreases |b|
  {
    var ab := a + b;
    if IsWhiteSpace(b[|b| - 1]) {
      assert ab[..|ab| - 1] == a + b[..|b| - 1];
      TrimEndAppend(a, b[..|b| - 1]);
    }
  }

  /** The overlap always ends with the buffer's last item (trailing white space trimmed). */
  lemma OverlapEndsWithLast(items: seq<string>, target: int)
    requires |items| > 0 && !IsBlank(items[|items| - 1])
    ensures var ov := Overlap(items, target);
      var last := TrimEnd(items[|items| - 1]);
      |last| <= |ov| && ov[|ov| - |last|..] == last
  {
    var suffix := items[OverlapStart(items, target)..];
    var last := items[|items| - 1];
    if |suffix| > 1 {
      TrimEndAppend(Join(suffix[..|suffix| - 1]) + " ", last);
    } else {
      assert suffix == [last];
    }
  }
}
