/**
  Sentence segmentation: `Regex.Split` with the pattern
  `(?<=[\.!?])\s+(?=[A-Z])`, then dropping the pieces that are null or white
  space.

  The pattern matches at position `i` exactly when the character before `i`
  is `.`, `!` or `?`, the character at `i` is white space, and the first
  character after the whitespace run starting at `i` is an ASCII capital: the
  greedy `\s+` can only satisfy the look-ahead after consuming the whole run,
  since no white-space character is a capital. A match therefore covers a
  maximal whitespace run, and `Regex.Split` cuts the text at the leftmost such
  matches, resuming after each.
 */
module SentenceSplit {
  import opened Base

  predicate IsTerminator(c: char) {
    c == '.' || c == '!' || c == '?'
  }

  predicate IsAsciiUpper(c: char) {
    'A' <= c <= 'Z'
  }

  /** The end of the maximal whitespace run starting at `i`. */
  function RunEnd(s: string, i: nat): (e: nat)
    requires i <= |s|
    ensures i <= e <= |s|
    ensures forall k :: i <= k < e ==> IsWhiteSpace(s[k])
    ensures e == |s| || !IsWhiteSpace(s[e])
    decreases |s| - i
  {
    if i < |s| && IsWhiteSpace(s[i]) then RunEnd(s, i + 1) else i
  }

  /** The pattern matches at `i`; the match is `s[i..RunEnd(s, i)]`. */
  predicate IsBoundary(s: string, i: nat) {
    && 0 < i < |s|
    && IsTerminator(s[i - 1])
    && IsWhiteSpace(s[i])
    && RunEnd(s, i) < |s|
    && IsAsciiUpper(s[RunEnd(s, i)])
  }

  /** A piece of the text between two matches: `s[lo..hi]`. */
  datatype Span = Span(lo: nat, hi: nat)

  /**
    The pieces of `s` cut at exactly the pattern's matches: they cover the
    text from its start to its end, consecutive pieces are separated by one
    match, and no match starts inside a piece.
   */
  ghost predicate IsSplit(s: string, spans: seq<Span>) {
    && |spans| > 0
    && spans[0].lo == 0
    && spans[|spans| - 1].hi == |s|
    && (forall k :: 0 <= k < |spans| ==> spans[k].lo <= spans[k].hi <= |s|)
    && (forall k :: 0 <= k < |spans| - 1 ==>
          IsBoundary(s, spans[k].hi) && spans[k + 1].lo == RunEnd(s, spans[k].hi))
    && (forall k, i :: 0 <= k < |spans| && spans[k].lo <= i < spans[k].hi ==> !IsBoundary(s, i))
  }

  /**
    The regular-expression engine's scan: the current piece started at
    `start`, and positions `start..pos` hold no match.
   */
  function Scan(s: string, start: nat, pos: nat): (r: seq<Span>)
    requires start <= pos <= |s|
    ensures |r| > 0 && r[0].lo == start && r[|r| - 1].hi == |s|
    ensures forall k :: 0 <= k < |r| ==> r[k].lo <= r[k].hi <= |s|
    decreases |s| - pos
  {
    if pos == |s| then [Span(start, |s|)]
    else if IsBoundary(s, pos) then
      var e := RunEnd(s, pos);
      [Span(start, pos)] + Scan(s, e, e)
    else Scan(s, start, pos + 1)
  }

  /** The scan cuts only at matches, and each piece after a cut resumes after the match. */
  lemma {:induction false} ScanCuts(s: string, start: nat, pos: nat)
    requires start <= pos <= |s|
    ensures forall k :: 0 <= k < |Scan(s, start, pos)| - 1 ==>
              IsBoundary(s, Scan(s, start, pos)[k].hi) && Scan(s, start, pos)[k + 1].lo == RunEnd(s, Scan(s, start, pos)[k].hi)
    decreases |s| - pos
  {
    if pos < |s| {
      if IsBoundary(s, pos) {
        var e := RunEnd(s, pos);
        ScanCuts(s, e, e);
        var rest := Scan(s, e, e);
        var r := Scan(s, start, pos);
        assert r == [Span(start, pos)] + rest;
        forall k | 0 <= k < |r| - 1
          ensures IsBoundary(s, r[k].hi) && r[k + 1].lo == RunEnd(s, r[k].hi)
        {
          if k > 0 {
            assert r[k] == rest[k - 1] && r[k + 1] == rest[k];
          } else {
            assert r[0] == Span(start, pos) && r[1] == rest[0];
          }
        }
      } else {
        ScanCuts(s, start, pos + 1);
        assert Scan(s, start, pos) == Scan(s, start, pos + 1);
      }
    }
  }

  /** Having passed `start..pos` without a match, the scan leaves no match inside a piece. */
  lemma {:induction false} ScanPieces(s: string, start: nat, pos: nat)
    requires start <= pos <= |s|
    requires forall i :: start <= i < pos ==> !IsBoundary(s, i)
    ensures Clear(s, Scan(s, start, pos))
    decreases |s| - pos
  {
    if pos < |s| {
      if IsBoundary(s, pos) {
        var e := RunEnd(s, pos);
        ScanPieces(s, e, e);
        ScanCutClear(s, start, pos);
      } else {
        ScanPieces(s, start, pos + 1);
        assert Scan(s, start, pos) == Scan(s, start, pos + 1);
      }
    }
  }

  /** No match starts inside any of the pieces. */
  ghost predicate Clear(s: string, spans: seq<Span>) {
    forall k, i :: 0 <= k < |spans| && spans[k].lo <= i < spans[k].hi ==> !IsBoundary(s, i)
  }

  /** A cut at `pos` keeps the pieces clear when the scan after the match is. */
  lemma ScanCutClear(s: string, start: nat, pos: nat)
    requires start <= pos < |s| && IsBoundary(s, pos)
    requires forall i :: start <= i < pos ==> !IsBoundary(s, i)
    requires Clear(s, Scan(s, RunEnd(s, pos), RunEnd(s, pos)))
    ensures Clear(s, Scan(s, start, pos))
  {
    var e := RunEnd(s, pos);
    assert Scan(s, start, pos) == [Span(start, pos)] + Scan(s, e, e);
    ClearCons(s, Span(start, pos), Scan(s, e, e));
  }

  lemma ClearCons(s: string, first: Span, rest: seq<Span>)
    requires forall i :: first.lo <= i < first.hi ==> !IsBoundary(s, i)
    requires Clear(s, rest)
    ensures Clear(s, [first] + rest)
  {
    var r := [first] + rest;
    forall k, i | 0 <= k < |r| && r[k].lo <= i < r[k].hi
      ensures !IsBoundary(s, i)
    {
      if k > 0 {
        assert r[k] == rest[k - 1];
      }
    }
  }

  /** The spans `Regex.Split` cuts `s` into (before the blank pieces are dropped). */
  function SplitSpans(s: string): (r: seq<Span>)
    ensures IsSplit(s, r)
  {
    ScanCuts(s, 0, 0);
    ScanPieces(s, 0, 0);
    Scan(s, 0, 0)
  }

  /** What `IsSplit` says about piece `k`. */
  lemma PieceFacts(s: string, a: seq<Span>, k: nat)
    requires IsSplit(s, a) && k < |a|
    ensures a[k].lo <= a[k].hi <= |s|
    ensures k < |a| - 1 ==> IsBoundary(s, a[k].hi) && a[k + 1].lo == RunEnd(s, a[k].hi)
    ensures k == |a| - 1 ==> a[k].hi == |s|
    ensures forall i :: a[k].lo <= i < a[k].hi ==> !IsBoundary(s, i)
  {
  }

  /** The cutting is determined by the text: only one sequence of pieces satisfies `IsSplit`. */
  lemma SplitUnique(s: string, a: seq<Span>, b: seq<Span>)
    requires IsSplit(s, a) && IsSplit(s, b)
    ensures a == b
  {
    SuffixUnique(s, a, b, 0);
  }

  lemma SuffixCons<T>(a: seq<T>, k: nat)
    requires k < |a|
    ensures a[k..] == [a[k]] + a[k + 1..]
  {
  }

  /** Two splits that agree on where piece `k` starts agree from `k` on. */
  lemma {:induction false} SuffixUnique(s: string, a: seq<Span>, b: seq<Span>, k: nat)
    requires IsSplit(s, a) && IsSplit(s, b)
    requires k < |a| && k < |b| && a[k].lo == b[k].lo
    ensures a[k..] == b[k..]
    decreases |a| - k
  {
    PieceFacts(s, a, k);
    PieceFacts(s, b, k);
    // Piece k ends at the first match at or after its start, or at the end of the text.
    if a[k].hi < b[k].hi {
      assert false;
    } else if b[k].hi < a[k].hi {
      assert false;
    }
    assert a[k] == b[k];
    if k < |a| - 1 && k < |b| - 1 {
      SuffixUnique(s, a, b, k + 1);
      SuffixCons(a, k);
      SuffixCons(b, k);
    } else if k < |a| - 1 {
      assert false;
    } else if k < |b| - 1 {
      assert false;
    }
  }

  function Pieces(s: string, spans: seq<Span>): (r: seq<string>)
    requires forall k :: 0 <= k < |spans| ==> spans[k].lo <= spans[k].hi <= |s|
    ensures |r| == |spans|
    ensures forall k :: 0 <= k < |r| ==> r[k] == s[spans[k].lo..spans[k].hi]
  {
    seq(|spans|, k requires 0 <= k < |spans| => s[spans[k].lo..spans[k].hi])
  }

  /** `.Where(s => !string.IsNullOrWhiteSpace(s))`. */
  function DropBlank(xs: seq<string>): (r: seq<string>)
    ensures |r| <= |xs|
    ensures forall x :: x in r ==> x in xs && !IsBlank(x)
    ensures forall x :: x in xs && !IsBlank(x) ==> x in r
    ensures (forall k :: 0 <= k < |xs| ==> !IsBlank(xs[k])) ==> r == xs
  {
    if |xs| == 0 then []
    else if IsBlank(xs[0]) then DropBlank(xs[1..])
    else [xs[0]] + DropBlank(xs[1..])
  }

  /**
    The filter keeps the pieces in their order and each non-blank piece as
    often as it occurs, so together the two clauses fix the result.
   */
  lemma {:induction false} DropBlankKeeps(xs: seq<string>)
    ensures IsSubsequence(DropBlank(xs), xs)
    ensures forall x :: multiset(DropBlank(xs))[x] == if IsBlank(x) then 0 else multiset(xs)[x]
    decreases |xs|
  {
    if |xs| > 0 {
      DropBlankKeeps(xs[1..]);
      assert xs == [xs[0]] + xs[1..];
      assert multiset(xs) == multiset([xs[0]]) + multiset(xs[1..]);
      var rest := DropBlank(xs[1..]);
      if !IsBlank(xs[0]) {
        assert DropBlank(xs)[1..] == rest;
      } else if |rest| > 0 {
        assert rest[0] in rest;
      }
    }
  }

  /** `SplitIntoSentences`. */
  function SplitIntoSentences(text: string): (r: seq<string>)
    ensures forall k :: 0 <= k < |r| ==> !IsBlank(r[k])
  {
    var spans := SplitSpans(text);
    DropBlank(Pieces(text, spans))
  }

  /** A piece after a match starts at the capital that follows the match. */
  lemma PieceStartsUpper(s: string, spans: seq<Span>, k: nat)
    requires IsSplit(s, spans) && 0 < k < |spans|
    ensures spans[k].lo < spans[k].hi && IsAsciiUpper(s[spans[k].lo])
  {
    PieceFacts(s, spans, k - 1);
    PieceFacts(s, spans, k);
    if k < |spans| - 1 {
      assert IsWhiteSpace(s[spans[k].hi]);
    }
  }

  /** A piece before a match ends in the terminator the match looks behind at. */
  lemma PieceEndsTerminator(s: string, spans: seq<Span>, k: nat)
    requires IsSplit(s, spans) && k < |spans| - 1
    ensures spans[k].lo < spans[k].hi && IsTerminator(s[spans[k].hi - 1])
  {
    PieceFacts(s, spans, k);
    if k > 0 {
      PieceStartsUpper(s, spans, k);
    }
  }

  /** The pieces of a text that is not blank start and end as the matches dictate. */
  lemma PiecesShape(text: string, spans: seq<Span>)
    requires !IsBlank(text) && IsSplit(text, spans)
    ensures var p := Pieces(text, spans);
      && (forall k :: 0 <= k < |p| - 1 ==> |p[k]| > 0 && IsTerminator(p[k][|p[k]| - 1]))
      && (forall k :: 0 < k < |p| ==> |p[k]| > 0 && IsAsciiUpper(p[k][0]))
      && (forall k :: 0 <= k < |p| ==> !IsBlank(p[k]))
  {
    PiecesStartUpper(text, spans);
    PiecesEndTerminator(text, spans);
    PiecesNotBlank(text, spans);
  }

  lemma PiecesStartUpper(text: string, spans: seq<Span>)
    requires IsSplit(text, spans)
    ensures var p := Pieces(text, spans);
      forall k :: 0 < k < |p| ==> |p[k]| > 0 && IsAsciiUpper(p[k][0])
  {
    var p := Pieces(text, spans);
    forall k | 0 < k < |p|
      ensures |p[k]| > 0 && IsAsciiUpper(p[k][0])
    {
      PieceStartsUpper(text, spans, k);
    }
  }

  lemma PiecesEndTerminator(text: string, spans: seq<Span>)
    requires IsSplit(text, spans)
    ensures var p := Pieces(text, spans);
      forall k :: 0 <= k < |p| - 1 ==> |p[k]| > 0 && IsTerminator(p[k][|p[k]| - 1])
  {
    var p := Pieces(text, spans);
    forall k | 0 <= k < |p| - 1
      ensures |p[k]| > 0 && IsTerminator(p[k][|p[k]| - 1])
    {
      PieceEndsTerminator(text, spans, k);
    }
  }

  /** No piece of a text that is not blank is blank: each ends in a terminator, starts with a capital, or is the whole text. */
  lemma PiecesNotBlank(text: string, spans: seq<Span>)
    requires !IsBlank(text) && IsSplit(text, spans)
    ensures var p := Pieces(text, spans);
      forall k :: 0 <= k < |p| ==> !IsBlank(p[k])
  {
    var p := Pieces(text, spans);
    forall k | 0 <= k < |p|
      ensures !IsBlank(p[k])
    {
      if k < |p| - 1 {
        PieceEndsTerminator(text, spans, k);
        assert !IsWhiteSpace(p[k][|p[k]| - 1]);
      } else if k > 0 {
        PieceStartsUpper(text, spans, k);
        assert !IsWhiteSpace(p[k][0]);
      } else {
        assert p[k] == text;
      }
    }
  }

  /**
    On text that is not blank nothing is dropped: the sentences are the
    pieces between the matches, every sentence but the last ends in `.`, `!`
    or `?`, and every sentence but the first starts with an ASCII capital.
   */
  lemma SentenceShape(text: string)
    requires !IsBlank(text)
    ensures var r := SplitIntoSentences(text);
      && |r| > 0
      && r == Pieces(text, SplitSpans(text))
      && (forall k :: 0 <= k < |r| - 1 ==> |r[k]| > 0 && IsTerminator(r[k][|r[k]| - 1]))
      && (forall k :: 0 < k < |r| ==> |r[k]| > 0 && IsAsciiUpper(r[k][0]))
  {
    var spans := SplitSpans(text);
    var p := Pieces(text, spans);
    PiecesShape(text, spans);
    assert SplitIntoSentences(text) == DropBlank(p);
    assert DropBlank(p) == p;
  }
}
