/**
  Option/Result wrappers and the pieces of the .NET base library the model
  relies on: the white-space test behind `\s`, `string.IsNullOrWhiteSpace`
  and `TrimEnd`, and `string.Join(" ", …)`.

  A .NET string is modelled as `seq<char>`.
 */
module Base {

  /** A nullable reference or `Nullable<T>`: `None` is `null`. */
  datatype Option<+T> = None | Some(value: T) {

    /** The value, or `default` when null (C# `??`). */
    function GetOr(default: T): T {
      match this
      case Some(v) => v
      case None => default
    }
  }

  /** An operation that either returns a value or throws `error`. */
  datatype Result<+R, +E> = Success(value: R) | Failure(error: E)

  /**
    `Char.IsWhiteSpace`: the separators of Unicode categories Zs, Zl and Zp
    plus U+0009..U+000D and U+0085. The regular-expression class `\s`
    (`[\f\n\r\t\v\x85\p{Z}]`) denotes the same set, and `TrimEnd()` trims
    exactly these characters.
   */
  predicate IsWhiteSpace(c: char) {
    var n := c as int;
    || (0x09 <= n <= 0x0D)
    || n == 0x20
    || n == 0x85
    || n == 0xA0
    || n == 0x1680
    || (0x2000 <= n <= 0x200A)
    || n == 0x2028
    || n == 0x2029
    || n == 0x202F
    || n == 0x205F
    || n == 0x3000
  }

  /** Every character is white space (true of the empty string). */
  predicate IsBlank(s: string) {
    forall i :: 0 <= i < |s| ==> IsWhiteSpace(s[i])
  }

  /** `string.IsNullOrWhiteSpace`. */
  predicate IsNullOrWhiteSpace(s: Option<string>) {
    s.None? || IsBlank(s.value)
  }

  /** `string.TrimEnd()`: the longest prefix that does not end in white space. */
  function TrimEnd(s: string): (r: string)
    ensures |r| <= |s| && r == s[..|r|]
    ensures forall i :: |r| <= i < |s| ==> IsWhiteSpace(s[i])
    ensures |r| == 0 || !IsWhiteSpace(r[|r| - 1])
    decreases |s|
  {
    if |s| > 0 && IsWhiteSpace(s[|s| - 1]) then TrimEnd(s[..|s| - 1]) else s
  }

  /** Appending a space never changes the trimmed text. */
  lemma TrimEndSpace(s: string)
    ensures TrimEnd(s + " ") == TrimEnd(s)
  {
    assert (s + " ")[..|s|] == s;
  }

  /** A string with a non-white-space character keeps it when trimmed. */
  lemma TrimEndNotBlank(s: string)
    requires !IsBlank(s)
    ensures |TrimEnd(s)| > 0
  {
  }

  /** The sum of the lengths of `xs` (joining separators not counted). */
  function SumLen(xs: seq<string>): nat
  {
    if |xs| == 0 then 0 else SumLen(xs[..|xs| - 1]) + |xs[|xs| - 1]|
  }

  /** `string.Join(" ", xs)`. */
  function Join(xs: seq<string>): string
  {
    if |xs| == 0 then ""
    else if |xs| == 1 then xs[0]
    else Join(xs[..|xs| - 1]) + " " + xs[|xs| - 1]
  }

  /** The items followed by one space each: what prepending `item + " "` builds. */
  function Spaced(xs: seq<string>): string
  {
    if |xs| == 0 then "" else xs[0] + " " + Spaced(xs[1..])
  }

  /** The joined text is the items plus one space between each pair. */
  lemma {:induction false} JoinLength(xs: seq<string>)
    requires |xs| > 0
    ensures |Join(xs)| == SumLen(xs) + |xs| - 1
  {
    if |xs| > 1 {
      JoinLength(xs[..|xs| - 1]);
    }
  }

  /** Joining a non-empty tail after a head item puts one space between them. */
  lemma {:induction false} JoinCons(x: string, ys: seq<string>)
    requires |ys| > 0
    ensures Join([x] + ys) == x + " " + Join(ys)
    decreases |ys|
  {
    var xs := [x] + ys;
    if |ys| > 1 {
      assert xs[..|xs| - 1] == [x] + ys[..|ys| - 1];
      JoinCons(x, ys[..|ys| - 1]);
    } else {
      assert xs[..|xs| - 1] == [x];
    }
  }

  /** The prepend-built text is the joined text plus a trailing space. */
  lemma {:induction false} SpacedIsJoin(xs: seq<string>)
    requires |xs| > 0
    ensures Spaced(xs) == Join(xs) + " "
    decreases |xs|
  {
    if |xs| > 1 {
      SpacedIsJoin(xs[1..]);
      assert xs == [xs[0]] + xs[1..];
      JoinCons(xs[0], xs[1..]);
    }
  }

  /** The running sum after appending one item. */
  lemma SumLenAppend(xs: seq<string>, x: string)
    ensures SumLen(xs + [x]) == SumLen(xs) + |x|
  {
    assert (xs + [x])[..|xs|] == xs;
  }

  /** A suffix sum splits off its last item. */
  lemma SumLenSuffix(xs: seq<string>, j: nat)
    requires j < |xs|
    ensures SumLen(xs[j..]) == SumLen(xs[..|xs| - 1][j..]) + |xs[|xs| - 1]|
  {
    assert xs[j..] == xs[..|xs| - 1][j..] + [xs[|xs| - 1]];
    SumLenAppend(xs[..|xs| - 1][j..], xs[|xs| - 1]);
  }

  /** `s` begins with `p`. */
  predicate StartsWith(s: string, p: string) {
    |p| <= |s| && s[..|p|] == p
  }

  /** `a` is `b` with some elements left out, in the order `b` has them. */
  ghost predicate IsSubsequence<T>(a: seq<T>, b: seq<T>)
    decreases |b|
  {
    if |a| == 0 then true
    else if |b| == 0 then false
    else if a[0] == b[0] then IsSubsequence(a[1..], b[1..])
    else IsSubsequence(a, b[1..])
  }

  /** Appending the same element to both sides keeps a subsequence, and so does appending to the longer side only. */
  lemma {:induction false} SubsequenceSnoc<T>(a: seq<T>, b: seq<T>, x: T)
    requires IsSubsequence(a, b)
    ensures IsSubsequence(a + [x], b + [x])
    ensures IsSubsequence(a, b + [x])
    decreases |b|
  {
    assert |b| > 0 ==> (b + [x])[1..] == b[1..] + [x];
    assert |a| > 0 ==> (a + [x])[1..] == a[1..] + [x];
    if |b| == 0 {
      assert a + [x] == [x];
      assert [x][1..] == [];
    } else if |a| == 0 {
      SubsequenceSnoc(a, b[1..], x);
      assert a + [x] == [x];
      assert [x][1..] == [];
    } else if a[0] == b[0] {
      SubsequenceSnoc(a[1..], b[1..], x);
    } else {
      SubsequenceSnoc(a, b[1..], x);
    }
  }
}
