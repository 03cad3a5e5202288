/**
  `System.Guid`, kept opaque: a GUID is its 32 hexadecimal digits, in the
  order its canonical text shows them. `Format` is `Guid.ToString()` (the
  "D" format, lower-case) and `Parse` is `Guid.Parse` restricted to that
  format; the two are inverses. Generating a GUID (`Guid.NewGuid()`) is not
  modelled: fresh identifiers are passed in by the caller.
 */
module Guids {
  import opened Base

  type Nibble = n: int | 0 <= n < 16

  datatype GuidDigits = GuidDigits(digits: seq<Nibble>)

  /** A GUID: exactly 32 hexadecimal digits. */
  type Guid = g: GuidDigits | |g.digits| == 32 witness GuidDigits(seq(32, _ => 0))

  /** `Guid.Empty`. */
  const Empty: Guid := GuidDigits(seq(32, _ => 0))

  function HexChar(n: Nibble): char {
    "0123456789abcdef"[n]
  }

  predicate IsHexChar(c: char) {
    ('0' <= c <= '9') || ('a' <= c <= 'f') || ('A' <= c <= 'F')
  }

  function HexValue(c: char): Nibble
    requires IsHexChar(c)
  {
    if '0' <= c <= '9' then (c as int) - ('0' as int)
    else if 'a' <= c <= 'f' then (c as int) - ('a' as int) + 10
    else (c as int) - ('A' as int) + 10
  }

  function Hex(ds: seq<Nibble>): (s: string)
    ensures |s| == |ds|
  {
    seq(|ds|, i requires 0 <= i < |ds| => HexChar(ds[i]))
  }

  /** `Guid.ToString()`: 8-4-4-4-12 lower-case hexadecimal digits joined by dashes. */
  function Format(g: Guid): (s: string)
    ensures |s| == 36
    ensures s[8] == '-' && s[13] == '-' && s[18] == '-' && s[23] == '-'
  {
    var d := g.digits;
    Hex(d[..8]) + "-" + Hex(d[8..12]) + "-" + Hex(d[12..16]) + "-" + Hex(d[16..20]) + "-" + Hex(d[20..])
  }

  /** The 32 digit positions of a 36-character "D"-format text, dashes removed. */
  function DigitsOf(s: string): (h: string)
    requires |s| == 36
    ensures |h| == 32
  {
    s[..8] + s[9..13] + s[14..18] + s[19..23] + s[24..]
  }

  /** `Guid.Parse` on the "D" format; `None` where `Guid.Parse` throws `FormatException`. */
  function Parse(s: string): (r: Option<Guid>)
    ensures r.Some? ==> |s| == 36
  {
    if |s| == 36 && s[8] == '-' && s[13] == '-' && s[18] == '-' && s[23] == '-' then
      var h := DigitsOf(s);
      if forall i :: 0 <= i < 32 ==> IsHexChar(h[i]) then
        Some(GuidDigits(seq(32, i requires 0 <= i < 32 => HexValue(h[i]))))
      else None
    else None
  }

  /** `Nullable<Guid>.ToString()`: the empty string for null. */
  function IdText(id: Option<Guid>): string {
    match id
    case None => ""
    case Some(g) => Format(g)
  }

  lemma HexConcat(a: seq<Nibble>, b: seq<Nibble>)
    ensures Hex(a + b) == Hex(a) + Hex(b)
  {
  }

  /** Parsing the text of a GUID gives back that GUID. */
  lemma ParseFormat(g: Guid)
    ensures Parse(Format(g)) == Some(g)
  {
    var d := g.digits;
    var s := Format(g);
    var h := DigitsOf(s);
    assert s[..8] == Hex(d[..8]);
    assert s[9..13] == Hex(d[8..12]);
    assert s[14..18] == Hex(d[12..16]);
    assert s[19..23] == Hex(d[16..20]);
    assert s[24..] == Hex(d[20..]);
    HexConcat(d[..8], d[8..12]);
    HexConcat(d[..8] + d[8..12], d[12..16]);
    HexConcat(d[..8] + d[8..12] + d[12..16], d[16..20]);
    HexConcat(d[..8] + d[8..12] + d[12..16] + d[16..20], d[20..]);
    assert d[..8] + d[8..12] + d[12..16] + d[16..20] + d[20..] == d;
    assert h == Hex(d);
    assert forall i :: 0 <= i < 32 ==> IsHexChar(h[i]) && HexValue(h[i]) == d[i];
    assert seq(32, i requires 0 <= i < 32 => HexValue(h[i])) == d;
  }

  lemma HexCharValue(c: char)
    requires IsHexChar(c) && !('A' <= c <= 'F')
    ensures HexChar(HexValue(c)) == c
  {
  }

  /** Text that parses and has no upper-case digit is exactly the GUID's text. */
  lemma FormatParse(s: string, g: Guid)
    requires Parse(s) == Some(g)
    requires forall i :: 0 <= i < |s| ==> !('A' <= s[i] <= 'F')
    ensures Format(g) == s
  {
    var h := DigitsOf(s);
    var d := g.digits;
    DigitsOfSlices(s);
    DigitsUpperFree(s);
    HexDigits(h, d);
    assert Hex(d[..8]) == s[..8] && Hex(d[8..12]) == s[9..13] && Hex(d[12..16]) == s[14..18]
        && Hex(d[16..20]) == s[19..23] && Hex(d[20..]) == s[24..] by {
      HexSlices(d);
    }
    DashedParts(s);
  }

  /** The digit positions of a "D"-format text, segment by segment. */
  lemma DigitsOfSlices(s: string)
    requires |s| == 36
    ensures var h := DigitsOf(s);
      && h[..8] == s[..8] && h[8..12] == s[9..13] && h[12..16] == s[14..18]
      && h[16..20] == s[19..23] && h[20..] == s[24..]
  {
    var a := s[..8] + s[9..13];
    var b := a + s[14..18];
    var c := b + s[19..23];
    assert DigitsOf(s) == c + s[24..];
    assert c[..20] == c;
    assert b[..16] == b;
    assert a[..12] == a;
  }

  /** A digit of a "D"-format text is one of its characters. */
  lemma DigitsUpperFree(s: string)
    requires |s| == 36 && forall i :: 0 <= i < |s| ==> !('A' <= s[i] <= 'F')
    ensures var h := DigitsOf(s);
      forall i :: 0 <= i < 32 ==> !('A' <= h[i] <= 'F')
  {
    var h := DigitsOf(s);
    forall i | 0 <= i < 32
      ensures !('A' <= h[i] <= 'F')
    {
      if i < 8 { assert h[i] == s[i]; }
      else if i < 12 { assert h[i] == s[i + 1]; }
      else if i < 16 { assert h[i] == s[i + 2]; }
      else if i < 20 { assert h[i] == s[i + 3]; }
      else { assert h[i] == s[i + 4]; }
    }
  }

  /** Digits that parsed to `d` and have no upper-case letter are `Hex(d)`. */
  lemma HexDigits(h: string, d: seq<Nibble>)
    requires |h| == |d|
    requires forall i :: 0 <= i < |h| ==> IsHexChar(h[i]) && HexValue(h[i]) == d[i] && !('A' <= h[i] <= 'F')
    ensures Hex(d) == h
  {
    forall i | 0 <= i < |h|
      ensures HexChar(d[i]) == h[i]
    {
      HexCharValue(h[i]);
    }
  }

  lemma HexSlices(d: seq<Nibble>)
    requires |d| == 32
    ensures Hex(d[..8]) == Hex(d)[..8] && Hex(d[8..12]) == Hex(d)[8..12] && Hex(d[12..16]) == Hex(d)[12..16]
    ensures Hex(d[16..20]) == Hex(d)[16..20] && Hex(d[20..]) == Hex(d)[20..]
  {
  }

  /** A 36-character text with dashes at 8, 13, 18 and 23 is its five segments joined by dashes. */
  lemma DashedParts(s: string)
    requires |s| == 36 && s[8] == '-' && s[13] == '-' && s[18] == '-' && s[23] == '-'
    ensures s == s[..8] + "-" + s[9..13] + "-" + s[14..18] + "-" + s[19..23] + "-" + s[24..]
  {
  }

  /** The empty text, which a null identifier is written as, is not a GUID. */
  lemma ParseEmptyFails()
    ensures Parse("") == None
  {
  }
}
