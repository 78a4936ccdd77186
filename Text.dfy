/** String primitives the three components share: an optional value (JavaScript's
    `undefined`), lower-casing, `String.prototype.indexOf` and the decimal rendering
    of a template literal `${n}`. */
module Text {

  datatype Option<T> = None | Some(value: T)

  /** `toLowerCase` on one character, restricted to the ASCII letters, so that
      lower-casing never changes the length of a string. */
  function Lower(c: char): char
  {
    if 'A' <= c <= 'Z' then (c as int + 32) as char else c
  }

  /** `s.toLowerCase()`: the character-wise map of `Lower`. */
  function LowerStr(s: string): (r: string)
    ensures |r| == |s|
    ensures forall i :: 0 <= i < |s| ==> r[i] == Lower(s[i])
  {
    seq(|s|, i requires 0 <= i < |s| => Lower(s[i]))
  }

  lemma LowerIdempotent(s: string)
    ensures LowerStr(LowerStr(s)) == LowerStr(s)
  {
  }

  lemma LowerSlice(s: string, i: nat, j: nat)
    requires i <= j <= |s|
    ensures LowerStr(s)[i..j] == LowerStr(s[i..j])
  {
  }

  /** `needle` starts at position `i` of `hay`. */
  predicate OccursAt(hay: string, needle: string, i: int)
  {
    0 <= i && i + |needle| <= |hay| && hay[i..i + |needle|] == needle
  }

  /** A character absent from positions `lo` to `hi` of `s` occurs at none of them. */
  lemma CharAbsent(s: string, c: char, lo: int, hi: int)
    requires forall k :: lo <= k < hi && 0 <= k < |s| ==> s[k] != c
    ensures forall j :: lo <= j < hi ==> !OccursAt(s, [c], j)
  {
    forall j | lo <= j < hi
      ensures !OccursAt(s, [c], j)
    {
      if 0 <= j < |s| {
        assert s[j..j + 1][0] == s[j];
      }
    }
  }

  /** `sub` is a substring of `s` once both are lower-cased. */
  ghost predicate ContainsIgnoringCase(s: string, sub: string)
  {
    exists i :: OccursAt(LowerStr(s), LowerStr(sub), i)
  }

  /** `hay.indexOf(needle)`: the first position at which `needle` occurs, or -1. */
  function IndexOf(hay: string, needle: string): (r: int)
    ensures r == -1 <==> forall i :: !OccursAt(hay, needle, i)
    ensures r != -1 ==> OccursAt(hay, needle, r) && forall j :: 0 <= j < r ==> !OccursAt(hay, needle, j)
  {
    IndexOfFrom(hay, needle, 0)
  }

  /** The search behind `IndexOf`, trying the positions from `from` upwards. */
  function IndexOfFrom(hay: string, needle: string, from: nat): (r: int)
    decreases |hay| - from
    ensures r == -1 || (from <= r && OccursAt(hay, needle, r))
    ensures r == -1 ==> forall i :: from <= i ==> !OccursAt(hay, needle, i)
    ensures r != -1 ==> forall j :: from <= j < r ==> !OccursAt(hay, needle, j)
  {
    if from + |needle| > |hay| then -1
    else if hay[from..from + |needle|] == needle then from
    else IndexOfFrom(hay, needle, from + 1)
  }

  predicate IsDigit(c: char)
  {
    '0' <= c <= '9'
  }

  function DigitChar(d: nat): (c: char)
    requires d < 10
    ensures IsDigit(c)
  {
    ('0' as int + d) as char
  }

  /** The decimal rendering JavaScript gives a non-negative integer in `${n}`. */
  function Decimal(n: nat): (s: string)
    ensures |s| >= 1
    ensures forall i :: 0 <= i < |s| ==> IsDigit(s[i])
    ensures |s| > 1 ==> s[0] != '0'
  {
    if n < 10 then [DigitChar(n)] else Decimal(n / 10) + [DigitChar(n % 10)]
  }

  /** The number a string of digits denotes. */
  function DecimalValue(s: string): nat
    requires forall i :: 0 <= i < |s| ==> IsDigit(s[i])
  {
    if s == [] then 0 else DecimalValue(s[..|s| - 1]) * 10 + DigitValue(s[|s| - 1])
  }

  function DigitValue(c: char): (d: nat)
    requires IsDigit(c)
    ensures d < 10 && DigitChar(d) == c
  {
    c as int - '0' as int
  }

  /** Reading back the rendering of `n` gives `n`: distinct counts render differently. */
  lemma {:induction false} DecimalRoundTrip(n: nat)
    ensures DecimalValue(Decimal(n)) == n
  {
    if n >= 10 {
      var s := Decimal(n);
      assert s[..|s| - 1] == Decimal(n / 10);
      DecimalRoundTrip(n / 10);
    }
  }

  lemma DecimalInjective(a: nat, b: nat)
    ensures Decimal(a) == Decimal(b) ==> a == b
  {
    DecimalRoundTrip(a);
    DecimalRoundTrip(b);
  }
}
