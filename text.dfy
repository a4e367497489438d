/** The few pieces of .NET string behaviour the supervisor relies on:
    decimal rendering of integers inside interpolated messages, and
    `string.IsNullOrWhiteSpace`. */
module Text {

  predicate IsDigit(c: char) { '0' <= c <= '9' }

  /** The value of a decimal digit character. */
  function DigitValue(c: char): int { c as int - '0' as int }

  function DigitChar(d: int): (c: char)
    requires 0 <= d < 10
    ensures IsDigit(c) && DigitValue(c) == d
  {
    ('0' as int + d) as char
  }

  /** The number a string of decimal digits denotes, read most significant digit first. */
  function NatValue(s: string): int
    decreases |s|
  {
    if s == [] then 0 else 10 * NatValue(s[..|s| - 1]) + DigitValue(s[|s| - 1])
  }

  /** The number a rendering with an optional leading minus sign denotes. */
  function IntValue(s: string): int
  {
    if 0 < |s| && s[0] == '-' then -NatValue(s[1..]) else NatValue(s)
  }

  /** Decimal rendering of a natural number: the digits of n, without leading zeros. */
  function NatToString(n: nat): (s: string)
    ensures 0 < |s|
    ensures forall i | 0 <= i < |s| :: IsDigit(s[i])
    ensures NatValue(s) == n
    ensures s[0] == '0' ==> s == "0"
    decreases n
  {
    if n < 10 then
      var s := [DigitChar(n)];
      assert s[..0] == [];
      s
    else
      var t := NatToString(n / 10);
      var s := t + [DigitChar(n % 10)];
      assert s[..|s| - 1] == t;
      s
  }

  /** What `$"{i}"` produces for an `int` under the invariant culture: a
      hyphen-minus for negative values, then the decimal digits of the
      magnitude. The rendering denotes i, so
      different integers render differently. */
  function IntToString(i: int): (s: string)
    ensures 0 < |s|
    ensures i < 0 <==> s[0] == '-'
    ensures forall k | 0 < k < |s| :: IsDigit(s[k])
    ensures i >= 0 ==> IsDigit(s[0])
    ensures IntValue(s) == i
    ensures var d := if i < 0 then 1 else 0; |s| > d && (s[d] == '0' ==> s == "0")
  {
    if i < 0 then
      var s := "-" + NatToString(-i);
      assert s[1..] == NatToString(-i);
      s
    else NatToString(i)
  }

  /** `char.IsWhiteSpace`: the Unicode space separators, line and paragraph
      separators, and the control characters U+0009 to U+000D and U+0085. */
  predicate IsWhiteSpace(c: char)
  {
    || '\U{9}' <= c <= '\U{D}'
    || c == ' ' || c == '\U{85}' || c == '\U{A0}' || c == '\U{1680}'
    || '\U{2000}' <= c <= '\U{200A}'
    || c == '\U{2028}' || c == '\U{2029}' || c == '\U{202F}' || c == '\U{205F}' || c == '\U{3000}'
  }

  /** `string.IsNullOrWhiteSpace` on a non-null string, scanning from the
      front: it holds exactly when every character is white space, so in
      particular of the empty string. */
  predicate IsBlank(s: string): (b: bool)
    ensures b <==> forall i | 0 <= i < |s| :: IsWhiteSpace(s[i])
    decreases |s|
  {
    s == [] || (IsWhiteSpace(s[0]) && IsBlank(s[1..]))
  }
}
