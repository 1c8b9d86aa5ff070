/**
 * The pieces of JavaScript number semantics that the calculation and
 * formatting code relies on, for integer-valued numbers.
 *
 * `Math.floor(x / 100)` needs no helper: for a positive divisor Dafny's `/`
 * on `int` already rounds toward negative infinity. JavaScript's `%`, on the
 * other hand, truncates toward zero, so it is modelled here by `Rem100`.
 */
module JsNumber {

  /** JavaScript's `a % 100` for an integer `a` (the only remainder the
      calculation and formatting code takes): the remainder of a division
      truncated toward zero, so it takes the sign of the dividend. For a
      negative dividend it is 0 on a multiple of 100 and Dafny's Euclidean
      `%` minus 100 otherwise. */
  function Rem100(a: int): (r: int)
    ensures a >= 0 ==> r == a % 100
    ensures a < 0 ==> -100 < r <= 0
    ensures a < 0 ==> r == (if a % 100 == 0 then 0 else a % 100 - 100)
  {
    if a >= 0 then a % 100 else -((-a) % 100)
  }

  predicate IsDigit(c: char) {
    '0' <= c <= '9'
  }

  predicate AllDigits(s: string) {
    forall i :: 0 <= i < |s| ==> IsDigit(s[i])
  }

  function DigitChar(d: int): (c: char)
    requires 0 <= d < 10
    ensures IsDigit(c) && c as int - '0' as int == d
  {
    (d + '0' as int) as char
  }

  function DigitValue(c: char): (d: int)
    requires IsDigit(c)
    ensures 0 <= d < 10 && DigitChar(d) == c
  {
    c as int - '0' as int
  }

  /** The number a string of decimal digits denotes. */
  function DigitsValue(s: string): nat
    requires AllDigits(s)
  {
    if s == [] then 0 else DigitsValue(s[..|s| - 1]) * 10 + DigitValue(s[|s| - 1])
  }

  /** `n.toString()` for a non-negative integer `n`: its decimal digits,
      without leading zeros. */
  function NatToString(n: nat): (s: string)
    ensures |s| >= 1 && AllDigits(s)
    ensures |s| > 1 ==> s[0] != '0'
    ensures DigitsValue(s) == n
  {
    if n < 10 then [DigitChar(n)]
    else
      var prefix := NatToString(n / 10);
      assert (prefix + [DigitChar(n % 10)])[..|prefix|] == prefix;
      prefix + [DigitChar(n % 10)]
  }

  /** `i.toString()` for any integer `i`: a minus sign before the digits of a
      negative number. */
  function IntToString(i: int): (s: string)
    ensures |s| >= 1 && (s[0] == '-' <==> i < 0)
    ensures i >= 0 ==> s == NatToString(i)
    ensures i < 0 ==> s == "-" + NatToString(-i)
  {
    if i < 0 then "-" + NatToString(-i) else NatToString(i)
  }

  /** `s.padStart(width, fill)` with a single-character fill: `fill` is
      prepended until the string is `width` long; a longer string is kept. */
  function PadStart(s: string, width: nat, fill: char): (r: string)
    ensures |r| == if |s| >= width then |s| else width
    ensures r[|r| - |s|..] == s
    ensures forall i :: 0 <= i < |r| - |s| ==> r[i] == fill
    decreases width - |s|
  {
    if |s| >= width then s else PadStart([fill] + s, width, fill)
  }
}
