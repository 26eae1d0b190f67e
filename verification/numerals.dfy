/** Decimal numerals: rendering a natural number the way Python's `str(n)`
    and `f"{n:02d}"` do, and reading a digit string back. */
module Numerals {

  predicate IsDigit(c: char) {
    '0' <= c <= '9'
  }

  predicate AllDigits(s: string) {
    forall i :: 0 <= i < |s| ==> IsDigit(s[i])
  }

  function DigitChar(d: nat): (c: char)
    requires d < 10
    ensures IsDigit(c)
  {
    ('0' as int + d) as char
  }

  function DigitValue(c: char): nat
    requires IsDigit(c)
  {
    c as int - '0' as int
  }

  /** The number a digit string denotes (leading zeros allowed). */
  function DecValue(s: string): nat
    requires AllDigits(s)
  {
    if s == [] then 0
    else DecValue(s[..|s| - 1]) * 10 + DigitValue(s[|s| - 1])
  }

  /** `str(n)`: the shortest decimal numeral of `n`. */
  function Dec(n: nat): (r: string)
    ensures |r| >= 1 && AllDigits(r)
    ensures DecValue(r) == n
    ensures r[0] == '0' ==> r == "0"
    decreases n
  {
    if n < 10 then [DigitChar(n)]
    else
      var r := Dec(n / 10) + [DigitChar(n % 10)];
      assert r[..|r| - 1] == Dec(n / 10);
      r
  }

  /** `f"{n:02d}"` for `n < 100`: exactly two digits, zero-padded. */
  function Pad2(n: nat): (r: string)
    requires n < 100
    ensures |r| == 2 && AllDigits(r)
    ensures DecValue(r) == n
  {
    if n < 10 then
      var r := "0" + Dec(n);
      assert r[..1] == "0";
      r
    else
      assert Dec(n) == Dec(n / 10) + [DigitChar(n % 10)];
      Dec(n)
  }

  lemma DigitsHaveNoSeparator(s: string, sep: char)
    requires AllDigits(s) && !IsDigit(sep)
    ensures sep !in s
  {
  }
}
