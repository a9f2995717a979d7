/** Decimal rendering of non-negative integers, as JavaScript's template
    strings print a number or a bigint (`${amount}`, `clear.toString()`),
    together with the parser it is the inverse of. */
module Decimal {

  predicate IsDigit(c: char) {
    '0' <= c <= '9'
  }

  function DigitChar(d: nat): (c: char)
    requires d < 10
    ensures IsDigit(c) && c as int - '0' as int == d
  {
    ('0' as int + d) as char
  }

  function DigitValue(c: char): (d: nat)
    requires IsDigit(c)
    ensures d < 10 && DigitChar(d) == c
  {
    c as int - '0' as int
  }

  /** The shortest decimal numeral of `n`, without sign or leading zeros. */
  function Digits(n: nat): (s: string)
    ensures |s| > 0
    ensures forall i :: 0 <= i < |s| ==> IsDigit(s[i])
    ensures n < 10 ==> s == [DigitChar(n)]
    ensures |s| > 1 ==> s[0] != '0'
    decreases n
  {
    if n < 10 then [DigitChar(n)] else Digits(n / 10) + [DigitChar(n % 10)]
  }

  /** The value of a string of decimal digits, most significant first. */
  function Parse(s: string): nat
    requires forall i :: 0 <= i < |s| ==> IsDigit(s[i])
    decreases |s|
  {
    if s == [] then 0 else 10 * Parse(s[..|s| - 1]) + DigitValue(s[|s| - 1])
  }

  /** Reading back a rendered numeral gives the number. */
  lemma {:induction false} ParseDigits(n: nat)
    ensures Parse(Digits(n)) == n
    decreases n
  {
    if n >= 10 {
      var s := Digits(n);
      assert s[..|s| - 1] == Digits(n / 10);
      ParseDigits(n / 10);
    }
  }
}
