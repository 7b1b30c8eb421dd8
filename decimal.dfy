/** Python's `str(n)` for an integer, and its inverse on digit strings. */
module Decimal {

  predicate IsDigit(c: char) {
    '0' <= c <= '9'
  }

  predicate AllDigits(s: string) {
    forall i :: 0 <= i < |s| ==> IsDigit(s[i])
  }

  function DigitChar(d: nat): (c: char)
    requires d < 10
    ensures IsDigit(c) && c as int - '0' as int == d
  {
    (('0' as int) + d) as char
  }

  function DigitValue(c: char): nat
    requires IsDigit(c)
  {
    c as int - '0' as int
  }

  /** The decimal digits of a natural number, most significant first, with no leading zero. */
  function Digits(n: nat): (s: string)
    ensures |s| >= 1 && AllDigits(s)
    decreases n
  {
    if n < 10 then [DigitChar(n)] else Digits(n / 10) + [DigitChar(n % 10)]
  }

  /** `str(n)`: a minus sign before the digits of a negative number. */
  function DecimalString(n: int): string
  {
    if n < 0 then "-" + Digits(-n) else Digits(n)
  }

  /** The value of a digit string (the partner of Digits). */
  function ParseDigits(s: string): nat
    requires AllDigits(s)
  {
    if s == [] then 0 else ParseDigits(s[..|s| - 1]) * 10 + DigitValue(s[|s| - 1])
  }

  lemma {:induction false} ParseDigitsInverse(n: nat)
    ensures ParseDigits(Digits(n)) == n
    decreases n
  {
    var s := Digits(n);
    if n >= 10 {
      ParseDigitsInverse(n / 10);
      assert s[..|s| - 1] == Digits(n / 10);
    }
  }

  lemma DigitsInjective(a: nat, b: nat)
    requires Digits(a) == Digits(b)
    ensures a == b
  {
    ParseDigitsInverse(a);
    ParseDigitsInverse(b);
  }

  /** A four-digit number prints as exactly four digit characters. */
  lemma FourDigits(n: nat)
    requires 1000 <= n <= 9999
    ensures |DecimalString(n)| == 4 && AllDigits(DecimalString(n))
  {
    var a, b, c := n / 10, n / 100, n / 1000;
    assert b == a / 10 && c == b / 10;
    assert 100 <= a && 10 <= b && 1 <= c < 10;
    assert |Digits(c)| == 1;
    assert |Digits(b)| == 2;
    assert |Digits(a)| == 3;
  }

  lemma TwoDigits(n: nat)
    requires 10 <= n <= 99
    ensures DecimalString(n) == [DigitChar(n / 10), DigitChar(n % 10)]
  {
    assert Digits(n / 10) == [DigitChar(n / 10)];
  }

  /** A two-digit number prints as its two digit characters. */
  lemma TwoDigitsLiteral(n: nat, hi: char, lo: char)
    requires 10 <= n <= 99 && hi as int == '0' as int + n / 10 && lo as int == '0' as int + n % 10
    ensures DecimalString(n) == [hi, lo]
  {
    TwoDigits(n);
  }
}
