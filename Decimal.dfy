/** Decimal digit strings, as the pipeline uses them: the `\d` character class of the
    phone-cleaning pattern, Python's `int(s)` on a string of digits (what pandas'
    `astype('int64')` does to the Phone column) and Python's `str(n)` (what
    `astype(str)` does when the welcome recipients are formatted). */
module Decimal {

  predicate IsDigit(c: char) {
    '0' <= c <= '9'
  }

  predicate AllDigits(s: string) {
    forall i :: 0 <= i < |s| ==> IsDigit(s[i])
  }

  /** What `str(n)` can print for a natural number: digits, no superfluous leading zero. */
  predicate Canonical(s: string) {
    s != [] && AllDigits(s) && (s[0] == '0' ==> |s| == 1)
  }

  function DigitValue(c: char): (d: nat)
    requires IsDigit(c)
    ensures d < 10
  {
    c as int - '0' as int
  }

  function DigitChar(d: nat): (c: char)
    requires d < 10
    ensures IsDigit(c) && DigitValue(c) == d
  {
    ('0' as int + d) as char
  }

  function Pow10(k: nat): (p: nat)
    ensures p >= 1
  {
    if k == 0 then 1 else 10 * Pow10(k - 1)
  }

  /** `int(s)` for a non-empty string of ASCII digits (`int('')` raises, hence the
      requires). Its value is below 10^|s|. */
  function ParseDecimal(s: string): (n: nat)
    requires s != [] && AllDigits(s)
    ensures n < Pow10(|s|)
    decreases |s|
  {
    if |s| == 1 then DigitValue(s[0])
    else ParseDecimal(s[..|s| - 1]) * 10 + DigitValue(s[|s| - 1])
  }

  /** `str(n)` for a natural number. */
  function DecimalString(n: nat): (s: string)
    ensures Canonical(s)
  {
    if n < 10 then [DigitChar(n)] else DecimalString(n / 10) + [DigitChar(n % 10)]
  }

  /** `str(i)` for any integer: a minus sign before the digits of a negative number. */
  function IntString(i: int): (s: string)
    ensures i >= 0 ==> Canonical(s)
    ensures i < 0 ==> |s| > 1 && s[0] == '-' && Canonical(s[1..])
  {
    if i < 0 then "-" + DecimalString(-i) else DecimalString(i)
  }

  /** Printing a number and parsing it back gives the number. */
  lemma {:induction false} ParseDecimalString(n: nat)
    ensures ParseDecimal(DecimalString(n)) == n
  {
    if n >= 10 {
      var s := DecimalString(n);
      var t := DecimalString(n / 10);
      assert s == t + [DigitChar(n % 10)];
      assert s[..|s| - 1] == t;
      ParseDecimalString(n / 10);
    }
  }

  /** A digit string whose first digit is not zero has a positive value. */
  lemma {:induction false} LeadingNonZeroPositive(s: string)
    requires s != [] && AllDigits(s) && s[0] != '0'
    ensures ParseDecimal(s) >= 1
    decreases |s|
  {
    if |s| > 1 {
      LeadingNonZeroPositive(s[..|s| - 1]);
    }
  }

  /** Parsing a canonical digit string and printing the number gives the string back. */
  lemma {:induction false} DecimalStringParse(s: string)
    requires Canonical(s)
    ensures DecimalString(ParseDecimal(s)) == s
    decreases |s|
  {
    if |s| > 1 {
      var t := s[..|s| - 1];
      var d := DigitValue(s[|s| - 1]);
      LeadingNonZeroPositive(t);
      DecimalStringParse(t);
      var n := ParseDecimal(s);
      assert n == ParseDecimal(t) * 10 + d;
      assert n / 10 == ParseDecimal(t) && n % 10 == d;
      assert DigitChar(d) == s[|s| - 1];
      assert s == t + [s[|s| - 1]];
    } else {
      assert DigitChar(DigitValue(s[0])) == s[0];
    }
  }

  /** A leading zero does not change the value: `int('0415')` is `int('415')`. */
  lemma {:induction false} LeadingZeroLost(s: string)
    requires s != [] && AllDigits(s)
    ensures AllDigits("0" + s) && ParseDecimal("0" + s) == ParseDecimal(s)
    decreases |s|
  {
    var z := "0" + s;
    assert forall i :: 0 <= i < |z| ==> IsDigit(z[i]);
    if |s| > 1 {
      assert z[..|z| - 1] == "0" + s[..|s| - 1];
      LeadingZeroLost(s[..|s| - 1]);
    } else {
      assert z[..|z| - 1] == "0";
    }
  }
}
