/** Decimal digits and numerals. */
module Decimal {

  predicate IsDigit(c: char) { '0' <= c <= '9' }

  function DigitValue(c: char): int
    requires IsDigit(c)
  {
    c as int - '0' as int
  }

  function DigitChar(n: int): char
    requires 0 <= n <= 9
  {
    "0123456789"[n]
  }

  predicate AllDigits(s: string) {
    forall i :: 0 <= i < |s| ==> IsDigit(s[i])
  }

  function ToDecimal(n: nat): string {
    if n < 10 then [DigitChar(n)] else ToDecimal(n / 10) + [DigitChar(n % 10)]
  }

  function IntText(n: int): string {
    if n < 0 then "-" + ToDecimal(-n) else ToDecimal(n)
  }

  /** The number that a string of digits denotes; the empty string denotes 0. */
  function ValueOf(s: string): nat
    requires AllDigits(s)
  {
    if s == "" then 0 else 10 * ValueOf(s[..|s| - 1]) + DigitValue(s[|s| - 1])
  }

  lemma DigitRoundTrip(c: char)
    requires IsDigit(c)
    ensures 0 <= DigitValue(c) <= 9 && DigitChar(DigitValue(c)) == c
  {
  }

  lemma DigitCharIsDigit(n: int)
    requires 0 <= n <= 9
    ensures IsDigit(DigitChar(n)) && DigitValue(DigitChar(n)) == n
  {
  }

  /** A printed number reads back as itself and has no leading zero. */
  lemma {:induction false} DecimalRoundTrip(n: nat)
    ensures AllDigits(ToDecimal(n)) && ValueOf(ToDecimal(n)) == n
    ensures ToDecimal(n) != "" && (n > 0 ==> ToDecimal(n)[0] != '0')
  {
    DigitCharIsDigit(n % 10);
    if n < 10 {
      DigitCharIsDigit(n);
      var s := [DigitChar(n)];
      assert s[..|s| - 1] == "" && ValueOf(s) == 10 * ValueOf("") + DigitValue(s[0]);
      assert n > 0 ==> DigitValue(s[0]) != 0;
    } else {
      DecimalRoundTrip(n / 10);
      var s := ToDecimal(n);
      assert s[..|s| - 1] == ToDecimal(n / 10);
    }
  }
}
