/**
 * Decimal digits as the codec reads and writes them: `format!("{}", n)` for
 * printing a count or a rank number, and the running `c * 10 + d` that rank
 * decoding and `str::parse` use to read one.  Only ASCII digits are modelled.
 */
module Decimal {

  predicate IsDigit(c: char) {
    '0' <= c <= '9'
  }

  predicate AllDigits(s: string) {
    forall i :: 0 <= i < |s| ==> IsDigit(s[i])
  }

  function DigitValue(c: char): (d: nat)
    requires IsDigit(c)
    ensures d < 10
  {
    c as int - '0' as int
  }

  function DigitChar(d: nat): (c: char)
    requires d < 10
    ensures IsDigit(c) && DigitValue(c) == d
  {
    ('0' as int + d) as char
  }

  /** The number a digit string denotes, read left to right: each digit multiplies the value so far by ten. */
  function Value(s: string): nat
    requires AllDigits(s)
  {
    if s == [] then 0 else Value(s[..|s| - 1]) * 10 + DigitValue(s[|s| - 1])
  }

  /** Decimal rendering without leading zeros, as `format!("{}", n)` prints an unsigned integer. */
  function Show(n: nat): (s: string)
    ensures |s| >= 1 && AllDigits(s)
    ensures Value(s) == n
    ensures s[0] == '0' ==> n == 0
    ensures n < 10 <==> |s| == 1
    ensures 10 <= n < 100 <==> |s| == 2
    decreases n
  {
    if n < 10 then [DigitChar(n)]
    else
      var prefix := Show(n / 10);
      var s := prefix + [DigitChar(n % 10)];
      assert s[..|s| - 1] == prefix;
      s
  }

  /** One or two digits, as `\d{1,2}` matches, always fit in a `u8`. */
  lemma SmallValue(s: string)
    requires AllDigits(s) && |s| <= 2
    ensures Value(s) < 100
  {
    if |s| == 2 {
      assert AllDigits(s[..1]);
      assert Value(s[..1]) == DigitValue(s[0]);
    }
  }
}
