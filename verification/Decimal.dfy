/** Decimal rendering of naturals, as `String(n)` and template literals print them. */
module Decimal {
  function Digit(d: nat): (c: char)
    requires d < 10
    ensures c as int == '0' as int + d
  {
    ['0', '1', '2', '3', '4', '5', '6', '7', '8', '9'][d]
  }

  function NatToString(n: nat): (s: string)
    ensures |s| > 0
    ensures forall i :: 0 <= i < |s| ==> '0' <= s[i] <= '9'
  {
    if n < 10 then [Digit(n)] else NatToString(n / 10) + [Digit(n % 10)]
  }

  /** The last digit, and the digits before it. */
  lemma DigitsOf(n: nat)
    ensures var s := NatToString(n);
      && s[|s| - 1] == Digit(n % 10)
      && s[..|s| - 1] == if n < 10 then "" else NatToString(n / 10)
  {
  }

  lemma DigitInjective(a: nat, b: nat)
    requires a < 10 && b < 10 && Digit(a) == Digit(b)
    ensures a == b
  {
  }

  lemma {:induction false} NatToStringInjective(m: nat, n: nat)
    requires NatToString(m) == NatToString(n)
    ensures m == n
  {
    DigitsOf(m);
    DigitsOf(n);
    DigitInjective(m % 10, n % 10);
    if m >= 10 && n >= 10 {
      NatToStringInjective(m / 10, n / 10);
    }
  }
}
