/** Decimal numerals: std::to_string on natural numbers, and the number a string of digits denotes. */
module Decimal {

  predicate IsDigit(c: char) { '0' <= c <= '9' }

  function ToString(n: nat): (s: string)
    ensures s != "" && forall i :: 0 <= i < |s| ==> IsDigit(s[i])
  {
    var last := ['0' + (n % 10) as char];
    if n < 10 then last else ToString(n / 10) + last
  }

  function DigitValue(c: char): (d: nat)
    requires IsDigit(c)
    ensures d < 10
  {
    (c as int) - ('0' as int)
  }

  function DigitsValue(s: string): nat
    requires forall i :: 0 <= i < |s| ==> IsDigit(s[i])
  {
    if s == "" then 0 else DigitsValue(s[..|s| - 1]) * 10 + DigitValue(s[|s| - 1])
  }

  lemma {:induction false} ValueOfString(n: nat)
    ensures DigitsValue(ToString(n)) == n
  {
    if n >= 10 {
      ValueOfString(n / 10);
      assert ToString(n)[..|ToString(n)| - 1] == ToString(n / 10);
    }
  }
}
