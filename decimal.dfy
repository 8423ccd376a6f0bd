/** Decimal digit strings: Ruby's `String#to_i` on a run of ASCII digits and
    `Integer#to_s` on a non-negative integer. */
module Decimal {
  /** `\d` in a Ruby regular expression: an ASCII decimal digit */
  predicate IsDigit(c: char) {
    '0' <= c <= '9'
  }

  predicate AllDigits(s: string) {
    forall j :: 0 <= j < |s| ==> IsDigit(s[j])
  }

  function DigitValue(c: char): (v: nat)
    requires IsDigit(c)
    ensures v < 10
  {
    c as int - '0' as int
  }

  function DigitChar(v: nat): (c: char)
    requires v < 10
    ensures IsDigit(c) && DigitValue(c) == v
  {
    ('0' as int + v) as char
  }

  /** `String#to_i` on a string of digits; leading zeros add nothing */
  function ToI(s: string): nat
    requires AllDigits(s)
  {
    if s == [] then 0 else ToI(s[..|s| - 1]) * 10 + DigitValue(s[|s| - 1])
  }

  /** `Integer#to_s`: the decimal rendering, which `to_i` reads back */
  function ToS(n: nat): (s: string)
    ensures 1 <= |s| && AllDigits(s) && ToI(s) == n
    ensures n < 10 ==> |s| == 1
    ensures n < 100 ==> |s| <= 2
    ensures n < 1000 ==> |s| <= 3
  {
    if n < 10 then [DigitChar(n)]
    else
      var prefix := ToS(n / 10);
      var s := prefix + [DigitChar(n % 10)];
      assert s[..|s| - 1] == prefix;
      s
  }
}
