/** Decimal rendering of natural numbers, as an f-string renders a Python int,
    together with the parser that inverts it. */
module Decimal {

  /** True iff every character of s is an ASCII decimal digit. */
  predicate IsDigits(s: string) {
    forall i :: 0 <= i < |s| ==> '0' <= s[i] <= '9'
  }

  /** The numeric value of a decimal digit character. */
  function DigitValue(c: char): (d: nat)
    requires '0' <= c <= '9'
    ensures d < 10
  {
    c as int - '0' as int
  }

  /** The character of a decimal digit. */
  function DigitChar(d: nat): (c: char)
    requires d < 10
    ensures '0' <= c <= '9'
    ensures DigitValue(c) == d
  {
    ('0' as int + d) as char
  }

  /** The decimal text of n: most significant digit first, no sign, no leading zero. */
  function Show(n: nat): (s: string)
    ensures |s| > 0 && IsDigits(s)
    ensures s[0] == '0' <==> n == 0
    decreases n
  {
    if n < 10 then [DigitChar(n)] else Show(n / 10) + [DigitChar(n % 10)]
  }

  /** The number a string of decimal digits denotes. */
  function Parse(s: string): nat
    requires IsDigits(s)
    decreases |s|
  {
    if |s| == 0 then 0 else Parse(s[..|s| - 1]) * 10 + DigitValue(s[|s| - 1])
  }

  /** Parsing the rendered text gives the number back. */
  lemma {:induction false} ParseShow(n: nat)
    ensures Parse(Show(n)) == n
    decreases n
  {
    if n >= 10 {
      var s := Show(n);
      assert s[..|s| - 1] == Show(n / 10);
      ParseShow(n / 10);
    }
  }

  /** Distinct numbers render as distinct texts. */
  lemma ShowInjective(a: nat, b: nat)
    ensures Show(a) == Show(b) <==> a == b
  {
    if Show(a) == Show(b) {
      ParseShow(a);
      ParseShow(b);
    }
  }
}
