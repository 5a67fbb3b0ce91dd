/** Decimal text of whole numbers, as printed by a template literal and read back by `Number`. */
module Decimal {

  predicate IsDigit(c: char) { '0' <= c <= '9' }

  function Digit(d: nat): (c: char)
    requires d < 10
    ensures IsDigit(c) && c as int == '0' as int + d
  {
    '0' + d as char
  }

  function DigitValue(c: char): (d: nat)
    requires IsDigit(c)
    ensures d < 10
  {
    (c - '0') as int
  }

  predicate IsDecimal(s: string) {
    s != "" && forall c :: c in s ==> IsDigit(c)
  }

  function ToText(n: nat): (s: string)
    ensures IsDecimal(s)
  {
    if n < 10 then [Digit(n)] else ToText(n / 10) + [Digit(n % 10)]
  }

  function Value(s: string): nat
    requires forall c :: c in s ==> IsDigit(c)
  {
    if s == "" then 0 else 10 * Value(s[..|s| - 1]) + DigitValue(s[|s| - 1])
  }

  /** Reading back what was printed gives the number. */
  lemma {:induction false} ReadBack(n: nat)
    ensures Value(ToText(n)) == n
  {
    var s := ToText(n);
    if n >= 10 {
      ReadBack(n / 10);
      assert s[..|s| - 1] == ToText(n / 10);
    } else {
      assert s[..|s| - 1] == "";
    }
  }

  lemma ToTextInjective(m: nat, n: nat)
    requires ToText(m) == ToText(n)
    ensures m == n
  {
    ReadBack(m);
    ReadBack(n);
  }
}
