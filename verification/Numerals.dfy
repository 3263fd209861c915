/**
 * Decimal numerals as both languages print natural numbers, and reading them back.
 * Table aliases and override edge ids are numerals after a fixed letter or two, so two
 * numbers printed alike must be the same number for either to identify anything; that
 * is what reading back gives.
 */
module Numerals {

  const DIGITS := "0123456789"

  function NatText(n: nat): (s: string)
    ensures s != "" && forall c | c in s :: c in DIGITS
  {
    if n < 10 then [DIGITS[n]] else NatText(n / 10) + [DIGITS[n % 10]]
  }

  function DigitValue(c: char): nat {
    if '0' <= c <= '9' then c as nat - '0' as nat else 0
  }

  function Value(s: string): nat {
    if s == "" then 0 else 10 * Value(s[..|s| - 1]) + DigitValue(s[|s| - 1])
  }

  lemma {:induction false} DigitsInOrder(d: nat)
    requires d < 10
    ensures DigitValue(DIGITS[d]) == d
  {
  }

  /** Reading a numeral back gives the number, so distinct numbers print differently. */
  lemma {:induction false} ValueOfNatText(n: nat)
    ensures Value(NatText(n)) == n
  {
    DigitsInOrder(n % 10);
    if n < 10 {
      assert NatText(n)[..0] == "" && NatText(n)[0] == DIGITS[n];
    } else {
      ValueOfNatText(n / 10);
      assert NatText(n)[..|NatText(n)| - 1] == NatText(n / 10);
    }
  }
}
