/** Decimal numerals: writing a number, reading it back, and how long the text gets. */
module Numerals {

  const MAX_INT := 0x7FFF_FFFF_FFFF_FFFF
  const MIN_INT := -0x8000_0000_0000_0000
  type Int64 = x: int | MIN_INT <= x <= MAX_INT

  function Digit(d: int): char
    requires 0 <= d <= 9
  {
    ['0', '1', '2', '3', '4', '5', '6', '7', '8', '9'][d]
  }

  function Decimal(n: nat): (s: string)
    decreases n
  {
    (if n < 10 then [] else Decimal(n / 10)) + [Digit(n % 10)]
  }

  // Reading a decimal numeral back, most significant digit first.
  function DigitValue(c: char): int {
    c as int - '0' as int
  }

  function ReadDecimal(s: string): int {
    if s == [] then 0 else 10 * ReadDecimal(s[..|s| - 1]) + DigitValue(s[|s| - 1])
  }

  lemma ReadDecimalSnoc(s: string, d: int)
    requires 0 <= d <= 9
    ensures ReadDecimal(s + [Digit(d)]) == 10 * ReadDecimal(s) + d
  {
    assert (s + [Digit(d)])[..|s|] == s;
  }

  lemma {:induction false} ReadDecimalBack(n: nat)
    ensures ReadDecimal(Decimal(n)) == n
  {
    ReadDecimalSnoc(if n < 10 then [] else Decimal(n / 10), n % 10);
    if n >= 10 {
      ReadDecimalBack(n / 10);
    }
  }

  function Pow10(k: nat): nat {
    if k == 0 then 1 else 10 * Pow10(k - 1)
  }

  lemma {:induction false} DecimalLength(n: nat, k: nat)
    requires n < Pow10(k) && k > 0
    ensures 1 <= |Decimal(n)| <= k
  {
    if n >= 10 {
      DecimalLength(n / 10, k - 1);
    }
  }

  lemma Pow10Five(k: nat)
    ensures Pow10(k + 5) == 100000 * Pow10(k)
  {
    assert Pow10(k + 2) == 100 * Pow10(k);
    assert Pow10(k + 4) == 100 * Pow10(k + 2);
  }

  lemma Pow10Nineteen()
    ensures Pow10(19) > MAX_INT
  {
    assert Pow10(4) == 10000;
    Pow10Five(4);
    Pow10Five(9);
    Pow10Five(14);
  }

  lemma {:induction false} DecimalHead(n: nat)
    ensures Decimal(n) != [] && Decimal(n)[0] != '-'
  {
    if n >= 10 {
      DecimalHead(n / 10);
    }
  }
}
