/** Shared vocabulary: optional values and the arithmetic of quotients and remainders. */
module Basics {

  datatype Option<+T> = None | Some(value: T)

  lemma ScaleAway(k: int, c: int)
    requires c >= 1
    ensures k >= 1 ==> k * c >= c
    ensures k <= -1 ==> k * c <= -c
  {
  }

  /** A quotient and a remainder below the divisor are the only ones. */
  lemma DivisionIsUnique(x: int, q: int, r: int, c: int)
    requires c >= 1 && x == q * c + r && 0 <= r < c
    ensures x % c == r && x / c == q
  {
    assert x == (x / c) * c + x % c;
    assert (x / c - q) * c == r - x % c;
    ScaleAway(x / c - q, c);
  }

  lemma ModShift(x: int, c: int)
    requires c >= 1
    ensures (x + c) % c == x % c
  {
    assert x + c == (x / c + 1) * c + x % c;
    DivisionIsUnique(x + c, x / c + 1, x % c, c);
  }
}
