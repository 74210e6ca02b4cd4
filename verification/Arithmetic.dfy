/** Products, quotients and remainders. */
module Arithmetic {
  lemma LessByMul(a: int, b: int, d: int)
    requires d > 0 && a * d < (b + 1) * d
    ensures a <= b
  {
    assert (a - b - 1) * d == a * d - (b + 1) * d;
  }

  lemma FloorBounds(n: int, d: int)
    requires n >= 0 && d > 0
    ensures (n / d) * d <= n < (n / d + 1) * d
  {
    assert (n / d + 1) * d == (n / d) * d + d;
  }

  lemma DivRises(n: int, m: int, d: int)
    requires 0 <= n <= m && d > 0
    ensures n / d <= m / d
  {
    FloorBounds(n, d);
    FloorBounds(m, d);
    LessByMul(n / d, m / d, d);
  }

  lemma MulRises(a: int, b: int, d: int)
    requires a <= b && d >= 0
    ensures a * d <= b * d
  {
    assert (b - a) * d >= 0;
    assert (b - a) * d == b * d - a * d;
  }

  lemma Factor(a: int, b: int, d: int)
    ensures a * d + b * d == (a + b) * d
  {
  }

  /** A quotient and remainder are the only ones. */
  lemma QuotientIs(n: nat, q: nat, r: nat, d: nat)
    requires d > 0 && r < d && n == q * d + r
    ensures n / d == q && n % d == r
  {
    FloorBounds(n, d);
    assert (q + 1) * d == q * d + d;
    LessByMul(q, n / d, d);
    LessByMul(n / d, q, d);
  }
}
