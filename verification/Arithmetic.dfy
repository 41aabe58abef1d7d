/** Division and remainder by a positive number. */
module Arithmetic {
  lemma MulStep(m: int, a: int, b: int)
    requires a < b && m > 0
    ensures m * a + m <= m * b
  {
    MulPositive(m, b - a - 1);
    assert m * b == m * (a + 1 + (b - a - 1)) == m * a + m + m * (b - a - 1);
  }

  lemma MulPositive(m: int, d: int)
    requires m > 0 && d >= 0
    ensures m * d >= 0
  {
  }

  lemma Quotient(m: int, d: int, e: int, q: int, r: int)
    requires m * d + e == m * q + r && 0 <= e < m && 0 <= r < m
    ensures d == q && e == r
  {
    if d > q {
      MulStep(m, q, d);
    } else if d < q {
      MulStep(m, d, q);
    }
  }

  lemma ModIs(v: int, m: int, q: int, r: int)
    requires v == m * q + r && 0 <= r < m
    ensures v % m == r
  {
    Quotient(m, v / m, v % m, q, r);
  }
}
