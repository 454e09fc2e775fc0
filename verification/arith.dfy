/** Facts about multiplication, division and remainder on naturals that the
    index computations of the BMP writer and the renderer rely on. */
module Arith {

  lemma MulNonNeg(a: int, b: int)
    requires 0 <= a && 0 <= b
    ensures 0 <= a * b
  {
  }

  lemma MulLe(a: int, b: int, d: int)
    requires a <= b && 0 <= d
    ensures a * d <= b * d
  {
    MulNonNeg(b - a, d);
    assert b * d - a * d == (b - a) * d;
  }

  /** The quotient and remainder of a by d are the only q and r with
      a = q * d + r and 0 <= r < d. */
  lemma DivModUnique(a: int, d: int, q: int, r: int)
    requires 0 < d && 0 <= r < d && a == q * d + r
    ensures a / d == q && a % d == r
  {
    var q', r' := a / d, a % d;
    assert a == q' * d + r';
    if q' > q {
      assert (q' - q) * d == q' * d - q * d;
      MulLe(1, q' - q, d);
    } else if q' < q {
      assert (q - q') * d == q * d - q' * d;
      MulLe(1, q - q', d);
    }
  }

  /** Row q of a table with rows of length d ends no later than the table. */
  lemma RowEnd(q: int, n: int, d: int)
    requires 0 <= q < n && 0 <= d
    ensures q * d + d <= n * d
  {
    assert q * d + d == (q + 1) * d;
    MulLe(q + 1, n, d);
  }

  /** Quotient and remainder of a natural by a positive divisor. */
  lemma DivModNat(a: int, d: int)
    requires 0 <= a && 0 < d
    ensures 0 <= a / d && 0 <= a % d < d && a == a / d * d + a % d
  {
    var q := a / d;
    if q < 0 {
      MulLe(q, -1, d);
    }
  }
}
