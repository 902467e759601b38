/** Products and quotients the other modules need. */
module Arithmetic {
  /** Rows that follow each other at a fixed pitch do not overlap. */
  lemma {:induction false} RowsApart(pitch: nat, y: nat, y': nat)
    requires y < y'
    ensures 0 <= y * pitch && y * pitch + pitch <= y' * pitch
  {
    assert y' * pitch == (y' - 1) * pitch + pitch;
    if y + 1 < y' {
      RowsApart(pitch, y, y' - 1);
    } else {
      assert 0 <= y * pitch;
    }
  }

  lemma MulMonotonic(x: nat, a: int, b: int)
    ensures a <= b ==> x * a <= x * b && a * x <= b * x
  {
    if a <= b {
      assert x * (b - a) >= 0;
    }
  }

  /** n / d is the q with q * d <= n < (q + 1) * d. */
  lemma QuotientIs(n: int, d: nat, q: int)
    requires d > 0 && q * d <= n < (q + 1) * d
    ensures n / d == q
  {
    MulMonotonic(d, n / d + 1, q);
    MulMonotonic(d, q + 1, n / d);
  }

  lemma QuotientBelow(n: int, d: nat, k: int)
    requires d > 0
    ensures n / d < k <==> n < k * d
  {
    MulMonotonic(d, n / d + 1, k);
    MulMonotonic(d, k, n / d);
  }

  lemma QuotientMonotonic(m: int, n: int, d: nat)
    requires d > 0 && m <= n
    ensures m / d <= n / d
  {
    MulMonotonic(d, n / d + 1, m / d);
  }
}
