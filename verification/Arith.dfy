/** Facts about division by a variable, stated once and used through their names. */
module Arith {

  lemma MulMonotone(a: int, b: int, c: int)
    requires a <= b && 0 <= c
    ensures a * c <= b * c
  {
  }

  /** The quotient is the one multiple that brackets the dividend. */
  lemma Quotient(x: int, d: int, q: int)
    requires d > 0
    ensures q * d <= x < q * d + d <==> x / d == q
    ensures x / d == q ==> x % d == x - q * d
  {
    var k := x / d;
    assert x == k * d + x % d;
    if q < k {
      MulMonotone(q + 1, k, d);
      assert (q + 1) * d == q * d + d;
    } else if q > k {
      MulMonotone(k + 1, q, d);
      assert (k + 1) * d == k * d + d;
    }
  }

  lemma QuotientMonotone(x: int, y: int, d: int)
    requires d > 0 && x <= y
    ensures x / d <= y / d
  {
    Quotient(x, d, x / d);
    Quotient(y, d, y / d);
    if x / d > y / d {
      MulMonotone(y / d + 1, x / d, d);
      assert false;
    }
  }

  lemma QuotientShift(x: int, d: int, q: int)
    requires d > 0
    ensures (x - q * d) / d == x / d - q
  {
    Quotient(x, d, x / d);
    assert (x / d - q) * d == x / d * d - q * d;
    Quotient(x - q * d, d, x / d - q);
  }

  lemma QuotientBelow(r: int, d: int, n: int)
    requires d > 0 && 0 <= r < n * d
    ensures 0 <= r / d < n
  {
    Quotient(r, d, r / d);
    QuotientMonotone(0, r, d);
    assert 0 / d == 0 by { Quotient(0, d, 0); }
    if r / d >= n {
      MulMonotone(n, r / d, d);
      assert false;
    }
  }
}
