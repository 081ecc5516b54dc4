/** Products and quotients of natural numbers. */
module Arithmetic {

  lemma ProductRises(a: nat, b: nat, d: nat)
    requires a <= b
    ensures a * d <= b * d && d * a <= d * b
  {
    assert b * d == a * d + (b - a) * d;
  }

  lemma QuotientBounds(x: nat, d: nat)
    requires d > 0
    ensures (x / d) * d <= x < (x / d + 1) * d
    ensures x == (x / d) * d + x % d
  {
    assert x == (x / d) * d + x % d;
  }

  lemma QuotientRises(x: nat, y: nat, d: nat)
    requires d > 0 && x <= y
    ensures x / d <= y / d
  {
    QuotientBounds(x, d);
    QuotientBounds(y, d);
    if x / d > y / d {
      ProductRises(y / d + 1, x / d, d);
    }
  }

  /** A whole divisor more makes the quotient larger. */
  lemma QuotientGrows(x: nat, y: nat, d: nat)
    requires d > 0 && x + d <= y
    ensures x / d < y / d
  {
    QuotientBounds(x, d);
    QuotientBounds(y, d);
    if x / d >= y / d {
      ProductRises(y / d, x / d, d);
    }
  }

  lemma QuotientOfProduct(q: nat, d: nat)
    requires d > 0
    ensures (q * d) / d == q
  {
    QuotientBounds(q * d, d);
    if (q * d) / d < q {
      ProductRises((q * d) / d + 1, q, d);
    } else if (q * d) / d > q {
      ProductRises(q + 1, (q * d) / d, d);
    }
  }

  lemma QuotientBelow(x: nat, q: nat, d: nat)
    requires d > 0 && x < q * d
    ensures x / d < q
  {
    QuotientBounds(x, d);
    if x / d >= q {
      ProductRises(q, x / d, d);
    }
  }
}
