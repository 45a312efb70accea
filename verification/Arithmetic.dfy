/** Facts about products, quotients and remainders. */
module Arithmetic {

  lemma MulMonotone(a: int, b: int, u: int)
    requires a <= b && u > 0
    ensures a * u <= b * u
  {
  }

  /** Quotient and remainder are determined by what defines them. */
  lemma DivModUnique(x: int, d: int, q: int, r: int)
    requires d > 0 && x == q * d + r && 0 <= r < d
    ensures x / d == q && x % d == r
  {
    var q', r' := x / d, x % d;
    assert q' * d - q * d == r - r' by { assert x == q' * d + r'; }
    assert (q + 1) * d == q * d + d && (q' + 1) * d == q' * d + d;
    if q' > q {
      MulMonotone(q + 1, q', d);
      assert false;
    }
    if q' < q {
      MulMonotone(q' + 1, q, d);
      assert false;
    }
  }
}
