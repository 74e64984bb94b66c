/** Quotients and remainders. */
module Arithmetic {

  lemma Spread(d: int, q: int, k: int)
    ensures d * (q - k) == d * q - d * k
  {
  }

  lemma AtLeast(d: int, n: int)
    requires d > 0 && n >= 1
    ensures d * n >= d
  {
    assert d * n == d + d * (n - 1);
  }

  lemma Whole(a: int, d: int)
    requires d > 0
    ensures a == d * (a / d) + a % d && 0 <= a % d < d
  {
  }

  /** A quotient and a remainder are known by what they make together. */
  lemma DivMod(a: int, d: nat, q: int, r: nat)
    requires d > 0 && a == d * q + r && r < d
    ensures a / d == q && a % d == r
  {
    var k := a / d;
    Whole(a, d);
    Spread(d, q, k);
    Spread(d, k, q);
    if q > k {
      AtLeast(d, q - k);
    } else if q < k {
      AtLeast(d, k - q);
    }
  }
}
