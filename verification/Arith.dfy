/** Small facts about products, quotients and remainders that the solver is not left to find. */
module Arith {

  lemma MulGe(k: int, m: nat)
    requires k >= 1
    ensures k * m >= m
  {
  }

  lemma MulLess(a: nat, b: nat, c: nat)
    requires a < b && c > 0
    ensures a * c < b * c
  {
  }

  lemma Associate(x: int, y: int, z: int)
    ensures (x * y) * z == x * (y * z) == (x * z) * y
  {
  }

  lemma Distribute(x: int, y: int, z: int)
    ensures (x + y) * z == x * z + y * z
    ensures (x - y) * z == x * z - y * z
  {
  }

  /** Quotient and remainder are unique. */
  lemma DivMod(x: nat, q: int, r: nat, m: nat)
    requires x == q * m + r && r < m
    ensures x / m == q && x % m == r
  {
    var q', r' := x / m, x % m;
    assert x == q' * m + r';
    Distribute(q, q', m);
    Distribute(q', q, m);
    if q - q' >= 1 {
      MulGe(q - q', m);
    } else if q' - q >= 1 {
      MulGe(q' - q, m);
    }
  }

  lemma Multiple(x: nat, k: int, p: nat)
    requires p > 0 && x == k * p
    ensures x % p == 0 && x / p == k
  {
    DivMod(x, k, 0, p);
  }
}
