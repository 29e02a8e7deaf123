/** Quotient and remainder are determined by the division equation. */
module Remainders {

  lemma RemainderUnique(n: nat, d: nat, q: nat, r: nat)
    requires d > 0 && r < d && n == d * q + r
    ensures n % d == r && n / d == q
  {
    assert d * (n / d - q) == r - n % d;
    SmallMultiple(d, n / d - q);
  }

  lemma SmallMultiple(d: nat, k: int)
    requires -(d as int) < d * k < d
    ensures k == 0
  {
  }
}
