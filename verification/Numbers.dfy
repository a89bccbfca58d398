/** Facts about multiples and remainders that the proofs quote by name. */
module Numbers {

  lemma AtLeastOnce(p: int, d: int)
    requires p > 0 && d >= 1
    ensures p * d >= p
  {
  }

  /** A multiple smaller than the modulus is no multiple at all. */
  lemma SmallMultiple(p: int, d: int)
    requires p > 0 && -p < p * d < p
    ensures d == 0
  {
    if d >= 1 {
      AtLeastOnce(p, d);
    } else if d <= -1 {
      AtLeastOnce(p, -d);
    }
  }

  /** Quotient and remainder are the only such pair. */
  lemma DivModOf(p: int, m: int, q: int)
    requires 0 <= m < p
    ensures (m + p * q) / p == q && (m + p * q) % p == m
  {
    var n := m + p * q;
    var a, b := n / p, n % p;
    assert n == p * a + b;
    assert p * (q - a) == b - m;
    SmallMultiple(p, q - a);
  }

  lemma QuotientIsNat(v: nat, p: nat)
    requires p > 0
    ensures v / p >= 0 && v % p >= 0
  {
    var q, r := v / p, v % p;
    assert v == p * q + r;
    if q <= -1 {
      AtLeastOnce(p, -q);
    }
  }
}
