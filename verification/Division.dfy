/** Quotient and remainder from a product and a rest. */
module Division {

  lemma QuotientIs(s: int, q: int, r: int)
    requires 0 <= r < s
    ensures (s * q + r) / s == q && (s * q + r) % s == r
  {
    var a := s * q + r;
    var d := a / s - q;
    assert a == s * (a / s) + a % s && 0 <= a % s < s;
    assert s * d == r - a % s;
    SmallMultiple(s, d);
  }

  lemma SmallMultiple(s: int, d: int)
    requires s > 0 && -s < s * d < s
    ensures d == 0
  {
    assert d >= 1 ==> s * (d - 1) >= 0;
    assert d <= -1 ==> s * (d + 1) <= 0;
  }
}
