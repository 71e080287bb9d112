/** Facts about multiplication and Euclidean division by a variable that
    the solver does not find on its own. */
module Arithmetic {

  lemma MultiplyMonotone(p: int, f: int)
    requires p >= 1 && f > 0
    ensures p * f >= f
  {
  }

  lemma ProductStep(d: int, a: int, b: int)
    requires d > 0 && a > b
    ensures d * a >= d * b + d
  {
    MultiplyMonotone(a - b, d);
    assert d * a == d * b + (a - b) * d;
  }

  lemma DivisionBounds(n: int, d: int)
    requires d > 0
    ensures d * (n / d) <= n < d * (n / d) + d
  {
  }

  lemma ZeroNumeratorRounds(den: int)
    requires den > 0
    ensures den / (2 * den) == 0
  {
    DivisionBounds(den, 2 * den);
  }

  lemma MultipleDivides(p: int, f: int)
    requires f > 0
    ensures (p * f) / f == p && (p * f) % f == 0
  {
    var q, r := (p * f) / f, (p * f) % f;
    assert p * f == q * f + r && 0 <= r < f;
    assert (p - q) * f == r;
    if p - q > 0 {
      MultiplyMonotone(p - q, f);
    } else if p - q < 0 {
      MultiplyMonotone(q - p, f);
    }
  }
}
