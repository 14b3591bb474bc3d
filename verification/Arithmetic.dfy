/** The few facts about products and quotients the solver does not find by itself. */
module Arithmetic {

  lemma MulMonotone(a: int, b: int, c: int)
    requires a <= b && c >= 0
    ensures a * c <= b * c
  {}

  lemma MulStrict(a: int, b: int, c: int)
    requires a < b && c > 0
    ensures a * c < b * c && a * c + c <= b * c
  {
    MulMonotone(a + 1, b, c);
  }

  lemma MulSucc(k: int, n: int)
    ensures (k + 1) * n == k * n + n
  {}

  lemma MulAdd(a: int, b: int, n: int)
    ensures (a + b) * n == a * n + b * n
  {}

  lemma MulDifference(a: int, b: int, c: int, n: int)
    requires a - b <= c && n >= 0
    ensures a * n - b * n <= c * n
  {
    MulMonotone(a - b, c, n);
    assert (a - b) * n == a * n - b * n;
  }

  /** A quotient is pinned down by the interval of multiples its dividend falls in. */
  lemma DivIs(p: int, d: int, q: int)
    requires d > 0
    requires q * d <= p < q * d + d
    ensures p / d == q
    ensures p % d == p - q * d
  {
    var q' := p / d;
    assert p == q' * d + p % d;
    if q < q' {
      MulStrict(q, q', d);
    } else if q' < q {
      MulStrict(q', q, d);
    }
  }

  lemma DivShift(p: int, d: int, b: int)
    requires d > 0
    ensures (p - b * d) / d == p / d - b
    ensures (p - b * d) % d == p % d
  {
    assert p == (p / d) * d + p % d;
    assert (p / d - b) * d == (p / d) * d - b * d;
    DivIs(p - b * d, d, p / d - b);
  }

  lemma DivBounds(p: int, d: int)
    requires d > 0
    ensures (p / d) * d <= p < (p / d) * d + d
    ensures p % d == p - (p / d) * d
  {
    assert p == (p / d) * d + p % d;
  }

  lemma LeDiv(k: int, d: int, m: int)
    requires d > 0
    ensures k * d <= m <==> k <= m / d
  {
    DivBounds(m, d);
    if k <= m / d {
      MulMonotone(k, m / d, d);
    } else {
      MulStrict(m / d, k, d);
    }
  }

  lemma DivMonotone(a: int, b: int, d: int)
    requires d > 0 && a <= b
    ensures a / d <= b / d
  {
    DivBounds(a, d);
    LeDiv(a / d, d, b);
  }

  function CeilDiv(a: nat, b: nat): nat
    requires b > 0
  {
    (a + b - 1) / b
  }
}
