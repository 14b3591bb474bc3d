/** Greatest common divisors, and which remainders the multiples of one number leave under another. */
module Residues {
  import opened Arithmetic

  function Gcd(a: nat, b: nat): (g: nat)
    ensures a > 0 || b > 0 ==> g > 0
    decreases b
  {
    if b == 0 then a else Gcd(b, a % b)
  }

  lemma {:induction false} GcdDivides(a: nat, b: nat) returns (x: nat, y: nat)
    requires a > 0 || b > 0
    ensures Gcd(a, b) > 0 && a == x * Gcd(a, b) && b == y * Gcd(a, b)
    decreases b
  {
    if b == 0 {
      x, y := 1, 0;
    } else {
      var g, q := Gcd(a, b), a / b;
      var z;
      y, z := GcdDivides(b, a % b);
      x := q * y + z;
      DivBounds(a, b);
      MulAdd(q * y, z, g);
      assert q * (y * g) == (q * y) * g;
    }
  }

  lemma {:induction false} Bezout(a: nat, b: nat) returns (u: int, v: int)
    ensures u * a + v * b == Gcd(a, b)
    decreases b
  {
    if b == 0 {
      u, v := 1, 0;
    } else {
      var q := a / b;
      var s, t := Bezout(b, a % b);
      u, v := t, s - t * q;
      DivBounds(a, b);
      assert t * (a % b) == t * a - (t * q) * b by {
        assert t * (a - q * b) == t * a - t * (q * b);
        assert t * (q * b) == (t * q) * b;
      }
      MulAdd(s, -(t * q), b);
    }
  }

  /** The largest number below `b` that leaves the remainder of `c` under gcd(a, b). */
  function LargestResidue(a: nat, b: nat, c: int): int
    requires a > 0
  {
    b - Gcd(a, b) + c % Gcd(a, b)
  }

  lemma ResidueBound(a: nat, b: nat, c: int, j: nat)
    requires a > 0 && b > 0
    ensures (j * a + c) % b <= LargestResidue(a, b, c)
  {
    var g := Gcd(a, b);
    var x, y := GcdDivides(a, b);
    var q := (j * a + c) / b;
    DivBounds(j * a + c, b);
    DivBounds(c, g);
    CommonFactor(j, x, q, y, c / g, g);
    BelowMultiple(j * x - q * y + c / g, y, g, c % g);
  }

  lemma CommonFactor(j: int, x: int, q: int, y: int, k: int, g: int)
    ensures j * (x * g) - q * (y * g) + k * g == (j * x - q * y + k) * g
  {
    assert j * (x * g) == (j * x) * g && q * (y * g) == (q * y) * g;
    MulAdd(j * x, -(q * y), g);
    MulAdd(j * x - q * y, k, g);
  }

  lemma BelowMultiple(t: int, y: int, g: nat, rest: nat)
    requires g > 0 && t * g + rest < y * g
    ensures t * g + g <= y * g
  {
    if t >= y {
      MulMonotone(y, t, g);
      assert false;
    }
    MulStrict(t, y, g);
  }

  /** Every residue the gcd allows is reached, the largest one in particular. */
  lemma ResidueReached(a: nat, b: nat, c: int) returns (j: nat)
    requires a > 0 && b > 0
    ensures j > 0 && (j * a + c) % b == LargestResidue(a, b, c)
  {
    var g := Gcd(a, b);
    var x, y := GcdDivides(a, b);
    var u, v := Bezout(a, b);
    var w := -(1 + c / g);
    var k := Abs(w * u) + 1;
    Positive(w * u, k, b);
    j := w * u + k * b;
    Combination(a, b, g, u, v, w, k);
    assert g <= b by {
      MulMonotone(1, y, g);
    }
    LandsOn(j * a, b, c, g, k * a - w * v);
  }

  lemma Positive(x: int, k: nat, b: nat)
    requires b > 0 && k == Abs(x) + 1
    ensures x + k * b > 0
  {
    MulMonotone(1, b, k);
    assert b * k == k * b;
  }

  lemma LandsOn(p: int, b: nat, c: int, g: nat, q: int)
    requires 0 < g <= b && p == -(1 + c / g) * g + q * b
    ensures (p + c) % b == b - g + c % g
  {
    DivBounds(c, g);
    MulAdd(-1, -(c / g), g);
    MulAdd(q, -1, b);
    assert (q - 1) * b == q * b - b;
    DivIs(p + c, b, q - 1);
  }

  function Abs(x: int): nat {
    if x < 0 then -x else x
  }

  lemma Combination(a: int, b: int, g: int, u: int, v: int, w: int, k: int)
    requires u * a + v * b == g
    ensures (w * u + k * b) * a == w * g + (k * a - w * v) * b
  {
    MulAdd(w * u, k * b, a);
    MulAdd(k * a, -(w * v), b);
    assert w * (u * a + v * b) == w * (u * a) + w * (v * b);
    assert (w * u) * a == w * (u * a) && (w * v) * b == w * (v * b);
    assert (k * b) * a == (k * a) * b;
  }
}
