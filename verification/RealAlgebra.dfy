/** Small facts of real algebra, each in the form the proofs need. */
module RealAlgebra {

  lemma Distribute(a: real, b: real, c: real)
    ensures a * (b + c) == a * b + a * c
    ensures a * (b - c) == a * b - a * c
  {
  }

  lemma NonNegative(a: real, b: real)
    requires a >= 0.0 && b >= 0.0
    ensures a * b >= 0.0
  {
  }

  lemma SameFactor(a: real, b: real, c: real)
    requires b == c
    ensures a * b == a * c
  {
  }

  lemma SquareNonNegative(a: real)
    ensures a * a >= 0.0
  {
    if a >= 0.0 {
      NonNegative(a, a);
    } else {
      NonNegative(-a, -a);
      assert (-a) * (-a) == a * a;
    }
  }

  lemma Monotone(a: real, b: real, c: real)
    requires a >= 0.0 && b <= c
    ensures a * b <= a * c
  {
    NonNegative(a, c - b);
    Distribute(a, c, b);
  }

  lemma StrictlyMonotone(a: real, b: real, c: real)
    requires a > 0.0
    ensures b < c <==> a * b < a * c
  {
    Distribute(a, c, b);
    if b < c {
      assert a * (c - b) > 0.0;
    } else {
      NonNegative(a, b - c);
      Distribute(a, b, c);
    }
  }

  lemma QuotientTimes(a: real, b: real)
    requires b != 0.0
    ensures b * (a / b) == a
  {
  }

  lemma QuotientBelow(a: real, b: real, c: real)
    requires b > 0.0
    ensures a / b < c <==> a < b * c
  {
    var q := a / b;
    QuotientTimes(a, b);
    StrictlyMonotone(b, q, c);
  }

  lemma SquaresGrow(a: real, b: real)
    requires 0.0 <= b < a
    ensures b * b < a * a
  {
    StrictlyMonotone(a, b, a);
    Monotone(b, b, a);
    calc {
      b * b;
    <=
      b * a;
    ==
      a * b;
    <
      a * a;
    }
  }

  lemma SquaresCompare(a: real, b: real)
    requires a >= 0.0 && b >= 0.0
    ensures a > b <==> a * a > b * b
  {
    if a > b {
      SquaresGrow(a, b);
    } else if a < b {
      SquaresGrow(b, a);
    }
  }

  lemma BinomialSquare(x: real, c: real)
    ensures (x - c) * (x - c) == x * x - 2.0 * (c * x) + c * c
    ensures (x + c) * (x + c) == x * x + 2.0 * (c * x) + c * c
  {
    Distribute(x - c, x, c);
    Distribute(x, x, c);
    Distribute(c, x, c);
    assert (x - c) * x == x * (x - c) && (x - c) * c == c * (x - c);
    assert x * c == c * x;
    Distribute(x + c, x, c);
    assert (x + c) * x == x * (x + c) && (x + c) * c == c * (x + c);
  }

  lemma FractionOf(d: real, a: real)
    requires 0.0 <= a <= 1.0
    ensures 0.0 <= a * d <= d || d <= a * d <= 0.0
  {
    if d >= 0.0 {
      NonNegative(a, d);
      Monotone(d, a, 1.0);
      assert d * a == a * d;
    } else {
      NonNegative(a, -d);
      Monotone(-d, a, 1.0);
      assert a * (-d) == -(a * d) && (-d) * a == -(a * d);
    }
  }

  lemma StepBetween(m: real, x: real, p: real, lo: real, hi: real)
    requires lo <= m <= hi && lo <= x <= hi
    requires 0.0 <= p <= x - m || x - m <= p <= 0.0
    ensures lo <= m + p <= hi
  {
  }

  /** A step of a fraction a from m towards x stays between bounds of both. */
  lemma Between(m: real, x: real, a: real, lo: real, hi: real)
    requires lo <= m <= hi && lo <= x <= hi && 0.0 <= a <= 1.0
    ensures lo <= m + a * (x - m) <= hi
  {
    var d := x - m;
    FractionOf(d, a);
    StepBetween(m, x, a * d, lo, hi);
  }

  lemma SquareAround(q: real, m: real, o: real, w: real, x: real, c: real)
    ensures (q - 2.0 * c * m + c * c * o) + w * ((x - c) * (x - c)) ==
            (q + w * (x * x)) - 2.0 * c * (m + w * x) + c * c * (o + w)
  {
    BinomialSquare(x, c);
    Distribute(w, x * x - 2.0 * (c * x), c * c);
    Distribute(w, x * x, 2.0 * (c * x));
    assert w * (2.0 * (c * x)) == 2.0 * c * (w * x);
    assert w * (c * c) == c * c * w;
    Distribute(2.0 * c, m, w * x);
    Distribute(c * c, o, w);
  }

  /** s is the sum of (x - c)^2 when q, m and o are the sums of x^2, x and 1 with the same weights. */
  ghost predicate SumsAround(s: real, q: real, m: real, o: real, c: real) {
    s == q - 2.0 * c * m + c * c * o
  }

  ghost predicate IsProduct(p: real, a: real, b: real) {
    p == a * b
  }

  /** A term w (x - c)^2 enters the sums. */
  lemma SpreadStep(s: real, q: real, m: real, o: real, w: real, x: real, c: real,
                   e: real, xx: real, ds: real, dq: real, dm: real, dw: real)
    requires SumsAround(s, q, m, o, c)
    requires IsProduct(e, x - c, x - c) && IsProduct(xx, x, x)
    requires IsProduct(ds, w, e) && IsProduct(dq, w, xx) && IsProduct(dm, w, x) && IsProduct(dw, w, 1.0)
    ensures SumsAround(s + ds, q + dq, m + dm, o + dw, c)
  {
    SquareAround(q, m, o, w, x, c);
  }

  /** The moving variance follows the second moment. */
  lemma VarianceStep(a: real, m: real, v: real, q: real, x: real)
    requires v == q - m * m
    ensures (1.0 - a) * (v + a * (x - m) * (x - m)) ==
            ((1.0 - a) * q + a * (x * x)) - (m + a * (x - m)) * (m + a * (x - m))
  {
    var d := x - m;
    var e, g := d * d, m * d;
    BinomialSquare(m, a * d);
    assert (m + a * d) * (m + a * d) == m * m + 2.0 * (a * g) + a * (a * e) by {
      assert a * d * m == a * g && (a * d) * (a * d) == a * (a * e);
    }
    BinomialSquare(m, d);
    assert x * x == m * m + 2.0 * g + e by {
      assert m + d == x && d * m == g;
    }
    Distribute(a, m * m + 2.0 * g, e);
    Distribute(a, m * m, 2.0 * g);
    assert a * (2.0 * g) == 2.0 * (a * g);
    assert a * (x - m) * (x - m) == a * e;
    assert (1.0 - a) * (v + a * e) == (v + a * e) - a * (v + a * e);
    Distribute(a, v, a * e);
    Distribute(a, q, m * m);
    assert (1.0 - a) * q == q - a * q;
  }

  lemma MeanIdentity(sum: real, sumSq: real, n: real, mean: real)
    requires n > 0.0 && mean == sum / n
    ensures sumSq - 2.0 * mean * sum + mean * mean * n == sumSq - sum * sum / n
  {
    assert mean * n == sum;
    assert mean * mean * n == mean * sum;
    assert sum * sum / n == mean * sum;
  }

  /** The core of the alert test: with L = (1-a)d and s the root of the new variance, L > k s. */
  lemma TestOnDeviation(a: real, k: real, v: real, d: real, s: real)
    requires 0.0 <= a <= 1.0 && k >= 0.0 && v >= 0.0
    requires s >= 0.0 && s * s == (1.0 - a) * (v + a * d * d)
    ensures (1.0 - a) * d > k * s <==> d > 0.0 && d * d * (1.0 - a - k * k * a) > k * k * v
  {
    var b, e, kk := 1.0 - a, d * d, k * k;
    NonNegative(k, s);
    SquareNonNegative(d);
    SquareNonNegative(k);
    NonNegative(kk, v);
    NonNegative(kk, a);
    Distribute(e, b, kk * a);
    assert a * d * d == a * e;
    if d > 0.0 && b > 0.0 {
      NonNegative(b, d);
      SquaresCompare(b * d, k * s);
      assert (b * d) * (b * d) == b * (b * e);
      assert (k * s) * (k * s) == kk * (s * s);
      assert kk * (b * (v + a * e)) == b * (kk * (v + a * e));
      StrictlyMonotone(b, kk * (v + a * e), b * e);
      Distribute(kk, v, a * e);
      assert kk * (a * e) == e * (kk * a);
      assert b * e == e * b;
    } else if d > 0.0 {
      assert b == 0.0;
      NonNegative(e, kk * a);
    } else {
      NonNegative(b, -d);
      assert b * d == -(b * (-d));
    }
  }

  /** The test cannot succeed when a (1 + k^2) >= 1. */
  lemma NoRoom(a: real, k: real, v: real, d: real)
    requires v >= 0.0 && a * (1.0 + k * k) >= 1.0
    ensures !(d * d * (1.0 - a - k * k * a) > k * k * v)
  {
    Distribute(a, 1.0, k * k);
    assert a * (k * k) == k * k * a;
    SquareNonNegative(d);
    SquareNonNegative(k);
    NonNegative(k * k, v);
    NonNegative(d * d, a + k * k * a - 1.0);
    assert d * d * (1.0 - a - k * k * a) == -(d * d * (a + k * k * a - 1.0));
  }

  /** A test that succeeds after the update would have succeeded before it. */
  lemma TestBefore(a: real, k: real, v: real, d: real, s: real)
    requires a >= 0.0 && k >= 0.0 && s >= 0.0 && s * s == v
    requires d > 0.0 && d * d * (1.0 - a - k * k * a) > k * k * v
    ensures d > k * s
  {
    SquareNonNegative(k);
    NonNegative(k * k, a);
    SquareNonNegative(d);
    Monotone(d * d, 1.0 - a - k * k * a, 1.0);
    NonNegative(k, s);
    assert (k * s) * (k * s) == k * k * (s * s);
    SquaresCompare(d, k * s);
  }
}
