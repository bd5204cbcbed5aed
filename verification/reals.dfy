/** Small facts about real multiplication, each stated over named variables
    so that they can be instantiated with the exact terms a vector proof
    produces. The vector and steering proofs do all their non-linear
    reasoning through these. */
module Reals {

  function Max(a: real, b: real): (m: real)
    ensures a <= m && b <= m
    ensures m == a || m == b
  {
    if a < b then b else a
  }

  function Min(a: real, b: real): (m: real)
    ensures m <= a && m <= b
    ensures m == a || m == b
  {
    if a < b then a else b
  }

  lemma MulPos(x: real, y: real, q: real)
    requires 0.0 < x && 0.0 < y && q == x * y
    ensures 0.0 < q
  {
  }

  lemma MulNonNeg(x: real, y: real, q: real)
    requires 0.0 <= x && 0.0 <= y && q == x * y
    ensures 0.0 <= q
  {
    if x != 0.0 && y != 0.0 {
      MulPos(x, y, q);
    }
  }

  lemma SqNonNeg(x: real, q: real)
    requires q == x * x
    ensures 0.0 <= q
  {
  }

  lemma SqPos(x: real, q: real)
    requires x != 0.0 && q == x * x
    ensures 0.0 < q
  {
    if x > 0.0 {
      MulPos(x, x, q);
    } else {
      MulPos(-x, -x, q);
    }
  }

  /** A square is zero exactly when its root is. */
  lemma SqZeroIff(x: real, q: real)
    requires q == x * x
    ensures q == 0.0 <==> x == 0.0
  {
    if x != 0.0 {
      SqPos(x, q);
    }
  }

  /** Squaring is strictly increasing on the non-negative reals. */
  lemma SqStrictMono(a: real, b: real, p: real, q: real)
    requires 0.0 <= a < b && p == a * a && q == b * b
    ensures p < q
  {
    MulPos(b - a, b + a, q - p);
  }

  lemma SqMono(a: real, b: real, p: real, q: real)
    requires 0.0 <= a <= b && p == a * a && q == b * b
    ensures p <= q
  {
    if a < b {
      SqStrictMono(a, b, p, q);
    }
  }

  /** Comparing squares of non-negative reals compares the reals. */
  lemma SqLess(a: real, b: real, p: real, q: real)
    requires 0.0 <= a && 0.0 <= b && p == a * a && q == b * b
    ensures p < q <==> a < b
    ensures p <= q <==> a <= b
    ensures p == q <==> a == b
  {
    if a < b {
      SqStrictMono(a, b, p, q);
    } else if b < a {
      SqStrictMono(b, a, q, p);
    }
  }

  /** Dividing a square by the square of its root leaves one. */
  lemma InverseSquare(l: real, s: real, q: real)
    requires 0.0 < l && s == 1.0 / l && q == l * l
    ensures s * s * q == 1.0
  {
  }

  /** Scaling a length `l` by the ratio `a / l`, squared, gives `a` squared. */
  lemma RatioSquare(l: real, a: real, t: real, q: real)
    requires 0.0 < l && t == a / l && q == l * l
    ensures t * t * q == a * a
  {
  }

  /** What is left of a length `l` after a step `a` along it, squared. */
  lemma ComplementSquare(l: real, a: real, t: real, q: real)
    requires 0.0 < l && t == a / l && q == l * l
    ensures (1.0 - t) * (1.0 - t) * q == (l - a) * (l - a)
  {
  }

  lemma RatioBounds(l: real, a: real)
    requires 0.0 <= a < l
    ensures 0.0 <= a / l < 1.0
  {
  }

  /** A convex quadratic `A + 2tB + t^2 C` (with `C >= 0`) on `[0, 1]` stays
      below any bound its two ends stay below. */
  lemma QuadraticBelow(t: real, a: real, b: real, c: real, bound: real)
    requires 0.0 <= t <= 1.0 && 0.0 <= c
    requires a <= bound && a + 2.0 * b + c <= bound
    ensures a + 2.0 * t * b + t * t * c <= bound
  {
    var k := t * (1.0 - t);
    MulNonNeg(t, 1.0 - t, k);
    MulNonNeg(k, c, k * c);
    MulNonNeg(1.0 - t, bound - a, (1.0 - t) * (bound - a));
    MulNonNeg(t, bound - (a + 2.0 * b + c), t * (bound - (a + 2.0 * b + c)));
  }
}
