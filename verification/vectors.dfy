/** Real-valued three-component vectors: the arithmetic the movement code
    borrows from its math library (sum, difference, scaling, squared
    distance and normalization). Floating point is replaced by `real`.

    Dafny's reals have no square root, and the library's length is a call
    into code this model cannot see, so every operation that needs a length
    receives the square-root routine as a parameter `sqrt`, constrained only
    by `IsSqrt`: on non-negative arguments it is non-negative and its square
    is its argument. */
module Vectors {
  import opened Reals

  datatype Option<T> = None | Some(value: T)

  datatype Vec3 = Vec3(x: real, y: real, z: real)

  const Zero: Vec3 := Vec3(0.0, 0.0, 0.0)

  function Add(a: Vec3, b: Vec3): Vec3 {
    Vec3(a.x + b.x, a.y + b.y, a.z + b.z)
  }

  function Sub(a: Vec3, b: Vec3): Vec3 {
    Vec3(a.x - b.x, a.y - b.y, a.z - b.z)
  }

  function Scale(a: Vec3, s: real): Vec3 {
    Vec3(a.x * s, a.y * s, a.z * s)
  }

  function Dot(a: Vec3, b: Vec3): real {
    a.x * b.x + a.y * b.y + a.z * b.z
  }

  function Cross(a: Vec3, b: Vec3): Vec3 {
    Vec3(a.y * b.z - a.z * b.y, a.z * b.x - a.x * b.z, a.x * b.y - a.y * b.x)
  }

  /** The library's `distance_squared`: the squared length of `a - b`. */
  function DistanceSquared(a: Vec3, b: Vec3): real {
    Dot(Sub(a, b), Sub(a, b))
  }

  /** `sqrt` behaves as the non-negative square root on non-negative reals. */
  ghost predicate IsSqrt(sqrt: real -> real) {
    forall x: real :: 0.0 <= x ==> 0.0 <= sqrt(x) && sqrt(x) * sqrt(x) == x
  }

  /** The squared length is non-negative, and zero only for the zero vector. */
  lemma DotSelf(v: Vec3)
    ensures 0.0 <= Dot(v, v)
    ensures Dot(v, v) == 0.0 <==> v == Zero
  {
    var a, b, c := v.x * v.x, v.y * v.y, v.z * v.z;
    SqNonNeg(v.x, a);
    SqNonNeg(v.y, b);
    SqNonNeg(v.z, c);
    assert Dot(v, v) == a + b + c;
    if v != Zero {
      if v.x != 0.0 {
        SqPos(v.x, a);
      } else if v.y != 0.0 {
        SqPos(v.y, b);
      } else {
        SqPos(v.z, c);
      }
    }
  }

  lemma DotScale(v: Vec3, s: real)
    ensures Dot(Scale(v, s), Scale(v, s)) == s * s * Dot(v, v)
  {
  }

  lemma DotScaleLeft(v: Vec3, w: Vec3, s: real)
    ensures Dot(Scale(v, s), w) == s * Dot(v, w)
  {
  }

  lemma ScaleScale(v: Vec3, a: real, b: real)
    ensures Scale(Scale(v, a), b) == Scale(v, a * b)
  {
  }

  /** Squared distance does not depend on the order of its arguments. */
  lemma DistanceSquaredSymmetric(a: Vec3, b: Vec3)
    ensures DistanceSquared(a, b) == DistanceSquared(b, a)
  {
    assert Sub(a, b) == Scale(Sub(b, a), -1.0);
    DotScale(Sub(b, a), -1.0);
  }

  /** The Euclidean length, computed as the library does: the square root
      of the squared length. */
  function Length(v: Vec3, sqrt: real -> real): (l: real)
    requires IsSqrt(sqrt)
    ensures 0.0 <= l && l * l == Dot(v, v)
    ensures l == 0.0 <==> v == Zero
  {
    DotSelf(v);
    var l := sqrt(Dot(v, v));
    SqZeroIff(l, Dot(v, v));
    l
  }

  /** A non-negative number whose square is the squared length is the length. */
  lemma LengthUnique(v: Vec3, sqrt: real -> real, m: real)
    requires IsSqrt(sqrt)
    requires 0.0 <= m && m * m == Dot(v, v)
    ensures Length(v, sqrt) == m
  {
    var l := Length(v, sqrt);
    SqLess(l, m, l * l, m * m);
  }

  /** The library's `try_normalize`: the unit vector pointing along `v`, or
      `None` when the reciprocal of its length is not a finite positive
      number. Over the reals that happens exactly for the zero vector. */
  function TryNormalize(v: Vec3, sqrt: real -> real): (r: Option<Vec3>)
    requires IsSqrt(sqrt)
    ensures r.None? <==> v == Zero
  {
    var l := Length(v, sqrt);
    if l == 0.0 then None else Some(Scale(v, 1.0 / l))
  }

  /** A normalized vector has unit length, and scaling it back by the
      original length recovers the original vector. */
  lemma TryNormalizeUnit(v: Vec3, sqrt: real -> real)
    requires IsSqrt(sqrt) && v != Zero
    ensures TryNormalize(v, sqrt).Some?
    ensures Dot(TryNormalize(v, sqrt).value, TryNormalize(v, sqrt).value) == 1.0
    ensures Scale(TryNormalize(v, sqrt).value, Length(v, sqrt)) == v
  {
    NormalizeByLength(v, Length(v, sqrt));
  }

  lemma NormalizeByLength(v: Vec3, l: real)
    requires 0.0 < l && l * l == Dot(v, v)
    ensures Dot(Scale(v, 1.0 / l), Scale(v, 1.0 / l)) == 1.0
    ensures Scale(Scale(v, 1.0 / l), l) == v
  {
    var s := 1.0 / l;
    DotScale(v, s);
    InverseSquare(l, s, Dot(v, v));
    ScaleScale(v, s, l);
    assert s * l == 1.0;
  }

  lemma CrossScaleSelf(v: Vec3, s: real)
    ensures Cross(Scale(v, s), v) == Zero
  {
  }

  /** Negating a vector keeps its length. */
  lemma LengthNegate(v: Vec3, sqrt: real -> real)
    requires IsSqrt(sqrt)
    ensures Length(Sub(Zero, v), sqrt) == Length(v, sqrt)
  {
    assert Sub(Zero, v) == Scale(v, -1.0);
    DotScale(v, -1.0);
    LengthUnique(Sub(Zero, v), sqrt, Length(v, sqrt));
  }

  /** The squared length of a sum. */
  lemma DotAdd(u: Vec3, w: Vec3)
    ensures Dot(Add(u, w), Add(u, w)) == Dot(u, u) + 2.0 * Dot(u, w) + Dot(w, w)
  {
  }

  lemma DotScaleRight(u: Vec3, w: Vec3, s: real)
    ensures Dot(u, Scale(w, s)) == s * Dot(u, w)
  {
  }

  /** The squared length of the point `t` of the way along `e` from `a`. */
  lemma DotAlong(a: Vec3, e: Vec3, t: real)
    ensures Dot(Add(a, Scale(e, t)), Add(a, Scale(e, t)))
            == Dot(a, a) + 2.0 * t * Dot(a, e) + t * t * Dot(e, e)
  {
    DotAdd(a, Scale(e, t));
    DotScaleRight(a, e, t);
    DotScale(e, t);
  }

  /** The far end `b` of the segment from `a`, expanded the same way. */
  lemma DotSegmentEnd(a: Vec3, b: Vec3)
    ensures Dot(b, b) == Dot(a, a) + 2.0 * Dot(a, Sub(b, a)) + Dot(Sub(b, a), Sub(b, a))
  {
    DotAdd(a, Sub(b, a));
    assert Add(a, Sub(b, a)) == b;
  }

  /** A ball around the origin is convex: every point between two points
      of the ball lies in it. */
  lemma BallConvex(a: Vec3, b: Vec3, t: real, bound: real)
    requires 0.0 <= t <= 1.0 && Dot(a, a) <= bound && Dot(b, b) <= bound
    ensures Dot(Add(a, Scale(Sub(b, a), t)), Add(a, Scale(Sub(b, a), t))) <= bound
  {
    DotAlong(a, Sub(b, a), t);
    DotSegmentEnd(a, b);
    DotSelf(Sub(b, a));
    QuadraticBelow(t, Dot(a, a), Dot(a, Sub(b, a)), Dot(Sub(b, a), Sub(b, a)), bound);
  }
}
