/** The move-toward clamp used to steer the player's velocity: move a point
    toward a target by at most a given distance, snapping onto the target
    when it is already within reach. */
module Steering {
  import opened Reals
  import opened Vectors

  /** Moves `from` toward `to` by at most `distance`. When `to` lies within
      `distance` (compared in squared form) the result is exactly `to`;
      otherwise it is `from` plus `distance` times the unit vector toward
      `to`. The fallback to `from` when normalization fails cannot be taken
      over the reals: a zero difference already snaps. */
  function MoveToward(from: Vec3, to: Vec3, distance: real, sqrt: real -> real): (r: Vec3)
    requires 0.0 <= distance && IsSqrt(sqrt)
    ensures r == to <==> DistanceSquared(from, to) <= distance * distance
    ensures from == to ==> r == to
    ensures DistanceSquared(from, r) <= distance * distance
  {
    if DistanceSquared(from, to) <= distance * distance then to
    else
      StepGeometry(from, to, distance, sqrt);
      StepOffset(from, to, distance, Length(Sub(to, from), sqrt));
      match TryNormalize(Sub(to, from), sqrt)
      case Some(direction) => Add(from, Scale(direction, distance))
      case None => from
  }

  /** Beyond reach, the result is `from + (to - from) * (distance / l)`
      where `l` is the length of `to - from`. */
  lemma MoveTowardSteps(from: Vec3, to: Vec3, distance: real, sqrt: real -> real)
    requires 0.0 <= distance && IsSqrt(sqrt)
    requires distance * distance < DistanceSquared(from, to)
    ensures Length(Sub(to, from), sqrt) != 0.0
    ensures MoveToward(from, to, distance, sqrt) == Stepped(from, to, distance, Length(Sub(to, from), sqrt))
  {
    StepGeometry(from, to, distance, sqrt);
  }

  /** Beyond reach, the result lies exactly `distance` from `from`, on the
      ray from `from` toward `to`: its offset is parallel to `to - from`
      and points the same way. */
  lemma MoveTowardAlongRay(from: Vec3, to: Vec3, distance: real, sqrt: real -> real)
    requires 0.0 <= distance && IsSqrt(sqrt)
    requires distance * distance < DistanceSquared(from, to)
    ensures DistanceSquared(from, MoveToward(from, to, distance, sqrt)) == distance * distance
    ensures Cross(Sub(MoveToward(from, to, distance, sqrt), from), Sub(to, from)) == Zero
    ensures 0.0 <= Dot(Sub(MoveToward(from, to, distance, sqrt), from), Sub(to, from))
  {
    MoveTowardSteps(from, to, distance, sqrt);
    StepBeyondReach(from, to, distance, sqrt);
    var l := Length(Sub(to, from), sqrt);
    StepOffset(from, to, distance, l);
    StepOnRay(from, to, distance, l);
  }

  /** The result never overshoots: it is no farther from `to` than `from`
      was, and beyond reach it is exactly `distance` closer. */
  lemma MoveTowardNoOvershoot(from: Vec3, to: Vec3, distance: real, sqrt: real -> real)
    requires 0.0 <= distance && IsSqrt(sqrt)
    ensures DistanceSquared(MoveToward(from, to, distance, sqrt), to) <= DistanceSquared(from, to)
    ensures distance * distance < DistanceSquared(from, to) ==>
              Length(Sub(to, MoveToward(from, to, distance, sqrt)), sqrt)
              == Length(Sub(to, from), sqrt) - distance
  {
    if distance * distance < DistanceSquared(from, to) {
      MoveTowardSteps(from, to, distance, sqrt);
      StepCloser(from, to, distance, sqrt);
    } else {
      SnapNoOvershoot(from, to, distance, sqrt);
    }
  }

  lemma SnapNoOvershoot(from: Vec3, to: Vec3, distance: real, sqrt: real -> real)
    requires 0.0 <= distance && IsSqrt(sqrt)
    requires DistanceSquared(from, to) <= distance * distance
    ensures DistanceSquared(MoveToward(from, to, distance, sqrt), to) <= DistanceSquared(from, to)
  {
    DotSelf(Sub(from, to));
    DotSelf(Sub(to, to));
  }

  /** The result lies on the segment from `from` to `to`, a fraction `t`
      of the way along; the fraction is one exactly when it snaps. */
  lemma MoveTowardOnSegment(from: Vec3, to: Vec3, distance: real, sqrt: real -> real) returns (t: real)
    requires 0.0 <= distance && IsSqrt(sqrt)
    ensures 0.0 <= t <= 1.0
    ensures MoveToward(from, to, distance, sqrt) == Add(from, Scale(Sub(to, from), t))
    ensures t == 1.0 <==> DistanceSquared(from, to) <= distance * distance
  {
    if DistanceSquared(from, to) <= distance * distance {
      t := 1.0;
      assert Add(from, Scale(Sub(to, from), t)) == to;
    } else {
      MoveTowardSteps(from, to, distance, sqrt);
      StepBeyondReach(from, to, distance, sqrt);
      var l := Length(Sub(to, from), sqrt);
      t := distance / l;
      RatioBounds(l, distance);
    }
  }

  /** If both ends lie in the ball of squared radius `bound` around the
      origin, so does the result: clamped steering never leaves a speed
      limit that both the current and the target velocity respect. */
  lemma MoveTowardStaysInBall(from: Vec3, to: Vec3, distance: real, sqrt: real -> real, bound: real)
    requires 0.0 <= distance && IsSqrt(sqrt)
    requires Dot(from, from) <= bound && Dot(to, to) <= bound
    ensures Dot(MoveToward(from, to, distance, sqrt), MoveToward(from, to, distance, sqrt)) <= bound
  {
    var t := MoveTowardOnSegment(from, to, distance, sqrt);
    BallConvex(from, to, t, bound);
  }

  /** Moving toward the origin shortens the length by `distance`, stopping
      exactly at zero. */
  lemma MoveTowardToZero(from: Vec3, distance: real, sqrt: real -> real)
    requires 0.0 <= distance && IsSqrt(sqrt)
    ensures Length(MoveToward(from, Zero, distance, sqrt), sqrt) == Max(0.0, Length(from, sqrt) - distance)
    ensures MoveToward(from, Zero, distance, sqrt) == Zero <==> Length(from, sqrt) <= distance
  {
    var r := MoveToward(from, Zero, distance, sqrt);
    var l := Length(from, sqrt);
    assert Sub(from, Zero) == from;
    SqLess(l, distance, l * l, distance * distance);
    if distance * distance < DistanceSquared(from, Zero) {
      MoveTowardNoOvershoot(from, Zero, distance, sqrt);
      LengthNegate(from, sqrt);
      LengthNegate(r, sqrt);
    }
  }

  /** The stepping branch's result, `from + (to - from) * (distance / l)`,
      for `l` the length of `to - from`. */
  function Stepped(from: Vec3, to: Vec3, distance: real, l: real): Vec3
    requires l != 0.0
  {
    Add(from, Scale(Sub(to, from), distance / l))
  }

  /** The stepping branch normalizes `d = to - from` by its length `l`,
      which exceeds `distance`, and lands on `from + d * (distance / l)`. */
  lemma StepGeometry(from: Vec3, to: Vec3, distance: real, sqrt: real -> real)
    requires 0.0 <= distance && IsSqrt(sqrt)
    requires distance * distance < DistanceSquared(from, to)
    ensures distance < Length(Sub(to, from), sqrt)
    ensures TryNormalize(Sub(to, from), sqrt)
         == Some(Scale(Sub(to, from), 1.0 / Length(Sub(to, from), sqrt)))
    ensures Add(from, Scale(Scale(Sub(to, from), 1.0 / Length(Sub(to, from), sqrt)), distance))
         == Stepped(from, to, distance, Length(Sub(to, from), sqrt))
  {
    StepBeyondReach(from, to, distance, sqrt);
    StepDirection(from, to, distance, Length(Sub(to, from), sqrt));
  }

  /** Scaling the unit direction by `distance` is scaling the difference
      by `distance / l`. */
  lemma StepDirection(from: Vec3, to: Vec3, distance: real, l: real)
    requires 0.0 < l
    ensures Add(from, Scale(Scale(Sub(to, from), 1.0 / l), distance)) == Stepped(from, to, distance, l)
  {
    ScaleScale(Sub(to, from), 1.0 / l, distance);
    assert (1.0 / l) * distance == distance / l;
  }

  /** With `l` the length of `d = to - from`, the step is `d * (distance / l)`
      and has length `distance`. */
  lemma StepOffset(from: Vec3, to: Vec3, distance: real, l: real)
    requires 0.0 < l && l * l == Dot(Sub(to, from), Sub(to, from))
    ensures Sub(Stepped(from, to, distance, l), from) == Scale(Sub(to, from), distance / l)
    ensures DistanceSquared(from, Stepped(from, to, distance, l)) == distance * distance
  {
    var d := Sub(to, from);
    var r := Stepped(from, to, distance, l);
    assert Sub(r, from) == Scale(d, distance / l);
    DistanceSquaredSymmetric(from, r);
    DotScale(d, distance / l);
    RatioSquare(l, distance, distance / l, Dot(d, d));
  }

  /** The step is a non-negative multiple of `d = to - from`. */
  lemma StepOnRay(from: Vec3, to: Vec3, distance: real, l: real)
    requires 0.0 <= distance < l && l * l == Dot(Sub(to, from), Sub(to, from))
    ensures Cross(Sub(Stepped(from, to, distance, l), from), Sub(to, from)) == Zero
    ensures 0.0 <= Dot(Sub(Stepped(from, to, distance, l), from), Sub(to, from))
  {
    var d := Sub(to, from);
    var t := distance / l;
    StepOffset(from, to, distance, l);
    RatioBounds(l, distance);
    CrossScaleSelf(d, t);
    DotScaleLeft(d, d, t);
    DotSelf(d);
    MulNonNeg(t, Dot(d, d), t * Dot(d, d));
  }

  /** What remains after the step is `d * (1 - distance / l)`, of length
      `l - distance`: no more than the whole of `d`. */
  lemma StepRemaining(from: Vec3, to: Vec3, distance: real, l: real)
    requires 0.0 <= distance < l && l * l == Dot(Sub(to, from), Sub(to, from))
    ensures Dot(Sub(to, Stepped(from, to, distance, l)), Sub(to, Stepped(from, to, distance, l)))
            == (l - distance) * (l - distance)
    ensures DistanceSquared(Stepped(from, to, distance, l), to) <= DistanceSquared(from, to)
  {
    var d := Sub(to, from);
    var r := Stepped(from, to, distance, l);
    RemainderSquare(from, to, distance, l);
    SqMono(l - distance, l, (l - distance) * (l - distance), l * l);
    DistanceSquaredSymmetric(r, to);
    DistanceSquaredSymmetric(from, to);
  }

  /** The stepping branch's result is `l - distance` short of `to`, for `l`
      the length of `to - from`. */
  lemma StepCloser(from: Vec3, to: Vec3, distance: real, sqrt: real -> real)
    requires 0.0 <= distance && IsSqrt(sqrt)
    requires distance * distance < DistanceSquared(from, to)
    ensures distance < Length(Sub(to, from), sqrt)
    ensures DistanceSquared(Stepped(from, to, distance, Length(Sub(to, from), sqrt)), to)
            <= DistanceSquared(from, to)
    ensures Length(Sub(to, Stepped(from, to, distance, Length(Sub(to, from), sqrt))), sqrt)
            == Length(Sub(to, from), sqrt) - distance
  {
    StepBeyondReach(from, to, distance, sqrt);
    var l := Length(Sub(to, from), sqrt);
    StepRemaining(from, to, distance, l);
    LengthUnique(Sub(to, Stepped(from, to, distance, l)), sqrt, l - distance);
  }

  lemma RemainderSquare(from: Vec3, to: Vec3, distance: real, l: real)
    requires 0.0 < l && l * l == Dot(Sub(to, from), Sub(to, from))
    ensures Dot(Sub(to, Stepped(from, to, distance, l)), Sub(to, Stepped(from, to, distance, l)))
            == (l - distance) * (l - distance)
  {
    var d := Sub(to, from);
    assert Sub(to, Stepped(from, to, distance, l)) == Scale(d, 1.0 - distance / l);
    DotScale(d, 1.0 - distance / l);
    ComplementSquare(l, distance, distance / l, Dot(d, d));
  }

  lemma StepBeyondReach(from: Vec3, to: Vec3, distance: real, sqrt: real -> real)
    requires 0.0 <= distance && IsSqrt(sqrt)
    requires distance * distance < DistanceSquared(from, to)
    ensures distance < Length(Sub(to, from), sqrt)
  {
    var d := Sub(to, from);
    DistanceSquaredSymmetric(from, to);
    var l := Length(d, sqrt);
    SqLess(distance, l, distance * distance, l * l);
  }
}
