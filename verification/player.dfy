/** The per-frame player movement system: steer the velocity toward the
    direction the keys ask for at full speed, by at most the acceleration
    times the frame time, then move the player by the new velocity. */
module Player {
  import opened Reals
  import opened Vectors
  import opened Steering
  import opened Input

  /** Velocity change per second, in world units per second squared. */
  const PlayerAccel: real := 600.0

  /** Speed along one axis when a key is held, in world units per second. */
  const PlayerMaxSpeed: real := 300.0

  /** The player's translation and velocity components. */
  datatype PlayerState = PlayerState(translation: Vec3, velocity: Vec3)

  /** The velocity the held keys ask for: the raw direction at full speed.
      It is written out by components; `TargetVelocityScalesDirection`
      states that it equals `Scale(GetDirection(b, pressed), PlayerMaxSpeed)`. */
  function TargetVelocity(b: InputBindings, pressed: set<KeyCode>): Vec3 {
    var d := GetDirection(b, pressed);
    Vec3(d.x * PlayerMaxSpeed, d.y * PlayerMaxSpeed, d.z * PlayerMaxSpeed)
  }

  /** The body of the movement system for one frame of `dt` seconds, for
      any target velocity. The velocity is updated first, toward the target
      by at most `PlayerAccel * dt`; the translation then advances by the
      new velocity times `dt`. */
  function Accelerate(p: PlayerState, target: Vec3, dt: real, sqrt: real -> real): (q: PlayerState)
    requires 0.0 <= dt && IsSqrt(sqrt)
    ensures DistanceSquared(p.velocity, q.velocity) <= (PlayerAccel * dt) * (PlayerAccel * dt)
    ensures q.velocity == target <==> DistanceSquared(p.velocity, target) <= (PlayerAccel * dt) * (PlayerAccel * dt)
    ensures DistanceSquared(q.velocity, target) <= DistanceSquared(p.velocity, target)
    ensures Sub(q.translation, p.translation) == Scale(q.velocity, dt)
  {
    MoveTowardNoOvershoot(p.velocity, target, PlayerAccel * dt, sqrt);
    var velocity := MoveToward(p.velocity, target, PlayerAccel * dt, sqrt);
    PlayerState(Add(p.translation, Scale(velocity, dt)), velocity)
  }

  /** One frame of the movement system with the keys in `pressed` held. */
  function MovePlayer(p: PlayerState, b: InputBindings, pressed: set<KeyCode>, dt: real, sqrt: real -> real): (q: PlayerState)
    requires 0.0 <= dt && IsSqrt(sqrt)
    ensures DistanceSquared(p.velocity, q.velocity) <= (PlayerAccel * dt) * (PlayerAccel * dt)
    ensures q.velocity == TargetVelocity(b, pressed)
            <==> DistanceSquared(p.velocity, TargetVelocity(b, pressed)) <= (PlayerAccel * dt) * (PlayerAccel * dt)
    ensures DistanceSquared(q.velocity, TargetVelocity(b, pressed)) <= DistanceSquared(p.velocity, TargetVelocity(b, pressed))
    ensures Sub(q.translation, p.translation) == Scale(q.velocity, dt)
  {
    Accelerate(p, TargetVelocity(b, pressed), dt, sqrt)
  }

  lemma TargetVelocityScalesDirection(b: InputBindings, pressed: set<KeyCode>)
    ensures TargetVelocity(b, pressed) == Scale(GetDirection(b, pressed), PlayerMaxSpeed)
  {
  }

  /** The squared target speed is the squared full speed times the squared
      length of the direction. */
  lemma TargetSpeedSquared(b: InputBindings, pressed: set<KeyCode>)
    ensures Dot(TargetVelocity(b, pressed), TargetVelocity(b, pressed))
            == PlayerMaxSpeed * PlayerMaxSpeed * Dot(GetDirection(b, pressed), GetDirection(b, pressed))
  {
    SpeedOf(TargetVelocity(b, pressed), GetDirection(b, pressed));
  }

  /** Scaling every component by the full speed scales the squared length
      by its square. */
  lemma SpeedOf(t: Vec3, d: Vec3)
    requires t == Vec3(d.x * PlayerMaxSpeed, d.y * PlayerMaxSpeed, d.z * PlayerMaxSpeed)
    ensures Dot(t, t) == PlayerMaxSpeed * PlayerMaxSpeed * Dot(d, d)
  {
  }

  /** Starting at rest toward a target at full speed, the velocity covers
      the fraction `min(PlayerAccel * dt, PlayerMaxSpeed) / PlayerMaxSpeed`
      of the way to the target within one frame. */
  lemma AccelerateFromRest(p: PlayerState, target: Vec3, dt: real, sqrt: real -> real)
    requires 0.0 <= dt && IsSqrt(sqrt)
    requires p.velocity == Zero && Dot(target, target) == PlayerMaxSpeed * PlayerMaxSpeed
    ensures Accelerate(p, target, dt, sqrt).velocity
            == Scale(target, Min(PlayerAccel * dt, PlayerMaxSpeed) / PlayerMaxSpeed)
  {
    var a := PlayerAccel * dt;
    assert Sub(Zero, target) == Scale(target, -1.0);
    DotScale(target, -1.0);
    SqLess(PlayerMaxSpeed, a, PlayerMaxSpeed * PlayerMaxSpeed, a * a);
    if a * a < DistanceSquared(Zero, target) {
      StepFromRest(target, a, sqrt);
    } else {
      assert target == Scale(target, PlayerMaxSpeed / PlayerMaxSpeed);
    }
  }

  /** Beyond reach of a target at full speed, a step from rest of `a` covers
      the fraction `a / PlayerMaxSpeed` of the target. */
  lemma StepFromRest(target: Vec3, a: real, sqrt: real -> real)
    requires 0.0 <= a && IsSqrt(sqrt)
    requires Dot(target, target) == PlayerMaxSpeed * PlayerMaxSpeed
    requires a * a < DistanceSquared(Zero, target)
    ensures MoveToward(Zero, target, a, sqrt) == Scale(target, a / PlayerMaxSpeed)
  {
    MoveTowardSteps(Zero, target, a, sqrt);
    assert Sub(target, Zero) == target;
    LengthUnique(target, sqrt, PlayerMaxSpeed);
  }

  /** With a zero target the player decelerates: its speed drops by
      `PlayerAccel * dt` per frame and becomes exactly zero once it is
      within that amount. */
  lemma AccelerateIdle(p: PlayerState, dt: real, sqrt: real -> real)
    requires 0.0 <= dt && IsSqrt(sqrt)
    ensures Length(Accelerate(p, Zero, dt, sqrt).velocity, sqrt)
            == Max(0.0, Length(p.velocity, sqrt) - PlayerAccel * dt)
    ensures Accelerate(p, Zero, dt, sqrt).velocity == Zero
            <==> Dot(p.velocity, p.velocity) <= (PlayerAccel * dt) * (PlayerAccel * dt)
  {
    var a := PlayerAccel * dt;
    MoveTowardToZero(p.velocity, a, sqrt);
    var l := Length(p.velocity, sqrt);
    SqLess(l, a, l * l, a * a);
  }

  /** A speed limit that the target respects is kept: if the current
      velocity is within it, so is the next. */
  lemma AccelerateKeepsSpeedLimit(p: PlayerState, target: Vec3, dt: real, sqrt: real -> real, bound: real)
    requires 0.0 <= dt && IsSqrt(sqrt)
    requires Dot(p.velocity, p.velocity) <= bound && Dot(target, target) <= bound
    ensures Dot(Accelerate(p, target, dt, sqrt).velocity, Accelerate(p, target, dt, sqrt).velocity) <= bound
  {
    MoveTowardStaysInBall(p.velocity, target, PlayerAccel * dt, sqrt, bound);
  }

  /** Starting at rest with exactly one axis asked for, the velocity covers
      the fraction `min(PlayerAccel * dt, PlayerMaxSpeed) / PlayerMaxSpeed`
      of the target within one frame; the translation already moves by the
      new velocity in that frame. */
  lemma MovePlayerFromRest(p: PlayerState, b: InputBindings, pressed: set<KeyCode>, dt: real, sqrt: real -> real)
    requires 0.0 <= dt && IsSqrt(sqrt)
    requires p.velocity == Zero
    requires Dot(GetDirection(b, pressed), GetDirection(b, pressed)) == 1.0
    ensures MovePlayer(p, b, pressed, dt, sqrt).velocity
            == Scale(TargetVelocity(b, pressed), Min(PlayerAccel * dt, PlayerMaxSpeed) / PlayerMaxSpeed)
  {
    TargetSpeedSquared(b, pressed);
    AccelerateFromRest(p, TargetVelocity(b, pressed), dt, sqrt);
  }

  /** With no net input (no movement key, or only opposite pairs) the
      player decelerates to rest. */
  lemma MovePlayerIdle(p: PlayerState, b: InputBindings, pressed: set<KeyCode>, dt: real, sqrt: real -> real)
    requires 0.0 <= dt && IsSqrt(sqrt)
    requires Held(b, pressed, MoveLeft) == Held(b, pressed, MoveRight)
    requires Held(b, pressed, MoveUp) == Held(b, pressed, MoveDown)
    ensures Length(MovePlayer(p, b, pressed, dt, sqrt).velocity, sqrt)
            == Max(0.0, Length(p.velocity, sqrt) - PlayerAccel * dt)
    ensures MovePlayer(p, b, pressed, dt, sqrt).velocity == Zero
            <==> Dot(p.velocity, p.velocity) <= (PlayerAccel * dt) * (PlayerAccel * dt)
  {
    assert TargetVelocity(b, pressed) == Zero;
    AccelerateIdle(p, dt, sqrt);
  }

  /** The squared diagonal speed, the largest target speed. */
  const DiagonalSpeedSquared: real := 2.0 * PlayerMaxSpeed * PlayerMaxSpeed

  /** A player no faster than the diagonal speed stays so after a frame. */
  lemma MovePlayerKeepsSpeedLimit(p: PlayerState, b: InputBindings, pressed: set<KeyCode>, dt: real, sqrt: real -> real)
    requires 0.0 <= dt && IsSqrt(sqrt)
    requires Dot(p.velocity, p.velocity) <= DiagonalSpeedSquared
    ensures Dot(MovePlayer(p, b, pressed, dt, sqrt).velocity, MovePlayer(p, b, pressed, dt, sqrt).velocity)
            <= DiagonalSpeedSquared
  {
    TargetSpeedSquared(b, pressed);
    DirectionLengthBound(b, pressed);
    AccelerateKeepsSpeedLimit(p, TargetVelocity(b, pressed), dt, sqrt, DiagonalSpeedSquared);
  }

  /** Diagonals are not normalized: once the velocity has caught up with a
      diagonal target its squared speed is twice the squared full speed. */
  lemma DiagonalSpeed(p: PlayerState, b: InputBindings, pressed: set<KeyCode>, dt: real, sqrt: real -> real)
    requires 0.0 <= dt && IsSqrt(sqrt)
    requires Held(b, pressed, MoveLeft) != Held(b, pressed, MoveRight)
    requires Held(b, pressed, MoveUp) != Held(b, pressed, MoveDown)
    requires DistanceSquared(p.velocity, TargetVelocity(b, pressed)) <= (PlayerAccel * dt) * (PlayerAccel * dt)
    ensures Dot(MovePlayer(p, b, pressed, dt, sqrt).velocity, MovePlayer(p, b, pressed, dt, sqrt).velocity)
            == DiagonalSpeedSquared
  {
    TargetSpeedSquared(b, pressed);
    DirectionLengthSquared(b, pressed);
  }

  /** One run of the movement system: the keys held during the frame and
      the frame's duration in seconds. */
  datatype Frame = Frame(pressed: set<KeyCode>, dt: real)

  /** Frames of the movement system in order, each with its own held keys
      and its own frame time, as the update schedule supplies them. */
  function Run(p: PlayerState, b: InputBindings, frames: seq<Frame>, sqrt: real -> real): PlayerState
    requires IsSqrt(sqrt)
    requires forall i :: 0 <= i < |frames| ==> 0.0 <= frames[i].dt
    decreases |frames|
  {
    if |frames| == 0 then p
    else Run(MovePlayer(p, b, frames[0].pressed, frames[0].dt, sqrt), b, frames[1..], sqrt)
  }

  /** Running two stretches of frames one after the other is running their
      concatenation: each frame starts from the state the previous one left. */
  lemma {:induction false} RunAppend(p: PlayerState, b: InputBindings, first: seq<Frame>, second: seq<Frame>, sqrt: real -> real)
    requires IsSqrt(sqrt)
    requires forall i :: 0 <= i < |first| ==> 0.0 <= first[i].dt
    requires forall i :: 0 <= i < |second| ==> 0.0 <= second[i].dt
    ensures forall i :: 0 <= i < |first + second| ==> 0.0 <= (first + second)[i].dt
    ensures Run(p, b, first + second, sqrt) == Run(Run(p, b, first, sqrt), b, second, sqrt)
    decreases |first|
  {
    var all := first + second;
    assert forall i :: 0 <= i < |all| ==> 0.0 <= all[i].dt by {
      forall i | 0 <= i < |all|
        ensures 0.0 <= all[i].dt
      {
        if i < |first| {
          assert all[i] == first[i];
        } else {
          assert all[i] == second[i - |first|];
        }
      }
    }
    if |first| > 0 {
      assert all[0] == first[0];
      assert all[1..] == first[1..] + second;
      RunAppend(MovePlayer(p, b, first[0].pressed, first[0].dt, sqrt), b, first[1..], second, sqrt);
    } else {
      assert all == second;
    }
  }

  /** Whatever keys are held and however long each frame lasts, a player
      that starts no faster than the diagonal speed never exceeds it. */
  lemma {:induction false} RunKeepsSpeedLimit(p: PlayerState, b: InputBindings, frames: seq<Frame>, sqrt: real -> real)
    requires IsSqrt(sqrt)
    requires forall i :: 0 <= i < |frames| ==> 0.0 <= frames[i].dt
    requires Dot(p.velocity, p.velocity) <= DiagonalSpeedSquared
    ensures Dot(Run(p, b, frames, sqrt).velocity, Run(p, b, frames, sqrt).velocity) <= DiagonalSpeedSquared
    decreases |frames|
  {
    if |frames| > 0 {
      MovePlayerKeepsSpeedLimit(p, b, frames[0].pressed, frames[0].dt, sqrt);
      RunKeepsSpeedLimit(MovePlayer(p, b, frames[0].pressed, frames[0].dt, sqrt), b, frames[1..], sqrt);
    }
  }
}
