# Player movement of the gorbulet prototype, in Dafny

This project models the one piece of game logic in the gorbulet Bevy
prototype (`src/main.rs`): the per-frame player movement system. Each frame,
`move_player` does three things:

- it reads the held movement keys into a direction (`get_direction`);
- it steers the player's velocity toward that direction at full speed with
  the move-toward clamp (`vec3_move_toward`), changing it by at most the
  acceleration times the frame time;
- it moves the player by the new velocity times the frame time.

The model follows the source's structure:

- `reals.dfy` (module `Reals`): small facts about real multiplication. The
  vector proofs do their non-linear steps through these.
- `vectors.dfy` (module `Vectors`): the `Vec3` arithmetic the movement code
  takes from its maths library, modelled over `real`. This covers sum,
  difference, scaling, dot product, squared distance, length and
  `try_normalize`. It also defines the cross product `Cross`, which the
  source does not use: it only serves to state that a step of the clamp is
  parallel to `to - from` (`Steering.MoveTowardAlongRay`).
- `move_toward.dfy` (module `Steering`): `vec3_move_toward` and its
  geometry.
- `input.dfy` (module `Input`): key codes, the rebindable `InputBindings`,
  and `get_direction`.
- `player.dfy` (module `Player`): the constants `PLAYER_ACCEL` and
  `PLAYER_MAX_SPEED`, and the velocity-then-translation update of
  `move_player`. It also defines `Run`, which is that update repeated over a
  sequence of frames, each with its own held keys and its own frame time.

Dafny's reals have no square root. Every operation that needs a length
therefore takes the square-root routine as a parameter `sqrt`, constrained
by `IsSqrt`: on a non-negative argument, the result is non-negative and
squares back to the argument. Comparisons are stated in squared form
wherever the source compares squares.

`get_direction` returns the raw sum of the held axes and does not normalize
diagonals (`src/main.rs:96`). `Input.DirectionLengthSquared` and
`Player.DiagonalSpeed` show what follows from this:

- a diagonal direction has squared length two;
- a player moving diagonally reaches √2 times the full speed.

## Model

| member | source | states |
|---|---|---|
| Player.Accelerate | src/main.rs:71-77 | The velocity changes by at most `PLAYER_ACCEL * dt`. It lands exactly on the target if and only if the target was within that reach, and it never ends farther from the target than it started. The translation then advances by the new velocity (not the old one) times `dt`. |
| Player.MovePlayer | src/main.rs:61-78 | One frame with given held keys: the velocity moves by at most `PLAYER_ACCEL * dt` toward the direction times `PLAYER_MAX_SPEED`. It reaches that target exactly when the target is within reach, and it never ends farther from it than it started. The translation moves by the updated velocity times `dt`. |
| Player.TargetSpeedSquared | src/main.rs:73 | The squared target speed is `PLAYER_MAX_SPEED` squared times the squared length of the direction. |
| Player.AccelerateFromRest | src/main.rs:71-77 | From rest, toward a target at full speed (300), one frame covers the fraction `min(600 * dt, 300) / 300` of the target velocity. |
| Player.AccelerateIdle | src/main.rs:71-77 | With a zero target, the speed drops by exactly `PLAYER_ACCEL * dt`, floored at zero. The velocity becomes exactly zero if and only if `abs(v) <= PLAYER_ACCEL * dt`. |
| Player.AccelerateKeepsSpeedLimit | src/main.rs:71-75 | Any speed limit that both the current velocity and the target respect is still respected after the frame. |
| Player.MovePlayerFromRest | src/main.rs:71-77 | A player at rest holding one axis gets, after one frame, `min(PLAYER_ACCEL * dt, PLAYER_MAX_SPEED) / PLAYER_MAX_SPEED` of the target velocity. |
| Player.MovePlayerIdle | src/main.rs:71-77 | With no net input (no keys, or only opposite pairs), the velocity still decelerates: its length drops by `PLAYER_ACCEL * dt` to a floor of zero. It is exactly zero if and only if the old speed was within that amount. |
| Player.MovePlayerKeepsSpeedLimit | src/main.rs:71-77 | A player no faster than the diagonal speed (squared speed `2 * 300^2`) stays within it after a frame, whatever keys are held. |
| Player.DiagonalSpeed | src/main.rs:73 | With a diagonal held, once the velocity catches up with the target its squared speed is `2 * 300^2`, not `300^2`. Diagonals are not normalized. |
| Player.RunAppend | src/main.rs:13 | `Run`, the movement system scheduled once per frame with that frame's keys and `delta_seconds`, composes: running two stretches of frames in turn is running their concatenation, so each frame starts from the state the previous one left. |
| Player.RunKeepsSpeedLimit | src/main.rs:13 | Over any sequence of frames, with any held keys and any non-negative frame times, a player starting within the diagonal speed never exceeds it. |
| Player.TargetVelocityScalesDirection | src/main.rs:73 | The target velocity, written out by components, is the direction scaled by `PLAYER_MAX_SPEED`. |
| Input.GetDirection | src/main.rs:80-97 | Each axis is +1 or -1 when exactly one of its two actions is held, and 0 when both or neither are held. An action is held when its bound key or its arrow key is pressed. Every component is in {-1, 0, 1} and z is 0. Opposite actions cancel. |
| Input.DirectionDependsOnActions | src/main.rs:83-94 | The direction depends on the pressed keys only through which of the four actions are held. |
| Input.AliasInterchangeable | src/main.rs:83-94 | Suppose the bound keys and arrow keys are eight distinct keys. Then pressing an action's bound key gives the same direction as pressing its arrow key, and pressing both counts once. |
| Input.DefaultBindingsDistinct | src/main.rs:31-40 | The default bindings W, S, A, D and the four arrow keys are eight distinct keys. |
| Input.NoKeysNoDirection | src/main.rs:81-96 | With no movement action held, the direction is the zero vector. |
| Input.DirectionLengthSquared | src/main.rs:81-96 | The squared length of the direction equals the number of axes that move. A diagonal is not normalized and has squared length 2. |
| Input.DirectionLengthBound | src/main.rs:81-96 | No direction has squared length above 2, the diagonal's. |
| Steering.MoveToward | src/main.rs:99-109 | The result is exactly `to` if and only if `abs(to - from)^2 <= distance^2`. In particular, `from == to` returns `to` without normalizing. The result never lies more than `distance` from `from`. |
| Steering.MoveTowardSteps | src/main.rs:104-105 | Beyond reach, `to - from` has non-zero length `l`, so normalization succeeds. The result is `from + (to - from) * (distance / l)`. |
| Steering.MoveTowardAlongRay | src/main.rs:104-105 | Beyond reach, the result lies exactly `distance` from `from`. Its offset from `from` is parallel to `to - from` and points the same way (cross product zero, dot product non-negative). |
| Steering.MoveTowardNoOvershoot | src/main.rs:99-108 | The result is never farther from `to` than `from` was. Beyond reach, its distance to `to` is exactly `abs(to - from) - distance`. |
| Steering.MoveTowardOnSegment | src/main.rs:99-108 | The result is `from + (to - from) * t` for some `t` in [0, 1], with `t = 1` if and only if it snaps. |
| Steering.MoveTowardStaysInBall | src/main.rs:99-108 | If `from` and `to` both lie in a ball around the origin, so does the result. |
| Steering.MoveTowardToZero | src/main.rs:99-108 | Moving toward the origin shortens the length by `distance`, stopping at zero. The result is zero if and only if the length was at most `distance`. |
| Vectors.TryNormalize | src/main.rs:104 | Normalization fails (`None`) exactly for the zero vector. |
| Vectors.TryNormalizeUnit | src/main.rs:104-105 | A normalized non-zero vector has unit length, and scaling it by the original length gives back the original vector. |
| Vectors.Length | src/main.rs:104 | The length is non-negative, squares to the squared length, and is zero exactly for the zero vector. |

## Left out

- Engine plumbing: `main` and the app and system registration (`src/main.rs:8-15`), `setup` with its camera, mesh, material and spawn position (`src/main.rs:42-59`), `PLAYER_RADIUS` and `PLAYER_COLOR`. None of these affect movement.
- The `Res`, `Query` and `Time` wiring of `move_player` (`src/main.rs:61-69`). The bindings, the set of held keys, the player's state and the frame time `dt` become parameters.
- The `Input<KeyCode>` resource becomes the set of keys held this frame. Just-pressed and just-released states are not used by the movement code.
- Floating point: all arithmetic is over `real`. `f32` rounding, `powf(2.0)` (modelled as an exact square) and overflow are not modelled.
- The library's square root is not visible. It is the `sqrt` parameter, constrained only by `IsSqrt`.
- `try_normalize` also fails on non-finite or denormal lengths. Over the reals it fails only for the zero vector, so the `from` fallback at `src/main.rs:106-107` cannot be reached. `Steering.MoveToward` keeps the branch but proves nothing float-specific about it.
- Steering.MoveToward: requires `distance >= 0`. A negative distance is still squared by `powf` and would step away from `to`; that case is not modelled.
- Player.Accelerate: requires `dt >= 0`. A negative frame time is not modelled; `Run` requires every frame's time to be non-negative for the same reason.
