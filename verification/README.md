# Space Evasion (Rust edition): the frame loop's bookkeeping

The game is a single `async fn main` loop in `src/main.rs`. It moves a ship
with thrust and friction, bounces it off the screen edges, fires bullets, and
draws an FPS counter. This project models the discrete, deterministic part of
one loop iteration as pure functions over an explicit state record, and
proves properties of it:

- `total`: the FPS sample summing helper.
- The FPS rolling window. It holds at most 16 `i32` samples. The average is
  computed with `i32` division, which truncates toward zero.
- The bounded bullet FIFO. A new bullet goes on the end. Index 0 is dropped
  once the list exceeds `MAX_BULLETS = 32`.
- The two cooldown locks, `lock_movement` and `lock_shoot`. Each is set by
  its event and cleared once `elapsed().as_millis() > 150`. A clock read
  that fails leaves the lock alone.
- Thrust gating. Up or W applies thrust only while the movement lock is
  clear.
- The wall bounce. An if/else-if chain handles at most one edge per frame:
  x < 0, then x > width, then y < 0, then y > height. The handled coordinate
  is snapped to the edge, its velocity component is negated, and the
  movement lock is set.

Modules:

- `BoundedQueue` (`bounded_queue.dfy`): the push-then-drop-oldest buffer
  that the FPS window and the bullet list share. It comes with `Last`, an
  independent "newest n elements" reference.
- `Fps` (`fps.dfy`): `total`, truncating division, the window and its
  average.
- `Cooldown` (`cooldown.dfy`): `SystemTime::elapsed` plus `as_millis`, and
  lock release.
- `Motion` (`motion.dfy`): thrust gating and the bounce, over `real`.
  Snapping to 0 or to a screen dimension and negating a component are exact
  in IEEE arithmetic.
- `Bullets` (`bullets.dfy`): the fire step.
- `Game` (`game.dfy`): the state record, one frame (`Step`), and runs of
  frames.

The model's inputs stand in for the program's I/O:

- Keys are booleans. The frame sees Escape, Up, W, Right, D, Left, A and
  Space.
- The `get_fps()` sample is an integer.
- The screen size is a pair of reals.
- Each `SystemTime::now()` reading of a frame is an integer instant in
  nanoseconds. `elapsed()` fails exactly when the clock now reads earlier
  than the stored instant.
- The floating-point numerics are passed in as functions (`Game.Numerics`).
  These are turning by 5 degrees, thrust and friction, the speed cap, moving
  the ship and the bullets, and aiming a new bullet. The direction of the
  turn is decided from the frame's keys (`Game.Steering`) and handed to the
  integration.

Facts about `src/main.rs` worth knowing when reading the model:

- `src/main.rs` has no asteroids, score, lives, ammo or game-over screen.
- The locks do not clear at exactly 150 ms. They clear when the elapsed time,
  truncated to whole milliseconds, is strictly above 150. In other words, a
  lock clears only once 151 ms have passed (`Cooldown.ReleaseIffTimeoutPassed`).
- Bullets are never removed for leaving the screen. Only the 32-bullet cap
  removes them, and the model keeps this.

## Model

| member | source | states |
|---|---|---|
| `Fps.Total` | src/main.rs:7-13 | The loop's result equals the arithmetic sum of the vector (an independent recursive definition); it is 0 for an empty vector |
| `Fps.WindowSumFitsI32` | src/main.rs:7-13 | A window of at most 16 samples, each in [0, 134217727], sums within [0, i32::MAX], so `total` cannot overflow on realistic frame rates |
| `Fps.TruncDiv` | src/main.rs:65 | `i32` division rounds toward zero: the remainder lies in [0, b) for a non-negative dividend and in (-b, 0] for a negative one |
| `Fps.TruncDivOfNonNegative` | src/main.rs:65 | For non-negative sums, truncating division agrees with flooring division |
| `Fps.AverageWithinSamples` | src/main.rs:65 | The displayed average lies between any lower and upper bound of the window's samples, whatever their signs |
| `Fps.Average` | src/main.rs:65 | The average times the window length differs from the sum by less than one length, on the sum's side of zero (division rounded toward zero) |
| `Fps.Record` | src/main.rs:61-65 | After the push the window is non-empty (so the division at line 65 is defined) and ends with the new sample; from a window of at most 16 it is exactly the newest min(n+1, 16) samples in their original order; the value shown is the average of that window |
| `Fps.RecordAverageOfNonNegative` | src/main.rs:61-65 | For non-negative samples the average equals sum / length with flooring division and stays within [0, max sample] |
| `BoundedQueue.Push` | src/main.rs:153-156 | From a queue within capacity, the result is the newest `cap` elements of queue-plus-new-element. Below capacity nothing is dropped. At or above capacity only index 0 is dropped and the rest keep their order. The pushed element is last |
| `BoundedQueue.PushAllKeepsNewest` | src/main.rs:61-64 | Any run of pushes into a queue within capacity leaves exactly the newest `cap` elements pushed, oldest first |
| `BoundedQueue.PushAllBounded` | src/main.rs:153-156 | Any run of pushes keeps the length at min(initial + pushed, cap), so it never exceeds the cap |
| `Cooldown.ElapsedMillis` | src/main.rs:110-111 | Reading the elapsed time fails exactly when the clock has gone backwards; otherwise it yields the whole milliseconds elapsed, rounded down |
| `Cooldown.Release` | src/main.rs:109-118 | A lock is never set by the check. A set lock clears exactly when the clock read succeeds and more than the timeout has elapsed; a failed read leaves it set |
| `Cooldown.ReleaseIffTimeoutPassed` | src/main.rs:119-128 | In terms of the two clock readings, a set lock clears if and only if they are at least timeout + 1 whole milliseconds apart |
| `Motion.ThrustApplies` | src/main.rs:70-72 | Thrust replaces friction exactly when Up or W is held and the movement lock is clear |
| `Motion.CrossedEdge` | src/main.rs:87-107 | The chain picks no edge exactly when the ship is on screen, and otherwise the first crossed edge in the order x<0, x>width, y<0, y>height |
| `Motion.Bounce` | src/main.rs:87-107 | A bounce happens exactly when the ship is off screen. It touches one axis only: that coordinate is snapped to 0 or the screen dimension and that velocity component is negated. Rotation and the other axis are unchanged, and with no edge crossed nothing changes |
| `Motion.TwoBouncesReachScreen` | src/main.rs:87-107 | On a screen of non-negative size, two bounces with no movement between always bring the ship on screen |
| `Motion.CornerNeedsTwoBounces` | src/main.rs:87-107 | Any ship off screen on both axes is still off screen after one bounce; its y position and y velocity are untouched that frame |
| `Bullets.Fire` | src/main.rs:143-160 | A shot leaves exactly when fire is held and the shoot lock is clear. Otherwise the list and lock are unchanged. A shot sets the lock and appends one bullet at the end; at capacity only the oldest is dropped, so the list is the newest 32 of the old bullets plus the shot, in order, and never exceeds 32 |
| `Game.Steering` | src/main.rs:74-79 | Right or D turns right; only when neither is held does Left or A turn left; with none of the four held the heading is kept |
| `Game.Init` | src/main.rs:34-44 | The first state has the ship at rest with rotation 0 and on screen. It has no samples and no bullets, and both locks are clear |
| `Game.AdvanceAll` | src/main.rs:167-173 | Moving the bullets keeps their number and order, each bullet moved on its own |
| `Game.Step` | src/main.rs:56-177 | Escape ends the loop. Otherwise: the window and bullet bounds are preserved, and the window holds the newest samples with this frame's last; the value shown is that window's average; the ship ends the frame integrated and then bounced. A bounce restamps the collision time, and the movement lock ends the frame clear exactly when it was neither set nor bounced, or at least 151 ms separate bounce and check. Without a shot no bullet is added or removed and the shoot lock follows the same 151 ms rule; a shot appends the bullet aimed along the start-of-frame heading from the bounced position, drops only the oldest at capacity, and sets and restamps the lock |
| `Game.LockedIgnoresThrustKeys` | src/main.rs:67-72 | While the movement lock is set, whether Up or W is held makes no difference to the frame |
| `Game.Run` | src/main.rs:56-177 | Over any number of frames the FPS window stays at most 16 samples long and the bullet list at most 32 |
| `Game.RunStopsAtEscape` | src/main.rs:56-59 | Once Escape is held the loop ends: inputs after the first frame with Escape have no effect on the state reached |
| `Game.RunFpsIsPushAll` | src/main.rs:61-64 | Until Escape, the frames fill the FPS window exactly as the same samples pushed one by one into the bounded queue |
| `Game.RunFpsWindow` | src/main.rs:61-64 | Until Escape, the FPS window after any run of frames is exactly the newest 16 samples taken (all of them early on), in the order taken |

## Left out

- Rendering is not modelled: `draw_texture_ex`, `draw_triangle_lines`,
  `draw_text` and the textures are calls into the graphics library.
- Keyboard polling, `get_fps()` and `next_frame().await` are host calls.
  Their values are inputs.
- `SystemTime::now()` is an input instant. The `println!` of a clock error
  is output and is not modelled.
- The float physics are not modelled: steering by ±5°, the thrust vector,
  friction `-vel / 27.5`, the speed cap at 5 via `normalize()`, `pos += vel`,
  the ship vertices `v1`/`v2`/`v3`, and the bullet's aim and motion. They
  are `f32` arithmetic and trigonometry, so they appear only as the
  `Game.Numerics` functions.
- Fps.Total: sums over unbounded `int`, so `i32` overflow (a panic in debug
  builds, wrap-around in release) is not modelled. `Fps.WindowSumFitsI32`
  bounds the sum for realistic samples instead.
- Motion.Bounce: positions are `real`, which has no NaN. With a NaN
  coordinate the code handles no edge.
- Motion.Bounce: `screen_width()`/`screen_height()` are read separately for
  the comparison and for the snap. The model takes one width and height per
  frame.
- Asteroids, score, lives, ammo and game over/restart are not modelled:
  `src/main.rs` contains none of them.
