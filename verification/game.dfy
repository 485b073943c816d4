/**
 One iteration of the game loop as a pure step over an explicit state
 record. Keys, the frame-rate sample, the screen size and every reading of
 the wall clock are inputs; the floating-point numerics (steering, thrust
 and friction, the speed cap, moving the ship and the bullets, aiming a new
 bullet) are supplied as functions, since they are not modelled.
 */
module Game {
  import opened BoundedQueue
  import Fps
  import opened Cooldown
  import opened Motion
  import opened Bullets

  /** The loop-local variables that persist across frames. */
  datatype State = State(
    fpsHistory: seq<int>,
    player: Player,
    bullets: seq<Bullet>,
    lockMovement: bool,
    lockShoot: bool,
    collidedAt: int,   // `collided_time`, in nanoseconds
    lastShotAt: int)   // `last_shot_time`, in nanoseconds

  /** The keys the loop polls each frame: Escape, Up, W, Right, D, Left, A
      and Space. */
  datatype Keys = Keys(
    escape: bool, up: bool, w: bool,
    right: bool, d: bool, left: bool, a: bool,
    space: bool)

  /** Which way the ship turns this frame. */
  datatype Turn = TurnRight | TurnLeft | NoTurn

  /** src/main.rs lines 74-79: Right or D turns right; otherwise Left or A
      turns left; otherwise the heading is kept. */
  function Steering(keys: Keys): (t: Turn)
    ensures t == TurnRight <==> keys.right || keys.d
    ensures t == TurnLeft <==> !(keys.right || keys.d) && (keys.left || keys.a)
    ensures t == NoTurn <==> !(keys.right || keys.d || keys.left || keys.a)
  {
    if keys.right || keys.d then TurnRight
    else if keys.left || keys.a then TurnLeft
    else NoTurn
  }

  /** The `SystemTime::now()` readings of one frame, in the order the loop
      takes them: at a bounce, when checking the movement lock, when checking
      the shoot lock, and at a shot. A reading is only used when the loop
      actually takes it. */
  datatype Clock = Clock(bounceAt: int, movementCheckAt: int, shootCheckAt: int, fireAt: int)

  datatype Input = Input(keys: Keys, fpsSample: int, width: real, height: real, clock: Clock)

  /** The float computations left to the host:
      `integrate(player, thrust, turn)` applies thrust (along the heading read
      before turning) or friction, turns the ship by 5 degrees in the chosen
      direction, caps the speed at 5 and moves the ship;
      `aim(heading, pos)` builds the bullet fired from the nose of a ship at
      `pos`, where `heading` is the rotation read at the start of the frame,
      before steering;
      `advance(bullet)` moves a bullet by its velocity. */
  datatype Numerics = Numerics(
    integrate: (Player, bool, Turn) -> Player,
    aim: (real, Vec2) -> Bullet,
    advance: Bullet -> Bullet)

  /** Escape ends the loop; otherwise the next state and the FPS shown. */
  datatype Outcome = Quit | Continue(state: State, averageFps: int)

  predicate Invariant(s: State) {
    |s.fpsHistory| <= Fps.Window && |s.bullets| <= MaxBullets
  }

  /** The state before the first frame: the ship at rest in the middle of the
      screen, no samples, no bullets, both locks clear. */
  function Init(width: real, height: real, collidedAt: int, lastShotAt: int): (s: State)
    ensures Invariant(s)
    ensures s.fpsHistory == [] && s.bullets == []
    ensures !s.lockMovement && !s.lockShoot
    ensures s.player.vel == Vec2(0.0, 0.0) && s.player.rot == 0.0
    ensures 0.0 <= width && 0.0 <= height ==> OnScreen(s.player.pos, width, height)
  {
    State([], Player(0.0, Vec2(width / 2.0, height / 2.0), Vec2(0.0, 0.0)), [], false, false,
          collidedAt, lastShotAt)
  }

  /** Every bullet moved by one frame, none added or removed. */
  function AdvanceAll(advance: Bullet -> Bullet, bs: seq<Bullet>): (r: seq<Bullet>)
    ensures |r| == |bs|
    ensures forall i :: 0 <= i < |bs| ==> r[i] == advance(bs[i])
  {
    seq(|bs|, i requires 0 <= i < |bs| => advance(bs[i]))
  }

  /** Whether thrust is applied this frame (decided on last frame's lock). */
  function Thrust(s: State, input: Input): bool {
    ThrustApplies(input.keys.up, input.keys.w, s.lockMovement)
  }

  /** The ship after integration and before the bounce check. */
  function Moved(s: State, input: Input, num: Numerics): Player {
    num.integrate(s.player, Thrust(s, input), Steering(input.keys))
  }

  predicate BouncesThisFrame(s: State, input: Input, num: Numerics) {
    !OnScreen(Moved(s, input, num).pos, input.width, input.height)
  }

  /** The shoot lock as the fire check sees it: released first if its time
      is up. */
  function ShootLockAtFire(s: State, input: Input): bool {
    Release(s.lockShoot, ElapsedMillis(s.lastShotAt, input.clock.shootCheckAt), ShootTimeoutMs)
  }

  predicate FiresThisFrame(s: State, input: Input) {
    input.keys.space && !ShootLockAtFire(s, input)
  }

  /** src/main.rs lines 56-177, without drawing. */
  function Step(s: State, input: Input, num: Numerics): (o: Outcome)
    ensures o.Quit? <==> input.keys.escape
    ensures o.Continue? && Invariant(s) ==> Invariant(o.state)
    // The ship ends the frame integrated and then bounced off at most one edge.
    ensures o.Continue? ==> o.state.player == Bounce(Moved(s, input, num), input.width, input.height).player
    // The FPS window always holds this frame's sample, newest last, after
    // the newest earlier samples that still fit, in order.
    ensures o.Continue? ==>
      |o.state.fpsHistory| > 0 && o.state.fpsHistory[|o.state.fpsHistory| - 1] == input.fpsSample
    ensures o.Continue? && |s.fpsHistory| <= Fps.Window ==>
      o.state.fpsHistory == Last(s.fpsHistory + [input.fpsSample], Fps.Window)
    // The value shown is the average of the window after this frame's push.
    ensures o.Continue? ==> o.averageFps == Fps.Average(o.state.fpsHistory)
    // Bouncing restamps the collision time; otherwise it is kept.
    ensures o.Continue? ==>
      o.state.collidedAt == if BouncesThisFrame(s, input, num) then input.clock.bounceAt else s.collidedAt
    // The movement lock is clear at the end of a frame that neither started
    // locked nor bounced; otherwise it is clear exactly when at least 151 whole
    // milliseconds separate the last bounce from the check.
    ensures o.Continue? && !s.lockMovement && !BouncesThisFrame(s, input, num) ==> !o.state.lockMovement
    ensures o.Continue? && (s.lockMovement || BouncesThisFrame(s, input, num)) ==>
      (!o.state.lockMovement <==>
        input.clock.movementCheckAt - o.state.collidedAt >= (CollisionDisableMs + 1) * NanosPerMilli)
    // No shot: no bullet is added or removed, and the shoot lock is clear at the
    // end exactly when it was clear, or at least 151 ms have passed since the last shot.
    ensures o.Continue? && !FiresThisFrame(s, input) ==>
      && o.state.bullets == AdvanceAll(num.advance, s.bullets)
      && o.state.lastShotAt == s.lastShotAt
      && (!o.state.lockShoot <==>
           !s.lockShoot || input.clock.shootCheckAt - s.lastShotAt >= (ShootTimeoutMs + 1) * NanosPerMilli)
    // A shot: one new bullet at the end, the oldest dropped only at capacity,
    // and the shoot lock set and restamped.
    ensures o.Continue? && FiresThisFrame(s, input) ==>
      && o.state.lockShoot
      && o.state.lastShotAt == input.clock.fireAt
      && var shot := num.aim(s.player.rot, o.state.player.pos);
      && (|s.bullets| < MaxBullets ==> o.state.bullets == AdvanceAll(num.advance, s.bullets + [shot]))
      && (|s.bullets| == MaxBullets ==> o.state.bullets == AdvanceAll(num.advance, s.bullets[1..] + [shot]))
  {
    if input.keys.escape then Quit
    else
      var reading := Fps.Record(s.fpsHistory, input.fpsSample);
      var b := Bounce(Moved(s, input, num), input.width, input.height);
      var collidedAt := if b.bounced then input.clock.bounceAt else s.collidedAt;
      var lockMovement := Release(s.lockMovement || b.bounced,
                                  ElapsedMillis(collidedAt, input.clock.movementCheckAt),
                                  CollisionDisableMs);
      var f := Fire(s.bullets, ShootLockAtFire(s, input), input.keys.space, num.aim(s.player.rot, b.player.pos));
      var lastShotAt := if f.fired then input.clock.fireAt else s.lastShotAt;
      ReleaseIffTimeoutPassed(collidedAt, input.clock.movementCheckAt, CollisionDisableMs);
      ReleaseIffTimeoutPassed(s.lastShotAt, input.clock.shootCheckAt, ShootTimeoutMs);
      Continue(
        State(reading.history, b.player, AdvanceAll(num.advance, f.bullets),
              lockMovement, f.lockShoot, collidedAt, lastShotAt),
        reading.average)
  }

  /** While the movement lock is set, the thrust keys make no difference to
      the frame. */
  lemma LockedIgnoresThrustKeys(s: State, input: Input, num: Numerics)
    requires s.lockMovement
    ensures Step(s, input, num) == Step(s, input.(keys := input.keys.(up := false, w := false)), num)
  {
  }

  /** Frames run one after another until Escape (the `loop` and its
      `break`); the state reached. Over any number of frames the FPS window
      stays within 16 samples and the bullet list within 32 bullets. */
  function Run(s: State, inputs: seq<Input>, num: Numerics): (r: State)
    ensures Invariant(s) ==> Invariant(r)
    decreases |inputs|
  {
    if |inputs| == 0 then s
    else match Step(s, inputs[0], num)
      case Quit => s
      case Continue(next, _) => Run(next, inputs[1..], num)
  }

  /** Escape ends the loop: frames after the first Escape have no effect. */
  lemma {:induction false} RunStopsAtEscape(s: State, inputs: seq<Input>, num: Numerics, k: nat)
    requires k < |inputs| && inputs[k].keys.escape
    ensures Run(s, inputs, num) == Run(s, inputs[..k], num)
    decreases k
  {
    if inputs[0].keys.escape {
      assert Step(s, inputs[0], num).Quit?;
      if k > 0 {
        assert inputs[..k][0] == inputs[0];
        assert Step(s, inputs[..k][0], num).Quit?;
      }
    } else {
      RunOneFrame(s, inputs, num);
      var next := Step(s, inputs[0], num).state;
      RunStopsAtEscape(next, inputs[1..], num, k - 1);
      assert inputs[1..][..k - 1] == inputs[..k][1..];
      RunOneFrame(s, inputs[..k], num);
    }
  }

  function Samples(inputs: seq<Input>): (r: seq<int>)
    ensures |r| == |inputs|
    ensures forall i :: 0 <= i < |inputs| ==> r[i] == inputs[i].fpsSample
  {
    seq(|inputs|, i requires 0 <= i < |inputs| => inputs[i].fpsSample)
  }

  lemma SamplesOfRest(inputs: seq<Input>)
    requires |inputs| > 0
    ensures Samples(inputs)[1..] == Samples(inputs[1..])
  {
  }

  lemma RunOneFrame(s: State, inputs: seq<Input>, num: Numerics)
    requires |inputs| > 0 && !inputs[0].keys.escape
    ensures Step(s, inputs[0], num).Continue?
    ensures Run(s, inputs, num) == Run(Step(s, inputs[0], num).state, inputs[1..], num)
  {
  }

  /** Until Escape is pressed, the frames push their samples into the FPS
      window exactly as a run of bounded-queue pushes would. */
  lemma {:induction false} RunFpsIsPushAll(s: State, inputs: seq<Input>, num: Numerics)
    requires |s.fpsHistory| <= Fps.Window
    requires forall i :: 0 <= i < |inputs| ==> !inputs[i].keys.escape
    ensures Run(s, inputs, num).fpsHistory == PushAll(s.fpsHistory, Samples(inputs), Fps.Window)
    decreases |inputs|
  {
    if |inputs| > 0 {
      var next := Step(s, inputs[0], num).state;
      RunOneFrame(s, inputs, num);
      assert next.fpsHistory == Push(s.fpsHistory, inputs[0].fpsSample, Fps.Window);
      RunFpsIsPushAll(next, inputs[1..], num);
      SamplesOfRest(inputs);
    }
  }

  /** Until Escape is pressed, the FPS window holds exactly the newest 16
      samples (all of them, early on), in the order they were taken. */
  lemma RunFpsWindow(s: State, inputs: seq<Input>, num: Numerics)
    requires |s.fpsHistory| <= Fps.Window
    requires forall i :: 0 <= i < |inputs| ==> !inputs[i].keys.escape
    ensures Run(s, inputs, num).fpsHistory == Last(s.fpsHistory + Samples(inputs), Fps.Window)
  {
    RunFpsIsPushAll(s, inputs, num);
    PushAllKeepsNewest(s.fpsHistory, Samples(inputs), Fps.Window);
  }
}
