/**
 The bullet list: a shot goes on the end, and when that takes the list past
 `MAX_BULLETS` the oldest bullet (index 0) is discarded. Firing is gated by
 the shoot lock, which every shot sets. Nothing else ever removes a bullet.
 */
module Bullets {
  import opened Motion
  import opened BoundedQueue

  /** `MAX_BULLETS` */
  const MaxBullets: nat := 32

  /** The `Bullet` struct. */
  datatype Bullet = Bullet(rot: real, pos: Vec2, vel: Vec2)

  /** The list and shoot lock after the fire check, and whether a shot left. */
  datatype Fired = Fired(bullets: seq<Bullet>, lockShoot: bool, fired: bool)

  /** src/main.rs lines 143-160, with the shoot-lock stamp kept by the caller.
      `shot` is the bullet the frame would fire (built from the ship's nose
      and heading). */
  function Fire(bullets: seq<Bullet>, lockShoot: bool, fireHeld: bool, shot: Bullet): (r: Fired)
    // A shot leaves exactly when the key is held and the lock is clear.
    ensures r.fired <==> fireHeld && !lockShoot
    // Otherwise the list and the lock are untouched.
    ensures !r.fired ==> r.bullets == bullets && r.lockShoot == lockShoot
    // A shot always sets the lock.
    ensures r.fired ==> r.lockShoot
    // A shot appends exactly one bullet at the end while there is room ...
    ensures r.fired && |bullets| < MaxBullets ==> r.bullets == bullets + [shot]
    // ... and at capacity discards only the oldest, keeping the rest in order.
    ensures r.fired && |bullets| == MaxBullets ==> r.bullets == bullets[1..] + [shot]
    // From a list within the cap: exactly the newest 32 of the old bullets
    // and the shot, in order.
    ensures r.fired && |bullets| <= MaxBullets ==> r.bullets == Last(bullets + [shot], MaxBullets)
    // The list never grows past the cap.
    ensures |bullets| <= MaxBullets ==> |r.bullets| <= MaxBullets
  {
    if fireHeld && !lockShoot then
      Fired(Push(bullets, shot, MaxBullets), true, true)
    else
      Fired(bullets, lockShoot, false)
  }
}
