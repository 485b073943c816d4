/**
 The two cooldown locks of the frame loop (movement after a wall bounce,
 shooting after a shot). A lock remembers the wall-clock instant it was last
 set; each frame, while it is set, the loop asks how long ago that was and
 clears it once more than 150 whole milliseconds have passed.

 Instants are integers counting nanoseconds, the unit of `Duration`.
 */
module Cooldown {

  const NanosPerMilli: nat := 1_000_000
  /** `COLLISION_DISABLE_TIME_MS` */
  const CollisionDisableMs: nat := 150
  /** `SHOOT_TIMEOUT_MS` */
  const ShootTimeoutMs: nat := 150

  /** The outcome of `since.elapsed()` followed by `.as_millis()`. */
  datatype ClockRead = Elapsed(millis: nat) | ClockError

  /** `elapsed()` fails exactly when the clock now reads earlier than the
      stored instant; otherwise the duration is truncated to whole
      milliseconds. */
  function ElapsedMillis(since: int, now: int): (r: ClockRead)
    ensures r.ClockError? <==> now < since
    ensures r.Elapsed? ==> r.millis * NanosPerMilli <= now - since < (r.millis + 1) * NanosPerMilli
  {
    if now < since then ClockError else Elapsed((now - since) / NanosPerMilli)
  }

  /** src/main.rs lines 109-118 (and 119-128): the lock stays set unless the clock could
      be read and strictly more than `timeoutMs` have elapsed. A failed read
      is reported and otherwise ignored. */
  function Release(locked: bool, read: ClockRead, timeoutMs: nat): (stillLocked: bool)
    ensures stillLocked ==> locked
    ensures locked ==> (!stillLocked <==> read.Elapsed? && read.millis > timeoutMs)
  {
    match read
    case Elapsed(ms) => locked && !(ms > timeoutMs)
    case ClockError => locked
  }

  /** Seen from the two clock readings: a set lock clears if and only if at
      least `timeoutMs + 1` whole milliseconds separate them, never sooner and
      never on a clock that went backwards. */
  lemma ReleaseIffTimeoutPassed(since: int, now: int, timeoutMs: nat)
    ensures !Release(true, ElapsedMillis(since, now), timeoutMs)
        <==> now - since >= (timeoutMs + 1) * NanosPerMilli
  {
  }
}
