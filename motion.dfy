/**
 * The cursor physics of the engine: the velocity a touch release derives from
 * the last gesture step, and the free-running step that bounces the cursor off
 * the edges of the buffer.  Float fields are modelled as `real`.
 */
module Motion {
  import opened JavaNum

  const MIN_VX: real := 10.0
  const MIN_VY: real := 10.0
  const MAX_VX: real := 100.0
  const MAX_VY: real := 100.0

  /**
   * The release rule applied per axis: a zero delta becomes the minimum speed,
   * forward; any other delta keeps its sign and has its magnitude clamped into
   * [lo, hi].
   */
  function ReleaseVelocity(delta: real, lo: real, hi: real): (v: real)
    requires 0.0 < lo <= hi
    ensures delta == 0.0 ==> v == lo
    ensures delta != 0.0 ==> lo <= RealAbs(v) <= hi && Signum(v) == Signum(delta)
    ensures lo <= RealAbs(delta) <= hi ==> v == delta
    ensures RealAbs(delta) < lo && delta != 0.0 ==> RealAbs(v) == lo
    ensures RealAbs(delta) > hi ==> RealAbs(v) == hi
  {
    if delta == 0.0 then lo
    else if RealAbs(delta) < lo then lo * Signum(delta)
    else if RealAbs(delta) > hi then hi * Signum(delta)
    else delta
  }

  /** A released velocity is a fixed point of the rule: releasing it again changes nothing. */
  lemma ReleaseVelocityIdempotent(delta: real, lo: real, hi: real)
    requires 0.0 < lo <= hi
    ensures ReleaseVelocity(ReleaseVelocity(delta, lo, hi), lo, hi) == ReleaseVelocity(delta, lo, hi)
  {
  }

  /** One axis of the cursor: position and velocity. */
  datatype Axis = Axis(pos: real, vel: real)

  /** Whether a position lies on the closed segment from 0 to the buffer extent. */
  predicate InRange(p: real, limit: real)
  {
    0.0 <= p <= limit
  }

  /**
   * One free-running step on one axis: advance by the velocity; on leaving
   * [0, limit] clamp to the edge that was crossed and reverse the velocity.
   */
  function BounceAxis(pos: real, vel: real, limit: real): (r: Axis)
    requires limit >= 0.0
    ensures InRange(r.pos, limit)
    ensures RealAbs(r.vel) == RealAbs(vel)
    ensures InRange(pos + vel, limit) ==> r == Axis(pos + vel, vel)
    ensures !InRange(pos + vel, limit) ==> r.vel == -vel
    ensures pos + vel < 0.0 ==> r.pos == 0.0
    ensures pos + vel > limit ==> r.pos == limit
  {
    var p := pos + vel;
    if p < 0.0 then Axis(0.0, -vel)
    else if p > limit then Axis(limit, -vel)
    else Axis(p, vel)
  }

  /**
   * From a position inside the buffer, a reflected velocity always points back
   * inside: after clamping at 0 the cursor moves forward, after clamping at the
   * far edge it moves back.
   */
  lemma BounceTurnsInward(pos: real, vel: real, limit: real)
    requires InRange(pos, limit)
    ensures var r := BounceAxis(pos, vel, limit);
      (pos + vel < 0.0 ==> r.vel > 0.0) && (pos + vel > limit ==> r.vel < 0.0)
  {
  }

  /** A velocity produced by the release rule keeps its bounds under any number of bounces. */
  lemma BounceKeepsReleaseBounds(pos: real, vel: real, limit: real, lo: real, hi: real)
    requires limit >= 0.0 && 0.0 < lo <= hi
    requires lo <= RealAbs(vel) <= hi
    ensures var r := BounceAxis(pos, vel, limit);
      lo <= RealAbs(r.vel) <= hi && ReleaseVelocity(r.vel, lo, hi) == r.vel
  {
  }

  /**
   * `n` consecutive untouched frames: each one bounces the cursor and re-posts
   * the frame task, so the next frame bounces it again.
   */
  function FreeRun(a: Axis, limit: real, n: nat): (r: Axis)
    requires limit >= 0.0
    ensures n == 0 ==> r == a
    ensures n > 0 ==> InRange(r.pos, limit)
    ensures RealAbs(r.vel) == RealAbs(a.vel)
    ensures InRange(a.pos, limit) ==> InRange(r.pos, limit)
    decreases n
  {
    if n == 0 then a else FreeRun(BounceAxis(a.pos, a.vel, limit), limit, n - 1)
  }

  /** Running `m` frames and then `k` more is running `m + k` frames. */
  lemma {:induction false} FreeRunSplit(a: Axis, limit: real, m: nat, k: nat)
    requires limit >= 0.0
    ensures FreeRun(FreeRun(a, limit, m), limit, k) == FreeRun(a, limit, m + k)
    decreases m
  {
    if m > 0 {
      FreeRunSplit(BounceAxis(a.pos, a.vel, limit), limit, m - 1, k);
    }
  }

  /**
   * A velocity released by the touch-up rule is still one the rule would
   * release, unchanged, after any number of free-running frames.
   */
  lemma FreeRunKeepsReleasedVelocity(delta: real, pos: real, limit: real, lo: real, hi: real, n: nat)
    requires limit >= 0.0 && 0.0 < lo <= hi
    ensures var r := FreeRun(Axis(pos, ReleaseVelocity(delta, lo, hi)), limit, n);
      lo <= RealAbs(r.vel) <= hi && ReleaseVelocity(r.vel, lo, hi) == r.vel
  {
  }
}
