/**
  The path finder: holds a destination pose and turns the offset between the
  robot's current pose and that destination into a robot-relative path
  (`xToMove`, `yToMove`) and a heading correction (`aToMove`).

  The pose tracker is another thread; here its latest reading is an input
  (`None` when the path finder was built without a tracker). Locking, the
  `volatile` flag and the busy `run` loop are not modelled; `isRunning` is
  only a flag.
 */
module PathFinder {
  import opened Geometry

  datatype Option<T> = None | Some(value: T)

  /** A field pose: position and heading in radians. */
  datatype Pose = Pose(x: real, y: real, angle: real)

  /**
    The path finder's own state. `xToMove`, `yToMove` and `aToMove` are the
    cached result of the last recomputation (Java zero-initialises them).
   */
  datatype PathFinder = PathFinder(
    destination: Option<Pose>,
    xToMove: real,
    yToMove: real,
    aToMove: real,
    isRunning: bool)

  /** The constant the Java code calls TWOPI holds pi, not two pi. */
  const TWOPI: real := PI

  /** A freshly constructed path finder, with or without a destination. */
  function New(destination: Option<Pose>): (pf: PathFinder)
    ensures pf.destination == destination
    ensures pf.xToMove == 0.0 && pf.yToMove == 0.0 && pf.aToMove == 0.0
    ensures pf.isRunning
  {
    PathFinder(destination, 0.0, 0.0, 0.0, true)
  }

  /**
    The heading correction for turning from `current` to `target`, exactly as
    written: the raw difference is "wrapped" with TWOPI (which is pi) and then
    negated.
   */
  function HeadingDelta(target: real, current: real): (r: real)
    ensures -PI <= target - current <= PI ==> r == current - target
    ensures target - current > PI ==> r == target - current - PI
    ensures target - current < -PI ==> r == current - target - PI
    ensures !(-PI <= target - current <= PI) ==> r > 0.0
    ensures -PI <= target <= PI && -PI <= current <= PI ==> -PI <= r <= PI
  {
    var raw := target - current;
    var wrapped :=
      if raw > PI then TWOPI - raw
      else if raw < -PI then TWOPI - Abs(raw)
      else raw;
    -wrapped
  }

  /**
    An independent description of a correct shortest turn: a value in
    [-pi, pi] that differs from `current - target` by a whole number of turns.
   */
  ghost predicate IsShortestTurn(target: real, current: real, r: real) {
    -PI <= r <= PI && exists k: int :: r == current - target + FullTurns(k)
  }

  /** `k` whole turns, in radians. */
  function FullTurns(k: int): real {
    2.0 * PI * (k as real)
  }

  /**
    For headings in [-pi, pi] the heading correction is a correct shortest
    turn exactly when no wrap happens, or in the single case where the raw
    difference is three half-turns; every other wrapped difference is off.
   */
  lemma HeadingDeltaIsShortestTurnIff(target: real, current: real)
    requires -PI <= target <= PI && -PI <= current <= PI
    ensures IsShortestTurn(target, current, HeadingDelta(target, current))
            <==> (-PI <= target - current <= PI || target - current == 3.0 * PI / 2.0)
  {
    var raw := target - current;
    var r := HeadingDelta(target, current);
    if -PI <= raw <= PI {
      assert r == current - target + FullTurns(0);
    } else if raw == 3.0 * PI / 2.0 {
      assert r == current - target + FullTurns(1);
    } else if raw > PI {
      // r == raw - PI, so r - (current - target) == 2 * raw - PI, which lies
      // strictly between PI and 3 * PI and differs from 2 * PI
      forall k: int ensures r != current - target + FullTurns(k) {
        if k <= 0 {
        } else if k == 1 {
        } else {
          assert FullTurns(k) >= 4.0 * PI;
        }
      }
    } else {
      // r == -raw - PI, so r - (current - target) == -PI: half a turn
      forall k: int ensures r != current - target + FullTurns(k) {
        if k <= -1 {
          assert FullTurns(k) <= -2.0 * PI;
        } else {
        }
      }
    }
  }

  /**
    `calculateTurn`: recomputes `aToMove` from the tracker's heading and the
    destination's heading; does nothing when either is missing.
   */
  function CalculateTurn(pf: PathFinder, location: Option<Pose>): (r: PathFinder)
    ensures location.None? || pf.destination.None? ==> r == pf
    ensures r.(aToMove := pf.aToMove) == pf
    ensures location.Some? && pf.destination.Some? ==>
              r.aToMove == HeadingDelta(pf.destination.value.angle, location.value.angle)
    ensures (location.Some? && pf.destination.Some? &&
             pf.destination.value.angle == location.value.angle) ==> r.aToMove == 0.0
  {
    match (location, pf.destination)
    case (Some(loc), Some(dest)) => pf.(aToMove := HeadingDelta(dest.angle, loc.angle))
    case _ => pf
  }

  /**
    `updateEncoderPath`: recomputes the robot-relative path to the destination
    and then the heading correction; does nothing when the tracker or the
    destination is missing.
   */
  function UpdateEncoderPath(t: Trig, pf: PathFinder, location: Option<Pose>): (r: PathFinder)
    ensures location.None? || pf.destination.None? ==> r == pf
    ensures r.destination == pf.destination && r.isRunning == pf.isRunning
    ensures location.Some? && pf.destination.Some? ==>
              var dest, loc := pf.destination.value, location.value;
              && (dest.x == loc.x && dest.y == loc.y ==> r.xToMove == 0.0 && r.yToMove == 0.0)
              && (dest.angle == loc.angle ==> r.aToMove == 0.0)
              && CachedPath(r) == FreshPath(t, loc, dest)
  {
    match (location, pf.destination)
    case (Some(loc), Some(dest)) =>
      var delta := Vec(dest.x - loc.x, dest.y - loc.y);
      var path := ToRobotFrame(t, delta, loc.angle);
      CalculateTurn(pf.(xToMove := path.x, yToMove := path.y), location)
    case _ => pf
  }

  /** The path (forward, strafe, turn) the robot still has to make. */
  datatype EncoderPath = EncoderPath(x: real, y: real, angle: real)

  function CachedPath(pf: PathFinder): EncoderPath {
    EncoderPath(pf.xToMove, pf.yToMove, pf.aToMove)
  }

  /**
    The path the robot would be told to take right now: the robot-relative
    offset to the destination and the heading correction, if both poses are
    known.
   */
  function FreshPath(t: Trig, location: Pose, destination: Pose): EncoderPath {
    var v := ToRobotFrame(t, Vec(destination.x - location.x, destination.y - location.y), location.angle);
    EncoderPath(v.x, v.y, HeadingDelta(destination.angle, location.angle))
  }

  /**
    The robot-relative path has the same length as the field offset to the
    destination, so the transform only rotates it.
   */
  lemma PathPreservesDistance(t: Trig, pf: PathFinder, location: Pose)
    requires t.Valid() && pf.destination.Some?
    ensures
      var r, dest := UpdateEncoderPath(t, pf, Some(location)), pf.destination.value;
      r.xToMove * r.xToMove + r.yToMove * r.yToMove
      == (dest.x - location.x) * (dest.x - location.x) + (dest.y - location.y) * (dest.y - location.y)
  {
    var dest := pf.destination.value;
    RotationPreservesNorm(t, Vec(dest.x - location.x, dest.y - location.y), location.angle);
  }

  /** At heading zero the path is the raw field offset to the destination. */
  lemma ZeroHeadingPathIsFieldOffset(t: Trig, pf: PathFinder, location: Pose)
    requires t.Valid() && pf.destination.Some? && location.angle == 0.0
    ensures
      var r, dest := UpdateEncoderPath(t, pf, Some(location)), pf.destination.value;
      r.xToMove == dest.x - location.x && r.yToMove == dest.y - location.y
  {
    var dest := pf.destination.value;
    ZeroHeadingIsIdentity(t, Vec(dest.x - location.x, dest.y - location.y));
  }

  /**
    `getEncoderPath`: recomputes first, then reports. The result describes the
    current destination, or the previous cache when a pose is missing.
   */
  function GetEncoderPath(t: Trig, pf: PathFinder, location: Option<Pose>): (res: (PathFinder, EncoderPath))
    ensures res.0.destination == pf.destination && res.0.isRunning == pf.isRunning
    ensures res.1 == CachedPath(res.0)
    ensures location.Some? && pf.destination.Some? ==>
              res.1 == FreshPath(t, location.value, pf.destination.value)
    ensures location.None? || pf.destination.None? ==> res == (pf, CachedPath(pf))
  {
    var next := UpdateEncoderPath(t, pf, location);
    (next, CachedPath(next))
  }

  /** `getDestination`: recomputes the cached path as a side effect, then returns the destination. */
  function GetDestination(t: Trig, pf: PathFinder, location: Option<Pose>): (res: (PathFinder, Option<Pose>))
    ensures res.1 == pf.destination
    ensures res.0.destination == pf.destination && res.0.isRunning == pf.isRunning
    ensures location.None? || pf.destination.None? ==> res.0 == pf
    ensures location.Some? && pf.destination.Some? ==>
              CachedPath(res.0) == FreshPath(t, location.value, pf.destination.value)
  {
    var next := UpdateEncoderPath(t, pf, location);
    (next, next.destination)
  }

  /**
    `getDestination` and `getEncoderPath` run the same recomputation, so they
    leave the path finder in the same state.
   */
  lemma GetDestinationAgreesWithRead(t: Trig, pf: PathFinder, location: Option<Pose>)
    ensures GetDestination(t, pf, location).0 == GetEncoderPath(t, pf, location).0
    ensures GetEncoderPath(t, GetDestination(t, pf, location).0, location).1
            == GetEncoderPath(t, pf, location).1
  {
  }

  /**
    `setDestination`: recomputes against the OLD destination and only then
    installs the new one, so the cache still describes the old target. The
    new destination may be `None` (Java's `null`).
   */
  function SetDestination(t: Trig, pf: PathFinder, location: Option<Pose>, destination: Option<Pose>): (r: PathFinder)
    ensures r.destination == destination
    ensures r.isRunning == pf.isRunning
    ensures location.Some? && pf.destination.Some? ==>
              CachedPath(r) == FreshPath(t, location.value, pf.destination.value)
    ensures location.None? || pf.destination.None? ==> CachedPath(r) == CachedPath(pf)
  {
    UpdateEncoderPath(t, pf, location).(destination := destination)
  }

  function Stop(pf: PathFinder): (r: PathFinder)
    ensures !r.isRunning && r.(isRunning := pf.isRunning) == pf
  {
    pf.(isRunning := false)
  }

  function Resume(pf: PathFinder): (r: PathFinder)
    ensures r.isRunning && r.(isRunning := pf.isRunning) == pf
  {
    pf.(isRunning := true)
  }

  /** Recomputing twice against the same reading changes nothing more. */
  lemma UpdateIsIdempotent(t: Trig, pf: PathFinder, location: Option<Pose>)
    ensures UpdateEncoderPath(t, UpdateEncoderPath(t, pf, location), location)
            == UpdateEncoderPath(t, pf, location)
  {
  }

  /**
    Reading is always fresh: right after `setDestination`, the cache still
    describes the old target, but `getEncoderPath` reports the path to the
    new one, and reading it twice gives the same answer.
   */
  lemma ReadAfterSetSeesNewDestination(t: Trig, pf: PathFinder, location: Pose, destination: Pose)
    ensures
      var placed := SetDestination(t, pf, Some(location), Some(destination));
      var (read1, path1) := GetEncoderPath(t, placed, Some(location));
      var (_, path2) := GetEncoderPath(t, read1, Some(location));
      && path1 == FreshPath(t, location, destination)
      && path2 == path1
  {
  }

  /**
    Clearing the destination freezes the path finder: every later read,
    whatever the tracker says, reports the cache left by the last
    recomputation against the old destination, and changes nothing.
   */
  lemma ClearedDestinationFreezesCache(t: Trig, pf: PathFinder, before: Option<Pose>, later: Option<Pose>)
    ensures
      var cleared := SetDestination(t, pf, before, None);
      && GetEncoderPath(t, cleared, later) == (cleared, CachedPath(UpdateEncoderPath(t, pf, before)))
      && CalculateTurn(cleared, later) == cleared
  {
  }
}
