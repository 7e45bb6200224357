/**
  One iteration of the teleop drive loop: field-centric joystick rotation,
  mecanum wheel mixing, scaling the four wheel speeds down to the speed cap,
  and the edge-triggered slow-mode toggle that switches the cap between 0.7
  and 0.3.

  Gamepad reads, motor output, servos, the elevator and telemetry are
  hardware I/O and not modelled; the gamepad sample and the tracker's heading
  are inputs.
 */
module Teleop {
  import opened Geometry

  const NormalSpeed: real := 0.7
  const SlowSpeed: real := 0.3

  /** The stick axes the drive code reads (pushing a stick up gives negative y). */
  datatype Sticks = Sticks(leftStickX: real, leftStickY: real, rightStickX: real)

  /** The part of a gamepad sample the drive loop reads. */
  datatype Gamepad = Gamepad(sticks: Sticks, a: bool)

  /** Robot-relative motion request. */
  datatype Motion = Motion(drive: real, strafe: real, twist: real)

  /**
    Field-centric drive: the left stick (pushed up is negative y) is read in
    the field frame and rotated into the robot's frame by the heading; the
    right stick's x axis, negated, is the twist.
   */
  function FieldCentric(t: Trig, sticks: Sticks, angle: real): (m: Motion)
    ensures m.twist == -sticks.rightStickX
  {
    var v := ToRobotFrame(t, Vec(sticks.leftStickX, -sticks.leftStickY), angle);
    Motion(v.y, v.x, -sticks.rightStickX)
  }

  /** The rotation matches the loop's two formulas term by term. */
  lemma FieldCentricFormulas(t: Trig, sticks: Sticks, angle: real)
    ensures
      var m := FieldCentric(t, sticks, angle);
      && m.drive == -sticks.leftStickY * t.cos(angle) - sticks.leftStickX * t.sin(angle)
      && m.strafe == sticks.leftStickX * t.cos(angle) + -sticks.leftStickY * t.sin(angle)
  {
  }

  /** At heading zero the robot drives exactly as the stick points. */
  lemma FieldCentricAtZeroHeading(t: Trig, sticks: Sticks)
    requires t.Valid()
    ensures
      var m := FieldCentric(t, sticks, 0.0);
      m.drive == -sticks.leftStickY && m.strafe == sticks.leftStickX
  {
    ZeroHeadingIsIdentity(t, Vec(sticks.leftStickX, -sticks.leftStickY));
  }

  /** Rotating the stick never changes how far it is pushed. */
  lemma FieldCentricKeepsStickMagnitude(t: Trig, sticks: Sticks, angle: real)
    requires t.Valid()
    ensures
      var m := FieldCentric(t, sticks, angle);
      m.drive * m.drive + m.strafe * m.strafe
      == sticks.leftStickX * sticks.leftStickX + sticks.leftStickY * sticks.leftStickY
  {
    RotationPreservesNorm(t, Vec(sticks.leftStickX, -sticks.leftStickY), angle);
  }

  /** Mecanum mixing into front-left, front-right, back-left, back-right. */
  function WheelSpeeds(m: Motion): (speeds: seq<real>)
    ensures |speeds| == 4
    ensures speeds[0] + speeds[1] + speeds[2] + speeds[3] == 4.0 * m.drive
  {
    [m.drive + m.strafe + m.twist,
     m.drive - m.strafe - m.twist,
     m.drive - m.strafe + m.twist,
     m.drive + m.strafe - m.twist]
  }

  /** Reads the motion request back off the four wheel speeds. */
  function Unmix(speeds: seq<real>): Motion
    requires |speeds| == 4
  {
    Motion((speeds[0] + speeds[1]) / 2.0,
           (speeds[0] - speeds[2]) / 2.0,
           (speeds[0] - speeds[3]) / 2.0)
  }

  /** Mixing loses nothing: the motion request is recovered from the speeds. */
  lemma MixingIsInvertible(m: Motion)
    ensures Unmix(WheelSpeeds(m)) == m
  {
  }

  /** Whether `m` is the largest magnitude in `speeds`, reached by some wheel. */
  ghost predicate IsMaxMagnitude(speeds: seq<real>, m: real) {
    && (forall i :: 0 <= i < |speeds| ==> Abs(speeds[i]) <= m)
    && (exists j :: 0 <= j < |speeds| && Abs(speeds[j]) == m)
  }

  /** The largest magnitude among the speeds. */
  function MaxMagnitude(speeds: seq<real>): (m: real)
    requires |speeds| > 0
    ensures IsMaxMagnitude(speeds, m)
  {
    if |speeds| == 1 then Abs(speeds[0])
    else
      var rest := MaxMagnitude(speeds[..|speeds| - 1]);
      var last := Abs(speeds[|speeds| - 1]);
      assert forall i :: 0 <= i < |speeds| - 1 ==> speeds[..|speeds| - 1][i] == speeds[i];
      if last > rest then last else rest
  }

  /**
    The loop that finds `max`: starts from the first wheel's magnitude and
    keeps any strictly larger one.
   */
  method FindMax(speeds: seq<real>) returns (max: real)
    requires |speeds| > 0
    ensures IsMaxMagnitude(speeds, max)
    ensures max == MaxMagnitude(speeds)
  {
    max := Abs(speeds[0]);
    ghost var at := 0;
    for i := 0 to |speeds|
      invariant 0 <= at < |speeds| && max == Abs(speeds[at])
      invariant forall k :: 0 <= k < i ==> Abs(speeds[k]) <= max
    {
      if Abs(speeds[i]) > max {
        max := Abs(speeds[i]);
        at := i;
      }
    }
    MaxIsUnique(speeds, max, MaxMagnitude(speeds));
  }

  lemma MaxIsUnique(speeds: seq<real>, m1: real, m2: real)
    requires IsMaxMagnitude(speeds, m1) && IsMaxMagnitude(speeds, m2)
    ensures m1 == m2
  {
    var j1 :| 0 <= j1 < |speeds| && Abs(speeds[j1]) == m1;
    var j2 :| 0 <= j2 < |speeds| && Abs(speeds[j2]) == m2;
    assert m1 <= m2 && m2 <= m1;
  }

  /**
    When the largest wheel magnitude exceeds `maxSpeed`, every wheel is
    multiplied by `maxSpeed / max`; otherwise the speeds are kept.
   */
  function ScaleToCap(speeds: seq<real>, maxSpeed: real): (r: seq<real>)
    requires |speeds| > 0 && maxSpeed > 0.0
    ensures |r| == |speeds|
    ensures MaxMagnitude(speeds) <= maxSpeed ==> r == speeds
    ensures forall i :: 0 <= i < |r| ==> Abs(r[i]) <= maxSpeed
    ensures MaxMagnitude(speeds) > maxSpeed ==> IsMaxMagnitude(r, maxSpeed)
  {
    var max := MaxMagnitude(speeds);
    if max > maxSpeed then
      var r := ScaleBy(speeds, maxSpeed / max);
      ScaledStaysUnderCap(speeds, max, maxSpeed, r);
      r
    else
      speeds
  }

  /** Every wheel multiplied by `f` (the loop at the scaling step). */
  function ScaleBy(speeds: seq<real>, f: real): (r: seq<real>)
    ensures |r| == |speeds| && forall i :: 0 <= i < |r| ==> r[i] == speeds[i] * f
  {
    seq(|speeds|, i requires 0 <= i < |speeds| => speeds[i] * f)
  }

  /** Multiplying each `speeds[i]` by `cap / max` keeps it within `cap`, and the largest reaches it. */
  lemma ScaledStaysUnderCap(speeds: seq<real>, max: real, cap: real, r: seq<real>)
    requires IsMaxMagnitude(speeds, max) && max > cap > 0.0
    requires |r| == |speeds| && forall i :: 0 <= i < |r| ==> r[i] == speeds[i] * (cap / max)
    ensures IsMaxMagnitude(r, cap)
  {
    forall i | 0 <= i < |r|
      ensures Abs(r[i]) <= cap
    {
      ScaledElement(speeds, max, cap, r, i);
    }
    var j :| 0 <= j < |speeds| && Abs(speeds[j]) == max;
    ScaledElement(speeds, max, cap, r, j);
  }

  lemma ScaledElement(speeds: seq<real>, max: real, cap: real, r: seq<real>, i: int)
    requires IsMaxMagnitude(speeds, max) && max > cap > 0.0
    requires |r| == |speeds| && forall i :: 0 <= i < |r| ==> r[i] == speeds[i] * (cap / max)
    requires 0 <= i < |r|
    ensures Abs(r[i]) <= cap
    ensures Abs(speeds[i]) == max ==> Abs(r[i]) == cap
  {
    ScaleWithinCap(speeds[i], r[i], max, cap);
  }

  lemma ScaleWithinCap(x: real, y: real, max: real, cap: real)
    requires Abs(x) <= max && max > 0.0 && cap > 0.0 && y == x * (cap / max)
    ensures Abs(y) <= cap
    ensures Abs(x) == max ==> Abs(y) == cap
  {
    var f := cap / max;
    assert max * f == cap;
    assert Abs(x * f) == Abs(x) * f;
    MultiplyKeepsOrder(Abs(x), max, f);
  }

  lemma MultiplyKeepsOrder(a: real, b: real, f: real)
    requires a <= b && f >= 0.0
    ensures a * f <= b * f
  {
    assert (b - a) * f >= 0.0;
  }

  /** Each wheel of `r` turns the same way as the matching wheel of `speeds`. */
  ghost predicate SameSigns(speeds: seq<real>, r: seq<real>)
    requires |r| == |speeds|
  {
    forall i :: 0 <= i < |r| ==> (r[i] > 0.0 <==> speeds[i] > 0.0) && (r[i] < 0.0 <==> speeds[i] < 0.0)
  }

  /** Any two wheels of `r` stand in the same ratio as in `speeds` (cross-multiplied). */
  ghost predicate SameRatios(speeds: seq<real>, r: seq<real>)
    requires |r| == |speeds|
  {
    forall i, j :: 0 <= i < |r| && 0 <= j < |r| ==> r[i] * speeds[j] == r[j] * speeds[i]
  }

  /**
    Scaling multiplies every wheel by one positive factor, so each keeps its
    sign and any two keep their ratio.
   */
  lemma ScalingKeepsSignsAndRatios(speeds: seq<real>, maxSpeed: real)
    requires |speeds| > 0 && maxSpeed > 0.0
    ensures SameSigns(speeds, ScaleToCap(speeds, maxSpeed))
    ensures SameRatios(speeds, ScaleToCap(speeds, maxSpeed))
  {
    var max := MaxMagnitude(speeds);
    if max > maxSpeed {
      ScaleByKeepsSignsAndRatios(speeds, maxSpeed / max);
    } else {
      ScaleByKeepsSignsAndRatios(speeds, 1.0);
      assert ScaleBy(speeds, 1.0) == speeds;
    }
  }

  lemma ScaleByKeepsSignsAndRatios(speeds: seq<real>, f: real)
    requires f > 0.0
    ensures SameSigns(speeds, ScaleBy(speeds, f))
    ensures SameRatios(speeds, ScaleBy(speeds, f))
  {
    var r := ScaleBy(speeds, f);
    forall i | 0 <= i < |r|
      ensures (r[i] > 0.0 <==> speeds[i] > 0.0) && (r[i] < 0.0 <==> speeds[i] < 0.0)
    {
      PositiveFactorKeepsSign(speeds[i], r[i], f);
    }
    forall i, j | 0 <= i < |r| && 0 <= j < |r|
      ensures r[i] * speeds[j] == r[j] * speeds[i]
    {
      CommonFactorKeepsRatio(speeds[i], speeds[j], r[i], r[j], f);
    }
  }

  lemma PositiveFactorKeepsSign(x: real, y: real, f: real)
    requires f > 0.0 && y == x * f
    ensures (y > 0.0 <==> x > 0.0) && (y < 0.0 <==> x < 0.0)
  {
    if x > 0.0 {
      MultiplyKeepsOrder(0.0, x, f);
      assert y != 0.0;
    } else if x < 0.0 {
      MultiplyKeepsOrder(x, 0.0, f);
      assert y != 0.0;
    }
  }

  lemma CommonFactorKeepsRatio(a: real, b: real, ra: real, rb: real, f: real)
    requires ra == a * f && rb == b * f
    ensures ra * b == rb * a
  {
  }

  /**
    Full stick forward, right and twist at the 0.7 cap: the raw speeds are
    (3, -1, 1, 1), and scaling by 0.7 / 3 puts the front-left wheel at the cap.
   */
  lemma FullDeflectionExample()
    ensures WheelSpeeds(Motion(1.0, 1.0, 1.0)) == [3.0, -1.0, 1.0, 1.0]
    ensures ScaleToCap([3.0, -1.0, 1.0, 1.0], NormalSpeed) == [0.7, -0.7 / 3.0, 0.7 / 3.0, 0.7 / 3.0]
  {
    var speeds := [3.0, -1.0, 1.0, 1.0];
    assert MaxMagnitude(speeds) == 3.0 by {
      assert Abs(speeds[0]) == 3.0;
      MaxIsUnique(speeds, MaxMagnitude(speeds), 3.0);
    }
  }

  /** The slow-mode state kept across loop iterations. */
  datatype SlowMode = SlowMode(maxSpeed: real, slowMode: bool, slowModePressed: bool)

  const InitialSlowMode: SlowMode := SlowMode(NormalSpeed, false, false)

  /** The cap agrees with the mode. */
  predicate CapMatchesMode(s: SlowMode) {
    s.maxSpeed == if s.slowMode then SlowSpeed else NormalSpeed
  }

  /**
    One pass of the slow-mode toggle with button `a`: the mode flips, and the
    cap with it, only on a press that was not already held.
   */
  function Toggle(s: SlowMode, a: bool): (r: SlowMode)
    ensures r.slowModePressed == a
    ensures r.slowMode != s.slowMode <==> a && !s.slowModePressed
    ensures r.slowMode == s.slowMode ==> r.maxSpeed == s.maxSpeed
    ensures CapMatchesMode(s) ==> CapMatchesMode(r)
  {
    if a && !s.slowMode && !s.slowModePressed then
      SlowMode(SlowSpeed, true, true)
    else if a && s.slowMode && !s.slowModePressed then
      SlowMode(NormalSpeed, false, true)
    else if !a then
      s.(slowModePressed := false)
    else
      s
  }

  /** Holding `a` over two iterations flips the mode once; releasing it re-arms the toggle. */
  lemma HoldingTogglesOnce(s: SlowMode)
    requires !s.slowModePressed
    ensures Toggle(Toggle(s, true), true).slowMode == !s.slowMode
    ensures Toggle(Toggle(s, true), false) == Toggle(s, true).(slowModePressed := false)
  {
  }

  /** The state after feeding a run of button samples, one per loop iteration. */
  function ToggleAll(s: SlowMode, presses: seq<bool>): SlowMode
    decreases |presses|
  {
    if |presses| == 0 then s else ToggleAll(Toggle(s, presses[0]), presses[1..])
  }

  /** How many samples are presses that were not held on the sample before. */
  function RisingEdges(held: bool, presses: seq<bool>): nat
    decreases |presses|
  {
    if |presses| == 0 then 0
    else (if presses[0] && !held then 1 else 0) + RisingEdges(presses[0], presses[1..])
  }

  /**
    After any run of samples the mode has flipped once per rising edge of `a`,
    and from the initial state the cap always matches the mode.
   */
  lemma {:induction false} ToggleAllCountsRisingEdges(s: SlowMode, presses: seq<bool>)
    ensures ToggleAll(s, presses).slowMode == (s.slowMode != (RisingEdges(s.slowModePressed, presses) % 2 == 1))
    ensures CapMatchesMode(s) ==> CapMatchesMode(ToggleAll(s, presses))
    decreases |presses|
  {
    if |presses| > 0 {
      ToggleAllCountsRisingEdges(Toggle(s, presses[0]), presses[1..]);
    }
  }

  lemma InitialCapMatchesMode(presses: seq<bool>)
    ensures CapMatchesMode(ToggleAll(InitialSlowMode, presses))
  {
    ToggleAllCountsRisingEdges(InitialSlowMode, presses);
  }

  /** What one loop iteration sends to the motors, and the state it leaves. */
  datatype Iteration = Iteration(powers: seq<real>, next: SlowMode)

  /**
    One pass of the drive loop: mix, scale with the cap in force at the start
    of the pass, then update the slow-mode toggle.
   */
  function DriveLoopStep(t: Trig, s: SlowMode, pad: Gamepad, angle: real): (it: Iteration)
    requires s.maxSpeed > 0.0
    ensures |it.powers| == 4
    ensures forall i :: 0 <= i < 4 ==> Abs(it.powers[i]) <= s.maxSpeed
    ensures it.next == Toggle(s, pad.a)
  {
    Iteration(ScaleToCap(WheelSpeeds(FieldCentric(t, pad.sticks, angle)), s.maxSpeed), Toggle(s, pad.a))
  }

  /**
    A press of `a` changes the cap only for later iterations: the powers of
    this pass do not depend on the button.
   */
  lemma NewCapAppliesNextIteration(t: Trig, s: SlowMode, pad: Gamepad, angle: real)
    requires CapMatchesMode(s)
    ensures DriveLoopStep(t, s, pad.(a := true), angle).powers
            == DriveLoopStep(t, s, pad.(a := false), angle).powers
    ensures !s.slowModePressed ==>
              DriveLoopStep(t, s, pad.(a := true), angle).next.maxSpeed
              == if s.slowMode then NormalSpeed else SlowSpeed
  {
  }
}
