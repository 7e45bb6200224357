# Robot-control arithmetic and decision logic, in Dafny

This project models three sequential pieces of a competition robot's control
code and proves properties of them.

- **Path finder** (`path_finder.dfy`, with the shared rotation in `geometry.dfy`).
  The path finder holds a destination pose. It turns the field offset between
  the tracker's current pose and the destination into a robot-relative path
  (`xToMove`, `yToMove`) by rotating it by minus the heading. It also computes
  a heading correction `aToMove`. Getters recompute before they return.
  `setDestination` recomputes against the old target before it installs the new
  one. `stop`/`resume` only flip a flag.
- **Teleop drive** (`teleop.dfy`). One pass of the driver-control loop does the
  following: field-centric rotation of the left stick; mecanum mixing into four
  wheel speeds; scaling all four down when the largest magnitude exceeds the
  cap `maxSpeed`; and the slow-mode toggle on button `a`, which switches the
  cap between 0.7 and 0.3.
- **Ring-height pipeline** (`ring_height_pipeline.dfy`). Given the bounding
  boxes from image processing, it picks the widest box below the horizon. It
  classifies the stack as A (no rings), B (one ring) or C (full stack). It then
  advances the colour-threshold sweep `updateMin` by one step.

Design choices:

- Reals model Java doubles.
- `Math.sin`/`Math.cos` are an abstract pair `Trig(sin, cos)`. Lemmas that
  need trigonometry assume only `sin 0 = 0`, `cos 0 = 1` and
  `sin² + cos² = 1` (`Trig.Valid`).
- The pose tracker runs on another thread. Its latest reading is an input to
  every path-finder operation: `None` when the path finder was built without
  a tracker.
- In the path finder, the constant named `TWOPI` is `Math.PI`, and the model
  keeps that as written. One could read the heading wrap as intended to use
  2π and to always give the shortest turn. The code does neither, and the
  model follows the code. `HeadingDeltaIsShortestTurnIff` states exactly
  when the result is still a correct shortest turn: when no wrap happens, or
  when the raw difference is exactly 3π/2.
- For drive = strafe = twist = 1, the mixing formulas give raw wheel speeds
  (3, -1, 1, 1), and the back-left wheel is +1. See
  `FullDeflectionExample`.
- Scaling compares against the current cap `maxSpeed` (0.7 or 0.3), not
  against 1.
- In `updateMin`, the third branch tests the maximum of channel 2, not its
  minimum. It also restarts channel 1 but not channel 0. The model keeps
  both. `SweepFromInitial` and `Channel2StepSkipsChannel0Pass` spell out the
  consequences:
  - the sweep settles with channel 2 at minimum 240, not 260;
  - at every later channel-2 level, the pass of channel 0 with channel 1 at 0
    is skipped.

## Model

| member | source | states |
|---|---|---|
| PathFinder.New | TeamCode/src/main/java/org/firstinspires/ftc/teamcode/java/movement/PathFinder.java:16-35 | a new path finder keeps the given destination (or none), has a zero cached path and is running |
| PathFinder.HeadingDelta | TeamCode/src/main/java/org/firstinspires/ftc/teamcode/java/movement/PathFinder.java:90-96 | with no wrap the correction is current minus target; because TWOPI is pi, a raw difference above pi gives raw minus pi and one below minus pi gives minus pi minus raw, so both wrap branches are positive; for headings in [-pi, pi] the correction stays in [-pi, pi] |
| PathFinder.HeadingDeltaIsShortestTurnIff | TeamCode/src/main/java/org/firstinspires/ftc/teamcode/java/movement/PathFinder.java:90-96 | for headings in [-pi, pi], the correction is a shortest turn (in [-pi, pi] and a whole number of turns away from current minus target) if and only if the raw difference lies in [-pi, pi] or equals 3pi/2 |
| PathFinder.CalculateTurn | TeamCode/src/main/java/org/firstinspires/ftc/teamcode/java/movement/PathFinder.java:86-98 | with the tracker or the destination missing nothing changes; otherwise only aToMove changes, and it becomes the wrapped heading correction HeadingDelta(target heading, current heading), which is 0 when the headings agree |
| PathFinder.UpdateEncoderPath | TeamCode/src/main/java/org/firstinspires/ftc/teamcode/java/movement/PathFinder.java:69-80 | with a pose missing the state is unchanged; otherwise the cache becomes the fresh path to the destination, is 0 in x and y when the destination is at the robot's position, and has zero turn when the headings agree; destination and running flag never change |
| PathFinder.PathPreservesDistance | TeamCode/src/main/java/org/firstinspires/ftc/teamcode/java/movement/PathFinder.java:73-77 | the squared length of the robot-relative path equals the squared field distance to the destination, for every heading |
| PathFinder.ZeroHeadingPathIsFieldOffset | TeamCode/src/main/java/org/firstinspires/ftc/teamcode/java/movement/PathFinder.java:73-77 | at heading 0 the robot-relative path is the raw field offset |
| PathFinder.GetEncoderPath | TeamCode/src/main/java/org/firstinspires/ftc/teamcode/java/movement/PathFinder.java:103-107 | the returned path is the freshly recomputed one against the current destination, or the previous cache when a pose is missing; destination and running flag are kept |
| PathFinder.GetDestination | TeamCode/src/main/java/org/firstinspires/ftc/teamcode/java/movement/PathFinder.java:41-44 | returns the destination unchanged and keeps the running flag; with a pose missing the whole state is kept, otherwise the cache is left holding the fresh path to the destination |
| PathFinder.GetDestinationAgreesWithRead | TeamCode/src/main/java/org/firstinspires/ftc/teamcode/java/movement/PathFinder.java:41-44 | getDestination leaves the same state as getEncoderPath, so a read after it reports the same path as a read in its place |
| PathFinder.SetDestination | TeamCode/src/main/java/org/firstinspires/ftc/teamcode/java/movement/PathFinder.java:46-49 | the new destination (possibly null) is installed, but the cache holds the path to the old destination (or the old cache when a pose was missing) |
| PathFinder.ClearedDestinationFreezesCache | TeamCode/src/main/java/org/firstinspires/ftc/teamcode/java/movement/PathFinder.java:69-71 | after setDestination(null), every later getEncoderPath and calculateTurn, whatever the tracker reading, changes nothing and reports the cache computed against the old destination |
| PathFinder.UpdateIsIdempotent | TeamCode/src/main/java/org/firstinspires/ftc/teamcode/java/movement/PathFinder.java:69-80 | recomputing twice against the same reading gives the same state as recomputing once |
| PathFinder.ReadAfterSetSeesNewDestination | TeamCode/src/main/java/org/firstinspires/ftc/teamcode/java/movement/PathFinder.java:103-107 | right after setting a destination, getEncoderPath reports the path to the new destination, and a second read reports the same path |
| PathFinder.Stop | TeamCode/src/main/java/org/firstinspires/ftc/teamcode/java/movement/PathFinder.java:110-112 | clears the running flag and changes nothing else |
| PathFinder.Resume | TeamCode/src/main/java/org/firstinspires/ftc/teamcode/java/movement/PathFinder.java:114-116 | sets the running flag and changes nothing else |
| Geometry.ToRobotFrame | TeamCode/src/main/java/org/firstinspires/ftc/teamcode/java/movement/PathFinder.java:76-77 | the field-to-robot transform shared by the path finder and the teleop drive (also Teleop.java:95-98) maps the zero offset to the zero path |
| Geometry.RotationPreservesNorm | TeamCode/src/main/java/org/firstinspires/ftc/teamcode/java/movement/PathFinder.java:76-77 | the field-to-robot transform keeps squared length when sin² + cos² = 1 |
| Geometry.ZeroHeadingIsIdentity | TeamCode/src/main/java/org/firstinspires/ftc/teamcode/java/movement/PathFinder.java:76-77 | at heading 0 the transform leaves a vector unchanged |
| Teleop.FieldCentric | TeamCode/src/main/java/org/firstinspires/ftc/teamcode/java/op_modes/teleop/Teleop.java:95-99 | twist is always the negated right-stick x |
| Teleop.FieldCentricFormulas | TeamCode/src/main/java/org/firstinspires/ftc/teamcode/java/op_modes/teleop/Teleop.java:95-98 | the shared rotation gives exactly the loop's drive and strafe formulas |
| Teleop.FieldCentricAtZeroHeading | TeamCode/src/main/java/org/firstinspires/ftc/teamcode/java/op_modes/teleop/Teleop.java:95-98 | at heading 0, drive is minus the left-stick y and strafe is the left-stick x |
| Teleop.FieldCentricKeepsStickMagnitude | TeamCode/src/main/java/org/firstinspires/ftc/teamcode/java/op_modes/teleop/Teleop.java:95-98 | drive² + strafe² equals the squared left-stick deflection at every heading |
| Teleop.WheelSpeeds | TeamCode/src/main/java/org/firstinspires/ftc/teamcode/java/op_modes/teleop/Teleop.java:102-107 | four wheel speeds whose sum is four times the drive component |
| Teleop.MixingIsInvertible | TeamCode/src/main/java/org/firstinspires/ftc/teamcode/java/op_modes/teleop/Teleop.java:102-107 | drive, strafe and twist are recovered exactly from the four wheel speeds |
| Teleop.MaxMagnitude | TeamCode/src/main/java/org/firstinspires/ftc/teamcode/java/op_modes/teleop/Teleop.java:110-115 | the result bounds every wheel's magnitude and equals some wheel's magnitude |
| Teleop.FindMax | TeamCode/src/main/java/org/firstinspires/ftc/teamcode/java/op_modes/teleop/Teleop.java:110-115 | the scan that keeps any strictly larger magnitude returns a value that bounds every wheel's magnitude and is reached by one wheel |
| Teleop.ScaleToCap | TeamCode/src/main/java/org/firstinspires/ftc/teamcode/java/op_modes/teleop/Teleop.java:118-120 | speeds are untouched when the max is within the cap; every result is within the cap; after scaling the largest wheel is exactly at the cap |
| Teleop.ScaleBy | TeamCode/src/main/java/org/firstinspires/ftc/teamcode/java/op_modes/teleop/Teleop.java:119 | every wheel multiplied by the same factor, nothing else changed and the length kept |
| Teleop.ScalingKeepsSignsAndRatios | TeamCode/src/main/java/org/firstinspires/ftc/teamcode/java/op_modes/teleop/Teleop.java:118-120 | after capping, each wheel keeps its sign and every pair of wheels keeps its ratio |
| Teleop.FullDeflectionExample | TeamCode/src/main/java/org/firstinspires/ftc/teamcode/java/op_modes/teleop/Teleop.java:102-120 | drive = strafe = twist = 1 mixes to (3, -1, 1, 1), and the 0.7 cap scales that to (0.7, -0.7/3, 0.7/3, 0.7/3) |
| Teleop.Toggle | TeamCode/src/main/java/org/firstinspires/ftc/teamcode/java/op_modes/teleop/Teleop.java:123-133 | the pressed flag afterwards equals the button; the mode flips if and only if the button is pressed and was not held; the cap changes only with the mode and keeps matching it |
| Teleop.HoldingTogglesOnce | TeamCode/src/main/java/org/firstinspires/ftc/teamcode/java/op_modes/teleop/Teleop.java:123-133 | holding a over two passes flips the mode once; releasing only clears the pressed flag |
| Teleop.ToggleAllCountsRisingEdges | TeamCode/src/main/java/org/firstinspires/ftc/teamcode/java/op_modes/teleop/Teleop.java:123-133 | over any run of button samples the mode flips once per rising edge, and a cap matching the mode keeps matching it |
| Teleop.InitialCapMatchesMode | TeamCode/src/main/java/org/firstinspires/ftc/teamcode/java/op_modes/teleop/Teleop.java:36-49 | from the initial state (0.7, not slow, not pressed) the cap is 0.3 exactly when slow mode is on, after any run of samples |
| Teleop.DriveLoopStep | TeamCode/src/main/java/org/firstinspires/ftc/teamcode/java/op_modes/teleop/Teleop.java:95-133 | one loop pass gives four powers within the cap in force at the start of the pass and the toggled slow-mode state |
| Teleop.NewCapAppliesNextIteration | TeamCode/src/main/java/org/firstinspires/ftc/teamcode/java/op_modes/teleop/Teleop.java:118-133 | the powers of a pass do not depend on button a; a fresh press changes the cap only for the next pass |
| RingHeightPipeline.Height.ToString | TeamCode/src/main/java/org/firstinspires/ftc/teamcode/java/vision/RingHeightPipeline.java:28-40 | each label starts with its height's letter followed by ": " |
| RingHeightPipeline.LabelsAreDistinct | TeamCode/src/main/java/org/firstinspires/ftc/teamcode/java/vision/RingHeightPipeline.java:28-40 | different stack heights have different labels ("A: No Rings", "B: 1 Ring", "C: 3 Rings") |
| RingHeightPipeline.Truncate | TeamCode/src/main/java/org/firstinspires/ftc/teamcode/java/vision/RingHeightPipeline.java:96-101 | the int cast truncates toward zero: the result is within one unit of the input and no larger in magnitude |
| RingHeightPipeline.ConstantValues | TeamCode/src/main/java/org/firstinspires/ftc/teamcode/java/vision/RingHeightPipeline.java:91-101 | at camera width 320 the divider is 100 and the minimum width is 50 |
| RingHeightPipeline.SelectWidest | TeamCode/src/main/java/org/firstinspires/ftc/teamcode/java/vision/RingHeightPipeline.java:153-164 | the selected width bounds every box below the divider; it is 0 with the empty rectangle when no such box has positive width; otherwise it is the first box of greatest width, ties going to the earlier box |
| RingHeightPipeline.Classify | TeamCode/src/main/java/org/firstinspires/ftc/teamcode/java/vision/RingHeightPipeline.java:180-181 | A if and only if the width is below MINIMUM_WIDTH; C if and only if it is not and the height exceeds 0.7 times the width; B otherwise |
| RingHeightPipeline.ProcessFrame | TeamCode/src/main/java/org/firstinspires/ftc/teamcode/java/vision/RingHeightPipeline.java:153-197 | A if and only if every box below the divider is narrower than MINIMUM_WIDTH (so no box at all gives A); C if and only if the first widest box is wide enough and taller than 0.7 of its width; the thresholds advance by one sweep step |
| RingHeightPipeline.UpdateMin | TeamCode/src/main/java/org/firstinspires/ftc/teamcode/java/vision/RingHeightPipeline.java:61-82 | keeps every channel's range 20 wide; either changes nothing or raises the minimum lexicographically (channel 2, then 1, then 0); changes nothing if and only if the sweep is settled |
| RingHeightPipeline.StepsToSettle | TeamCode/src/main/java/org/firstinspires/ftc/teamcode/java/vision/RingHeightPipeline.java:61-82 | from any start, repeated calls settle after exactly this many frames and not before |
| RingHeightPipeline.SettledIsFixpoint | TeamCode/src/main/java/org/firstinspires/ftc/teamcode/java/vision/RingHeightPipeline.java:66-79 | once settled, any number of further calls leaves the thresholds unchanged |
| RingHeightPipeline.SweepStaysOnSweep | TeamCode/src/main/java/org/firstinspires/ftc/teamcode/java/vision/RingHeightPipeline.java:61-82 | the sweep invariant (20-wide ranges, multiples of 10 within bounds, channel 0 past 255 whenever channel 1 is back at 0 above the first channel-2 level) holds after any number of calls |
| RingHeightPipeline.SweepFromInitial | TeamCode/src/main/java/org/firstinspires/ftc/teamcode/java/vision/RingHeightPipeline.java:51-82 | from (0,0,0)/(20,20,20) the sweep settles at minimum (260,260,240); every range met is 20 wide; channel 1 at 0 above the first channel-2 level occurs only with channel 0 past 255 |
| RingHeightPipeline.Channel2StepSkipsChannel0Pass | TeamCode/src/main/java/org/firstinspires/ftc/teamcode/java/vision/RingHeightPipeline.java:74-78 | the channel-2 step keeps channel 0 past 255 and restarts channel 1, so the very next call moves to (0, 10, level) |

## Left out

- The busy `run` loop, `synchronized` and `volatile` in the path finder are concurrency. `isRunning` is modelled only as a flag, and every operation is one atomic step against a given tracker reading.
- The `setDestination(x, y)`, `setDestination(x, y, rotation)` and `setDestination(translation, rotation)` overloads and the degree-taking constructors are left out. They go through `MovementData.withDegrees`, which is not part of this model. The model takes destinations with the heading already in radians.
- `ActiveLocation` (the pose tracker) and `MovementData` are not part of this model. The tracker's field x, field y and heading are inputs. The `angle` field read at line 76 and `getAngle()` read at line 90 are taken to be the same reading.
- IEEE-754 rounding: reals stand for doubles. The actual `Math.sin`/`Math.cos` are abstract functions with the three facts above.
- Teleop: gamepad reads, motor `setPower`, the ring-arm and wobble servos, the elevator, `resetAngle` on `start`, and telemetry are hardware I/O.
- Teleop: the `right_bumper` branch is left out. `lowerWobble` (Teleop.java:28) is never assigned, because its assignment at line 78 is commented out. Pressing `right_bumper` therefore throws a null-pointer exception at line 136. That happens after the speeds are computed and before any motor power of that pass is sent, and the `catch` at lines 235-241 stops the tracker and ends the op mode. `DriveLoopStep` describes a pass without `right_bumper` pressed.
- Teleop.ScaleToCap: requires a positive cap. The loop only ever uses 0.7 or 0.3 (see `InitialCapMatchesMode`), and a non-positive cap would divide by zero or flip signs in Java.
- Vision: OpenCV colour conversion, `inRange`, the blur, contour finding and `boundingRect` are foreign library calls. Their output is taken as the input list of rectangles. Telemetry in `updateMin` and the 50 ms sleep are I/O.
- RingHeightPipeline.Classify: the aspect ratio is only evaluated when the width is at least MINIMUM_WIDTH. The Java `0/0` (NaN) when no box qualifies is not modelled, because it never affects the result.
- The fourth channel of the OpenCV scalars stays 0 and is not modelled.
- RingHeightPipeline.Scalar: the channels are Java doubles, modelled as `int`. Along the sweep every value is a whole multiple of 10, so nothing is lost there. A start with fractional channels (such as the commented-out 44.5 at line 50) is outside the model, and "from any start" in `StepsToSettle` means any integer start.
- The default branch of `Height.toString` cannot be reached for an enum value and has no counterpart.
