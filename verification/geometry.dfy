/**
  Shared real-number geometry for the drive code: the constant pi, absolute
  value, an abstract pair of trigonometric functions, and the rotation that
  turns a field-relative vector into the robot's body frame.

  Both the path finder and the field-centric teleop drive compute
  `x*cos(a) + y*sin(a)` and `y*cos(a) - x*sin(a)`; that shared formula is
  defined once here as `ToRobotFrame`.
 */
module Geometry {

  /** The real value of Java's `Math.PI` (IEEE rounding is not modelled). */
  const PI: real := 3.141592653589793

  function Abs(x: real): (r: real)
    ensures r >= 0.0
    ensures r == x || r == -x
  {
    if x < 0.0 then -x else x
  }

  /**
    `Math.sin` and `Math.cos`, left abstract. Only the facts a caller may
    rely on are collected in `Valid`.
   */
  datatype Trig = Trig(sin: real -> real, cos: real -> real) {
    ghost predicate Valid() {
      && sin(0.0) == 0.0
      && cos(0.0) == 1.0
      && forall a :: sin(a) * sin(a) + cos(a) * cos(a) == 1.0
    }
  }

  datatype Vec = Vec(x: real, y: real)

  function NormSquared(v: Vec): real {
    v.x * v.x + v.y * v.y
  }

  /**
    Rotates the field-relative vector `v` by minus `angle`, giving its
    components along and across the robot's heading.
   */
  function ToRobotFrame(t: Trig, v: Vec, angle: real): (r: Vec)
    ensures v == Vec(0.0, 0.0) ==> r == v
  {
    Vec(v.x * t.cos(angle) + v.y * t.sin(angle),
        v.y * t.cos(angle) - v.x * t.sin(angle))
  }

  /** The algebraic identity behind norm preservation, for one (cos, sin) pair. */
  lemma RotationIdentity(x: real, y: real, c: real, s: real)
    requires c * c + s * s == 1.0
    ensures (x * c + y * s) * (x * c + y * s) + (y * c - x * s) * (y * c - x * s)
            == x * x + y * y
  {
  }

  /** With a consistent sine and cosine the transform is a rotation: lengths are kept. */
  lemma RotationPreservesNorm(t: Trig, v: Vec, angle: real)
    requires t.Valid()
    ensures NormSquared(ToRobotFrame(t, v, angle)) == NormSquared(v)
  {
    RotationIdentity(v.x, v.y, t.cos(angle), t.sin(angle));
  }

  /** At heading zero the body frame coincides with the field frame. */
  lemma ZeroHeadingIsIdentity(t: Trig, v: Vec)
    requires t.Valid()
    ensures ToRobotFrame(t, v, 0.0) == v
  {
  }
}
