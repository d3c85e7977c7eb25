/**
  Numbers, points and orientations shared by the controller model.

  Positions are `real` triples. Orientations are kept as the yaw/pitch pair a
  quaternion is built from (yaw about world Y, then pitch about local X): every
  quaternion the controller writes is of that shape, so the pair determines it.
  Trigonometry is not modelled.
 */
module Geometry {

  /** Math.PI, written as its shortest double literal. */
  const Pi: real := 3.141592653589793

  datatype Vec3 = Vec3(x: real, y: real, z: real)

  /** A yaw/pitch orientation: rotation `yaw` about world Y composed with `pitch` about local X. */
  datatype Orientation = Orientation(yaw: real, pitch: real)

  /** The identity quaternion. */
  const Identity: Orientation := Orientation(0.0, 0.0)

  function Min(a: real, b: real): (r: real)
    ensures r <= a && r <= b
    ensures r == a || r == b
  {
    if a <= b then a else b
  }

  function Max(a: real, b: real): (r: real)
    ensures r >= a && r >= b
    ensures r == a || r == b
  {
    if a <= b then b else a
  }

  function Abs(x: real): (r: real)
    ensures r >= 0.0
    ensures r == x || r == -x
  {
    if x < 0.0 then -x else x
  }

  /** Math.min(Math.max(x, a), b): the clamp used for the pitch. */
  function Clamp(x: real, a: real, b: real): (r: real)
    ensures a <= b ==> a <= r <= b
    ensures a <= x <= b ==> r == x
    ensures a <= b && x < a ==> r == a
    ensures x > b ==> r == b
    ensures b < a ==> r == b
  {
    Min(Max(x, a), b)
  }

  function SquaredDistance(p: Vec3, q: Vec3): (d: real)
    ensures d >= 0.0
  {
    (p.x - q.x) * (p.x - q.x) + (p.y - q.y) * (p.y - q.y) + (p.z - q.z) * (p.z - q.z)
  }

  /**
    `p.distanceTo(q) < radius`, stated without a square root: for a
    non-negative radius the distance is below it iff its square is.
   */
  predicate CloserThan(p: Vec3, q: Vec3, radius: real)
    requires radius >= 0.0
  {
    SquaredDistance(p, q) < radius * radius
  }
}
