/**
  The per-frame pieces of the first-person controller: the look step, the
  WASD velocities, the walk, the room clamp, the stepped head-bob timer and the
  obstacle push-out of the main.js controller. Both controllers
  (src/FirstPersonCamera.js and the older one in main.js) are built from them.

  `sin`/`cos` of the yaw and the sinusoidal bob offset are not computed here:
  the host supplies them (`Heading`, and a bob offset in the camera module).
 */
module Motion {
  import opened Geometry
  import Input

  /** Key codes of the `KEYS` table. */
  const KeyA: int := 65
  const KeyS: int := 83
  const KeyW: int := 87
  const KeyD: int := 68
  const KeyR: int := 82

  const PhiSpeed: real := 8.0
  const ThetaSpeed: real := 10.0
  /** The pitch is clamped to [-PitchLimit, PitchLimit]. */
  const PitchLimit: real := Pi / 3.0
  /** Ground speed, units per second. */
  const WalkSpeed: real := 10.0
  /** The room spans [-RoomHalf, RoomHalf] in x and z; y is never clamped. */
  const RoomHalf: real := 14.5
  /** The central obstacle of the main.js controller spans [-BoxHalf, BoxHalf] in x and z. */
  const BoxHalf: real := 5.0
  /** `headBobTimer_` advances to the next multiple of Pi / 10 at most. */
  const BobStep: real := Pi / 10.0
  /** The small bias added before the step index is computed. */
  const BobBias: real := 0.00001

  /** Yaw `phi` and pitch `theta`. */
  datatype Look = Look(phi: real, theta: real)

  /** `window.innerWidth` and `window.innerHeight`. */
  datatype Viewport = Viewport(width: real, height: real)

  predicate PitchInRange(theta: real)
  {
    -PitchLimit <= theta <= PitchLimit
  }

  /**
    One look step: the yaw accumulates without bound, the pitch is clamped.
    `dx`, `dy` are the mouse deltas the input sampler reports.
   */
  function Turn(look: Look, dx: real, dy: real, view: Viewport): (r: Look)
    requires view.width > 0.0 && view.height > 0.0
    ensures PitchInRange(r.theta)
    ensures PitchInRange(look.theta - dy / view.height * ThetaSpeed) ==>
      r.theta == look.theta - dy / view.height * ThetaSpeed
    ensures dx == 0.0 ==> r.phi == look.phi
    ensures dx > 0.0 ==> r.phi < look.phi
    ensures dx < 0.0 ==> r.phi > look.phi
  {
    Look(look.phi + -(dx / view.width) * PhiSpeed,
         Clamp(look.theta + -(dy / view.height) * ThetaSpeed, -PitchLimit, PitchLimit))
  }

  /** The yaw is unbounded: any yaw is reached from any look by one mouse movement. */
  lemma YawIsUnbounded(look: Look, view: Viewport, target: real)
    requires view.width > 0.0 && view.height > 0.0
    ensures Turn(look, (look.phi - target) * view.width / PhiSpeed, 0.0, view).phi == target
  {
    var dx := (look.phi - target) * view.width / PhiSpeed;
    assert dx / view.width == (look.phi - target) / PhiSpeed;
  }

  /** A velocity from a pair of opposing keys: `(pos ? 1 : 0) + (neg ? -1 : 0)`. */
  function Velocity(pos: bool, neg: bool): (v: int)
    ensures v == 1 <==> pos && !neg
    ensures v == -1 <==> neg && !pos
    ensures v == 0 <==> pos == neg
    ensures -1 <= v <= 1
  {
    (if pos then 1 else 0) + (if neg then -1 else 0)
  }

  /** `sin` and `cos` of the current yaw, computed by the host. */
  datatype Heading = Heading(sin: real, cos: real)

  /**
    The walk: `forward` along (0,0,-1) and `strafe` along (-1,0,0), both turned
    by the yaw only, scaled by `WalkSpeed * dt`. The turned vectors are
    (-sin, 0, -cos) and (-cos, 0, sin); neither has a y part.
   */
  function Walk(t: Vec3, forward: int, strafe: int, h: Heading, dt: real): (r: Vec3)
    ensures r.y == t.y
    ensures forward == 0 && strafe == 0 ==> r == t
    ensures dt == 0.0 ==> r == t
  {
    var f := forward as real * dt * WalkSpeed;
    var s := strafe as real * dt * WalkSpeed;
    Vec3(t.x + -h.sin * f + -h.cos * s, t.y, t.z + -h.cos * f + h.sin * s)
  }

  /** The two `if`s that limit one coordinate: first the lower bound, then the upper. */
  function LimitAxis(v: real, lo: real, hi: real): real
  {
    var below := if v < lo then lo else v;
    if below > hi then hi else below
  }

  predicate InRoom(p: Vec3)
  {
    -RoomHalf <= p.x <= RoomHalf && -RoomHalf <= p.z <= RoomHalf
  }

  /** Limit x and z to the room. It is `Clamp` per axis, and an in-range coordinate is untouched. */
  function RoomClamp(t: Vec3): (r: Vec3)
    ensures InRoom(r)
    ensures r.y == t.y
    ensures r.x == Clamp(t.x, -RoomHalf, RoomHalf) && r.z == Clamp(t.z, -RoomHalf, RoomHalf)
    ensures -RoomHalf <= t.x <= RoomHalf ==> r.x == t.x
    ensures -RoomHalf <= t.z <= RoomHalf ==> r.z == t.z
    ensures InRoom(t) ==> r == t
  {
    Vec3(LimitAxis(t.x, -RoomHalf, RoomHalf), t.y, LimitAxis(t.z, -RoomHalf, RoomHalf))
  }

  /** Movement keys held, as the velocities they give. */
  datatype Keys = Keys(w: bool, s: bool, a: bool, d: bool)
  {
    function Forward(): int
    {
      Velocity(w, s)
    }

    function Strafe(): int
    {
      Velocity(a, d)
    }

    predicate Moving()
    {
      Forward() != 0 || Strafe() != 0
    }
  }

  /** The movement keys as the sampler reports them. */
  function HeldKeys(c: Input.Controller): Keys
  {
    Keys(Input.Key(c, KeyW), Input.Key(c, KeyS), Input.Key(c, KeyA), Input.Key(c, KeyD))
  }

  /** Opposing keys cancel: moving means exactly one key of some pair is held. */
  lemma MovingIffUnbalancedPair(k: Keys)
    ensures k.Moving() <==> (k.w != k.s) || (k.a != k.d)
    ensures k.w && k.s ==> k.Forward() == 0
    ensures k.a && k.d ==> k.Strafe() == 0
  {
  }

  // ----- head bob -----

  /** `headBobActive_` and `headBobTimer_`. */
  datatype Bob = Bob(active: bool, timer: real)

  /** `1 + floor((timer + 0.00001) * 10 / PI)`: the index of the next step boundary. */
  function NextStep(timer: real): int
  {
    1 + ((timer + BobBias) * 10.0 / Pi).Floor
  }

  /** `nextStep * PI / 10`: the boundary the timer may not pass this frame. */
  function NextStepTime(timer: real): (t: real)
    ensures timer < t <= timer + BobBias + BobStep
  {
    var q := (timer + BobBias) * 10.0 / Pi;
    assert q.Floor as real <= q < q.Floor as real + 1.0;
    assert q * Pi / 10.0 == timer + BobBias;
    (NextStep(timer) as real) * Pi / 10.0
  }

  /**
    `updateHeadBob_` without a zoom guard: an active timer advances by `dt` but
    stops at the next step boundary, and reaching it switches the bob off.
   */
  function AdvanceBob(b: Bob, dt: real): (r: Bob)
    ensures !b.active ==> r == b
    ensures b.active ==> r.timer <= NextStepTime(b.timer)
    ensures b.active ==> (r.active <==> r.timer != NextStepTime(b.timer))
    ensures b.active && dt >= 0.0 ==> r.timer >= b.timer
    ensures b.active && dt >= BobBias + BobStep ==> !r.active
  {
    if b.active then
      var boundary := NextStepTime(b.timer);
      var t := Min(b.timer + dt, boundary);
      Bob(t != boundary, t)
    else
      b
  }

  /** For non-negative frame times the timer never decreases, whatever the state. */
  lemma BobTimerMonotone(b: Bob, dt: real)
    requires dt >= 0.0
    ensures AdvanceBob(b, dt).timer >= b.timer
  {
  }

  // ----- obstacle push-out (main.js) -----

  /** Strictly inside the open box (-5, 5) x (-5, 5). */
  predicate InsideBox(p: Vec3)
  {
    -BoxHalf < p.x < BoxHalf && -BoxHalf < p.z < BoxHalf
  }

  /** The four faces, in the order the `switch` tries them. */
  datatype Face = MinX | MaxX | MinZ | MaxZ
  {
    function Rank(): nat
    {
      match this
      case MinX => 0
      case MaxX => 1
      case MinZ => 2
      case MaxZ => 3
    }
  }

  function FaceDistance(p: Vec3, f: Face): real
  {
    match f
    case MinX => Abs(p.x - -BoxHalf)
    case MaxX => Abs(p.x - BoxHalf)
    case MinZ => Abs(p.z - -BoxHalf)
    case MaxZ => Abs(p.z - BoxHalf)
  }

  /** Move `p` onto face `f`, leaving the other coordinates alone. */
  function Snap(p: Vec3, f: Face): Vec3
  {
    match f
    case MinX => p.(x := -BoxHalf)
    case MaxX => p.(x := BoxHalf)
    case MinZ => p.(z := -BoxHalf)
    case MaxZ => p.(z := BoxHalf)
  }

  /** `f` is at minimal distance and no earlier face in the order is. */
  predicate FirstNearest(p: Vec3, f: Face)
  {
    && (forall g: Face :: FaceDistance(p, f) <= FaceDistance(p, g))
    && (forall g: Face :: g.Rank() < f.Rank() ==> FaceDistance(p, g) > FaceDistance(p, f))
  }

  /** Exactly one face is the first nearest one. */
  lemma FirstNearestUnique(p: Vec3)
    ensures exists f: Face :: FirstNearest(p, f)
    ensures forall f: Face, g: Face :: FirstNearest(p, f) && FirstNearest(p, g) ==> f == g
  {
    var m := Min(Min(FaceDistance(p, MinX), FaceDistance(p, MaxX)), Min(FaceDistance(p, MinZ), FaceDistance(p, MaxZ)));
    if FaceDistance(p, MinX) == m {
      assert FirstNearest(p, MinX);
    } else if FaceDistance(p, MaxX) == m {
      assert FirstNearest(p, MaxX);
    } else if FaceDistance(p, MinZ) == m {
      assert FirstNearest(p, MinZ);
    } else {
      assert FirstNearest(p, MaxZ);
    }
  }

  /**
    The box pass of main.js: a point strictly inside the box moves onto the
    face with the least distance, the first one in the order on a tie. The
    `switch (minDistance)` compares with `===`, as written here.
   */
  function PushOut(p: Vec3): (r: Vec3)
    ensures !InsideBox(r)
    ensures !InsideBox(p) ==> r == p
    ensures InsideBox(p) ==> forall f: Face :: FirstNearest(p, f) ==> r == Snap(p, f)
    ensures r.y == p.y
    ensures InsideBox(p) ==> (r.x != p.x) != (r.z != p.z)
    ensures InRoom(p) ==> InRoom(r)
  {
    if InsideBox(p) then
      var dMinX := Abs(p.x - -BoxHalf);
      var dMaxX := Abs(p.x - BoxHalf);
      var dMinZ := Abs(p.z - -BoxHalf);
      var dMaxZ := Abs(p.z - BoxHalf);
      var m := Min(Min(Min(dMinX, dMaxX), dMinZ), dMaxZ);
      FirstNearestUnique(p);
      if m == dMinX then
        assert FirstNearest(p, MinX);
        p.(x := -BoxHalf)
      else if m == dMaxX then
        assert FirstNearest(p, MaxX);
        p.(x := BoxHalf)
      else if m == dMinZ then
        assert FirstNearest(p, MinZ);
        p.(z := -BoxHalf)
      else
        assert FirstNearest(p, MaxZ);
        p.(z := BoxHalf)
    else
      p
  }

  /** Room pass then box pass: inside the room and never strictly inside the box. */
  lemma RoomThenBox(t: Vec3)
    ensures InRoom(PushOut(RoomClamp(t))) && !InsideBox(PushOut(RoomClamp(t)))
    ensures PushOut(RoomClamp(t)).y == t.y
  {
  }
}
