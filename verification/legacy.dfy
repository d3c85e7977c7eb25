/**
  The older controller of main.js: no zoom, no menu, rotation applied every
  frame, and an extra pass that pushes the camera out of the central box.
  Its input sampler is the same as src/InputController.js (module `Input`).
  The `lookAt` towards the nearest ray-box hit in `updateCamera_` only turns
  the rendered camera and is not modelled.
 */
module Legacy {
  import opened Geometry
  import opened Motion
  import Input

  datatype State = State(
    translation: Vec3,
    rotation: Orientation,
    look: Look,
    bob: Bob,
    input: Input.Controller)

  const Initial: State := State(Vec3(0.0, 2.5, 0.0), Identity, Look(0.0, 0.0), Bob(false, 0.0), Input.Initial)

  /** Host-supplied values of one frame. */
  datatype FrameInput = FrameInput(dt: real, viewport: Viewport, heading: Heading)

  /** `updateRotation_`: the look step with no zoom guard. */
  function RotateStep(s: State, viewport: Viewport): (r: State)
    requires viewport.width > 0.0 && viewport.height > 0.0
    ensures PitchInRange(r.look.theta)
    ensures r.look == Turn(s.look, s.input.current.mouseXDelta, s.input.current.mouseYDelta, viewport)
    ensures r.rotation == Orientation(r.look.phi, r.look.theta)
    ensures s.input.current.mouseXDelta == 0.0 ==> r.look.phi == s.look.phi
    ensures r.translation == s.translation && r.bob == s.bob && r.input == s.input
  {
    var look := Turn(s.look, s.input.current.mouseXDelta, s.input.current.mouseYDelta, viewport);
    s.(look := look, rotation := Orientation(look.phi, look.theta))
  }

  /** `updateTranslation_`: walk, bob on when moving, room pass, then box pass. */
  function TranslateStep(s: State, dt: real, h: Heading): (r: State)
    ensures InRoom(r.translation) && !InsideBox(r.translation)
    ensures r.translation.y == s.translation.y
    ensures r.translation == PushOut(RoomClamp(Walk(s.translation, HeldKeys(s.input).Forward(), HeldKeys(s.input).Strafe(), h, dt)))
    ensures HeldKeys(s.input).Moving() ==> r.bob.active
    ensures !HeldKeys(s.input).Moving() ==> r.bob == s.bob
    ensures r.look == s.look && r.rotation == s.rotation && r.input == s.input
  {
    var keys := HeldKeys(s.input);
    var walked := Walk(s.translation, keys.Forward(), keys.Strafe(), h, dt);
    RoomThenBox(walked);
    var active := if keys.Moving() then true else s.bob.active;
    s.(translation := PushOut(RoomClamp(walked)), bob := s.bob.(active := active))
  }

  /** `update(timeElapsedS)`: look, walk and push out, head bob, input baseline. */
  function Update(s: State, f: FrameInput): (r: State)
    requires f.viewport.width > 0.0 && f.viewport.height > 0.0
    ensures InRoom(r.translation) && !InsideBox(r.translation)
    ensures r.translation ==
      PushOut(RoomClamp(Walk(s.translation, HeldKeys(s.input).Forward(), HeldKeys(s.input).Strafe(), f.heading, f.dt)))
    ensures r.look == Turn(s.look, s.input.current.mouseXDelta, s.input.current.mouseYDelta, f.viewport)
    ensures r.rotation == Orientation(r.look.phi, r.look.theta)
    ensures PitchInRange(r.look.theta)
    ensures r.input == Input.Update(s.input)
    ensures !Input.IsReady(s.input) ==> r.input == s.input
    ensures HeldKeys(s.input).Moving() ==> r.bob.timer <= NextStepTime(s.bob.timer)
    ensures f.dt >= 0.0 ==> r.bob.timer >= s.bob.timer
  {
    var s1 := RotateStep(s, f.viewport);
    var s2 := TranslateStep(s1, f.dt, f.heading);
    var s3 := s2.(bob := AdvanceBob(s2.bob, f.dt));
    s3.(input := Input.Update(s3.input))
  }

  datatype Event = Frame(frame: FrameInput) | Device(device: Input.Event)

  /** The main.js wiring: the frame loop calls `update`, and the sampler's listeners take device events. */
  function Step(s: State, e: Event): (r: State)
    ensures e.Frame? && IsFrame(e) ==> r == Update(s, e.frame)
    ensures e.Frame? && !IsFrame(e) ==> r == s
    ensures e.Device? && !e.device.Tick? ==> r == s.(input := Input.Apply(s.input, e.device))
    ensures e.Device? && e.device.Tick? ==> r == s
  {
    match e
    case Frame(f) => if f.viewport.width > 0.0 && f.viewport.height > 0.0 then Update(s, f) else s
    case Device(d) => if d.Tick? then s else s.(input := Input.Apply(s.input, d))
  }

  function Run(s: State, evs: seq<Event>): State
    decreases |evs|
  {
    if evs == [] then s else Step(Run(s, evs[..|evs| - 1]), evs[|evs| - 1])
  }

  predicate Contained(s: State)
  {
    InRoom(s.translation) && !InsideBox(s.translation)
  }

  predicate IsFrame(e: Event)
  {
    e.Frame? && e.frame.viewport.width > 0.0 && e.frame.viewport.height > 0.0
  }

  /** The controller starts strictly inside the box, at its centre. */
  lemma StartsInsideBox()
    ensures InsideBox(Initial.translation)
  {
  }

  /**
    The first frame pushes the start point out: all four faces are 5 away,
    and the tie goes to the first face, minX.
   */
  lemma FirstFramePushesToMinX(f: FrameInput)
    requires f.viewport.width > 0.0 && f.viewport.height > 0.0
    ensures Update(Initial, f).translation == Vec3(-BoxHalf, 2.5, 0.0)
  {
    assert !HeldKeys(Initial.input).Moving();
    assert FirstNearest(Initial.translation, MinX);
  }

  /**
    Over any session the pitch stays in range; once a frame has run the
    camera is in the room and out of the box, and before that it has not
    moved from the start.
   */
  lemma {:induction false} AlwaysContained(evs: seq<Event>)
    ensures PitchInRange(Run(Initial, evs).look.theta)
    ensures (exists i :: 0 <= i < |evs| && IsFrame(evs[i])) ==> Contained(Run(Initial, evs))
    ensures (forall i :: 0 <= i < |evs| ==> !IsFrame(evs[i])) ==> Run(Initial, evs).translation == Initial.translation
    decreases |evs|
  {
    if evs != [] {
      var init := evs[..|evs| - 1];
      AlwaysContained(init);
      if exists i :: 0 <= i < |init| && IsFrame(init[i]) {
        var i :| 0 <= i < |init| && IsFrame(init[i]);
        assert IsFrame(evs[i]);
      }
      if forall i :: 0 <= i < |evs| ==> !IsFrame(evs[i]) {
        forall i | 0 <= i < |init|
          ensures !IsFrame(init[i])
        {
          assert init[i] == evs[i];
        }
      }
    }
  }
}
