/**
  The first-person controller of src/FirstPersonCamera.js: look, walk and
  head-bob per frame, and the two flags `isZoomedIn` / `isInMenu` that drive
  interaction, the escape menu and the reset.

  Raycasting is an oracle: a `Hit` names the registered object the ray
  resolves to and its distance from the camera. DOM writes, pointer-lock
  requests and the custom events the controller dispatches are returned as
  `Effect`s. `resetView` runs at once instead of in the next animation frame.
 */
module Camera {
  import opened Wrappers
  import opened Geometry
  import opened Motion
  import Input

  /** Interaction range of `promptInteraction` / `checkInteraction`. */
  const InteractionRadius: real := 15.0
  /** Range within which a station shows its display. */
  const StationRadius: real := 10.0
  /** The eye height `resetView` re-applies. */
  const EyeHeight: real := 2.5
  /** `updateControlDisplay` shows the controls during the first frames only. */
  const ControlsFrames: int := 500

  /** A camera pose: `camera_.position` and `camera_.quaternion`. */
  datatype Pose = Pose(position: Vec3, rotation: Orientation)

  datatype State = State(
    translation: Vec3,     // translation_
    rotation: Orientation, // rotation_
    look: Look,            // phi_, theta_
    bob: Bob,              // headBobActive_, headBobTimer_
    isZoomedIn: bool,
    isInMenu: bool,
    isAnimating: bool,
    view: Pose,            // what updateCamera_ last copied into camera_
    saved: Option<Pose>,   // originalPosition, originalQuaternion
    frames: nat,           // totalTimeElapsed, incremented once per update
    input: Input.Controller)

  /**
    The state after construction. `isInMenu` is left undefined by the
    constructor (`this.isInMenu - false`), which reads as false. The camera
    starts at (0, 2, 0) as the demo places it.
   */
  const Initial: State := State(
    Vec3(0.0, EyeHeight, 0.0), Identity, Look(0.0, 0.0), Bob(false, 0.0),
    false, false, false, Pose(Vec3(0.0, 2.0, 0.0), Identity), None, 0, Input.Initial)

  /** A raycast result after the walk up to the registered object. */
  datatype Hit = Hit(name: string, distance: real)

  datatype Effect =
    | ShowContent(id: string)     // displayContent(id)
    | HideAllContent              // every .object-content hidden
    | ShowBackButton
    | HideBackButton
    | RequestPointerLock
    | ExitPointerLock
    | ShowDisplay(station: Station)   // dispatchTVDisplay(station.Name())
    | RemoveDisplay(station: Station) // dispatchTVRemoveDisplay(station.Name())

  // ----- zoom -----

  /** Inspection pose and content element of a target. */
  datatype Inspection = Inspection(position: Vec3, rotation: Orientation, content: string)

  /**
    The cases of `zoomToObject`'s switch. The TV pitch is a turn by -PI/5 about
    (-1, 0, 0), that is PI/5 about (1, 0, 0), after a zero yaw.
   */
  function InspectionFor(name: string): Option<Inspection>
  {
    if name == "jbox" then
      Some(Inspection(Vec3(14.85, 3.0, -14.85), Orientation(7.0 * Pi / 4.0, 0.0), "contentForJBox"))
    else if name == "computer" then
      Some(Inspection(Vec3(17.0, 3.0, 17.0), Orientation(5.0 * Pi / 4.0, 0.0), "contentForComputer"))
    else if name == "scroll" then
      Some(Inspection(Vec3(-14.0, 3.0, 14.0), Orientation(3.0 * Pi / 4.0, 0.0), "contentForCareer"))
    else if name == "tv1" then
      Some(Inspection(Vec3(-14.5, 2.5, -18.0), Orientation(0.0, Pi / 5.0), "contentForCondoMAXium"))
    else if name == "tv2" then
      Some(Inspection(Vec3(-14.5, 6.5, -18.0), Orientation(0.0, Pi / 5.0), "contentForTime2Chill"))
    else
      None
  }

  /** How many `displayContent` calls a batch of effects makes. */
  function CountShown(effects: seq<Effect>): nat
  {
    if effects == [] then 0
    else (if effects[0].ShowContent? then 1 else 0) + CountShown(effects[1..])
  }

  lemma {:induction false} CountShownAppend(a: seq<Effect>, b: seq<Effect>)
    ensures CountShown(a + b) == CountShown(a) + CountShown(b)
  {
    if a == [] {
      assert a + b == b;
    } else {
      assert (a + b)[1..] == a[1..] + b;
      CountShownAppend(a[1..], b);
    }
  }

  /**
    `zoomToObject`: save the camera pose, release the pointer, snap to the
    target's inspection pose and show its content; an unknown name only saves
    and sets the flag.
   */
  function ZoomToObject(s: State, name: string): (r: (State, seq<Effect>))
    ensures r.0.saved == Some(s.view)
    ensures r.0.isZoomedIn && r.0.isInMenu == s.isInMenu
    ensures InspectionFor(name).Some? ==>
      r.0.translation == InspectionFor(name).value.position
      && r.0.rotation == InspectionFor(name).value.rotation
      && ShowContent(InspectionFor(name).value.content) in r.1
    ensures InspectionFor(name).None? ==>
      r.0.translation == s.translation && r.0.rotation == s.rotation && CountShown(r.1) == 0
    ensures CountShown(r.1) <= 1
    ensures RequestPointerLock !in r.1 && ExitPointerLock in r.1
    ensures r.0.look == s.look && r.0.bob == s.bob && r.0.view == s.view && r.0.input == s.input
  {
    var z := s.(saved := Some(s.view));
    match InspectionFor(name)
    case Some(i) =>
      var effects := [ExitPointerLock, ShowContent(i.content), ShowBackButton];
      CountShownAppend([ExitPointerLock, ShowContent(i.content)], [ShowBackButton]);
      (z.(translation := i.position, rotation := i.rotation, isZoomedIn := true), effects)
    case None =>
      (z.(isZoomedIn := true), [ExitPointerLock])
  }

  /** The fixed inspection coordinates of the five targets. */
  lemma InspectionCoordinates(s: State)
    ensures ZoomToObject(s, "jbox").0.translation == Vec3(14.85, 3.0, -14.85)
    ensures ZoomToObject(s, "computer").0.translation == Vec3(17.0, 3.0, 17.0)
    ensures ZoomToObject(s, "scroll").0.translation == Vec3(-14.0, 3.0, 14.0)
    ensures ZoomToObject(s, "tv1").0.translation == Vec3(-14.5, 2.5, -18.0)
    ensures ZoomToObject(s, "tv2").0.translation == Vec3(-14.5, 6.5, -18.0)
    ensures ZoomToObject(s, "tv3").0.translation == s.translation
  {
  }

  /** Whether `checkInteraction` zooms: a hit, within range, outside the menu. */
  predicate Engages(s: State, hit: Option<Hit>)
  {
    hit.Some? && hit.value.distance < InteractionRadius && !s.isInMenu
  }

  /** `checkInteraction`: zoom to the hit object when it is close and the menu is closed. */
  function CheckInteraction(s: State, hit: Option<Hit>): (r: (State, seq<Effect>))
    ensures Engages(s, hit) ==> r == ZoomToObject(s, hit.value.name)
    ensures !Engages(s, hit) ==> r == (s, [])
    ensures r.0.isZoomedIn <==> s.isZoomedIn || Engages(s, hit)
  {
    if hit.Some? && hit.value.distance < InteractionRadius && !s.isInMenu then
      ZoomToObject(s, hit.value.name)
    else
      (s, [])
  }

  /** `promptInteraction`: the click prompt shows for a close hit while not zoomed. */
  predicate PromptShown(s: State, hit: Option<Hit>)
  {
    hit.Some? && !s.isZoomedIn && hit.value.distance < InteractionRadius
  }

  // ----- menu and reset -----

  /** `pointerLockChange` / `menuHandler`: losing the lock outside a zoom opens the menu. */
  function PointerLockChange(s: State): (r: (State, seq<Effect>))
    ensures !s.isZoomedIn ==> r.0 == s.(isInMenu := true, isZoomedIn := true)
    ensures !s.isZoomedIn ==> ShowContent("escapeMenu") in r.1
    ensures s.isZoomedIn ==> r == (s, [])
  {
    if !s.isZoomedIn then
      (s.(isInMenu := true, isZoomedIn := true), [ShowContent("escapeMenu"), ShowBackButton])
    else
      (s, [])
  }

  /**
    `resetView`, run at once. Outside the menu it restores the saved pose with
    the eye height re-applied; in the menu the pose stays. Both flags end
    false. Outside the menu with nothing saved, `copy(undefined)` throws
    before any effect, and the state is left as it was.
   */
  function ResetView(s: State): (r: (State, seq<Effect>))
    ensures s.isInMenu || s.saved.Some? ==> !r.0.isZoomedIn && !r.0.isInMenu
    ensures s.isInMenu || s.saved.Some? ==> RequestPointerLock in r.1 && HideAllContent in r.1
    ensures s.isInMenu ==> r.0.translation == s.translation && r.0.rotation == s.rotation
    ensures !s.isInMenu && s.saved.Some? ==>
      r.0.translation == s.saved.value.position.(y := EyeHeight)
      && r.0.rotation == s.saved.value.rotation
    ensures !s.isInMenu && s.saved.None? ==> r == (s, [])
    ensures r.0.look == s.look && r.0.bob == s.bob && r.0.view == s.view && r.0.input == s.input
    ensures r.0.saved == s.saved
  {
    var effects := [HideBackButton, HideAllContent, RequestPointerLock];
    if s.isInMenu then
      (s.(isZoomedIn := false, isInMenu := false), effects)
    else
      match s.saved
      case None => (s, [])
      case Some(p) =>
        (s.(translation := p.position.(y := EyeHeight), rotation := p.rotation,
            isZoomedIn := false, isInMenu := false), effects)
  }

  // ----- station displays -----

  /**
    The stations whose displays the proximity rule drives. The two TVs share
    one centre, so they count as four places.
   */
  datatype Station = Computer | Jbox | Scroll | Tv1 | Tv2
  {
    /** The `contentName` the custom event carries. */
    function Name(): string
    {
      match this
      case Computer => "computer"
      case Jbox => "jbox"
      case Scroll => "scroll"
      case Tv1 => "tv1"
      case Tv2 => "tv2"
    }

    function Centre(): Vec3
    {
      match this
      case Computer => Vec3(14.0, 2.0, 14.0)
      case Jbox => Vec3(14.0, 2.0, -14.0)
      case Scroll => Vec3(-14.0, 2.0, 14.0)
      case Tv1 => Vec3(-14.0, 2.0, -14.0)
      case Tv2 => Vec3(-14.0, 2.0, -14.0)
    }
  }

  const StationNames: set<string> := {"computer", "jbox", "scroll", "tv1", "tv2"}

  /** The names are the stations', and different stations have different names. */
  lemma StationNamesAreDistinct()
    ensures forall st: Station :: st.Name() in StationNames
    ensures forall a: Station, b: Station :: a.Name() == b.Name() ==> a == b
    ensures forall n :: n in StationNames ==> exists st: Station :: st.Name() == n
  {
    assert "tv1"[2] != "tv2"[2];
    forall n | n in StationNames
      ensures exists st: Station :: st.Name() == n
    {
      if n == "computer" { assert Computer.Name() == n; }
      else if n == "jbox" { assert Jbox.Name() == n; }
      else if n == "scroll" { assert Scroll.Name() == n; }
      else if n == "tv1" { assert Tv1.Name() == n; }
      else { assert Tv2.Name() == n; }
    }
  }

  predicate Near(p: Vec3, centre: Vec3)
  {
    CloserThan(p, centre, StationRadius)
  }

  /** Within display range of the station. */
  predicate NearStation(p: Vec3, st: Station)
  {
    Near(p, st.Centre())
  }

  function Toggle(st: Station, near: bool): Effect
  {
    if near then ShowDisplay(st) else RemoveDisplay(st)
  }

  /**
    `checkDistanceToTV`: outside a zoom and an animation, each station gets
    exactly one of show (closer than 10) or remove; the two TVs move together.
   */
  function CheckDistanceToTV(s: State): (r: seq<Effect>)
    ensures s.isZoomedIn || s.isAnimating ==> r == []
    ensures !s.isZoomedIn && !s.isAnimating ==>
      |r| == 5
      && forall st: Station ::
        && (ShowDisplay(st) in r <==> NearStation(s.view.position, st))
        && (RemoveDisplay(st) in r <==> !NearStation(s.view.position, st))
    ensures forall e :: e in r ==> e.ShowDisplay? || e.RemoveDisplay?
    ensures ShowDisplay(Tv1) in r <==> ShowDisplay(Tv2) in r
    ensures RemoveDisplay(Tv1) in r <==> RemoveDisplay(Tv2) in r
  {
    if !s.isZoomedIn && !s.isAnimating then
      var p := s.view.position;
      var tvs := Near(p, Vec3(-14.0, 2.0, -14.0));
      [Toggle(Computer, Near(p, Vec3(14.0, 2.0, 14.0))),
       Toggle(Jbox, Near(p, Vec3(14.0, 2.0, -14.0))),
       Toggle(Scroll, Near(p, Vec3(-14.0, 2.0, 14.0))),
       Toggle(Tv1, tvs),
       Toggle(Tv2, tvs)]
    else
      []
  }

  // ----- the frame -----

  /** Host-supplied values of one frame. */
  datatype FrameInput = FrameInput(
    dt: real,             // seconds since the previous frame
    viewport: Viewport,
    heading: Heading,     // sin/cos of the yaw after this frame's look step
    bobOffset: real,      // sin(headBobTimer_ * 10) * 0.3
    hit: Option<Hit>)     // the prompt's raycast

  /** What the DOM shows after a frame, besides the effects. */
  datatype FrameOutput = FrameOutput(effects: seq<Effect>, prompt: bool, controls: bool, escape: bool)

  /** `updateRotation_`: the look step, skipped while zoomed. */
  function RotateStep(s: State, viewport: Viewport): (r: State)
    requires viewport.width > 0.0 && viewport.height > 0.0
    ensures s.isZoomedIn ==> r == s
    ensures !s.isZoomedIn ==> PitchInRange(r.look.theta) && r.rotation == Orientation(r.look.phi, r.look.theta)
    ensures !s.isZoomedIn ==> r.look == Turn(s.look, s.input.current.mouseXDelta, s.input.current.mouseYDelta, viewport)
    ensures PitchInRange(s.look.theta) ==> PitchInRange(r.look.theta)
    ensures r.translation == s.translation && r.input == s.input && r.bob == s.bob
  {
    if s.isZoomedIn then s
    else
      var look := Turn(s.look, s.input.current.mouseXDelta, s.input.current.mouseYDelta, viewport);
      s.(look := look, rotation := Orientation(look.phi, look.theta))
  }

  /** `updateHeadBob_`: the stepped timer, frozen while zoomed. */
  function BobStepGuarded(s: State, dt: real): (r: State)
    ensures s.isZoomedIn ==> r == s
    ensures !s.isZoomedIn ==> r.bob == AdvanceBob(s.bob, dt)
    ensures dt >= 0.0 ==> r.bob.timer >= s.bob.timer
    ensures r.bob.timer <= s.bob.timer || r.bob.timer <= NextStepTime(s.bob.timer)
  {
    if s.isZoomedIn then s else s.(bob := AdvanceBob(s.bob, dt))
  }

  /** `updateTranslation_`: walk, switch the bob on when moving, limit to the room. */
  function TranslateStep(s: State, dt: real, h: Heading): (r: State)
    ensures InRoom(r.translation)
    ensures r.translation.y == s.translation.y
    ensures HeldKeys(s.input).Moving() ==> r.bob.active
    ensures !HeldKeys(s.input).Moving() ==> r.bob == s.bob && r.translation == RoomClamp(s.translation)
    ensures HeldKeys(s.input).Moving() ==>
      r.translation == RoomClamp(Walk(s.translation, HeldKeys(s.input).Forward(), HeldKeys(s.input).Strafe(), h, dt))
    ensures r.bob.timer == s.bob.timer
    ensures r.look == s.look && r.rotation == s.rotation && r.input == s.input && r.view == s.view
    ensures r.isZoomedIn == s.isZoomedIn && r.isInMenu == s.isInMenu && r.saved == s.saved
  {
    var keys := HeldKeys(s.input);
    var walked := Walk(s.translation, keys.Forward(), keys.Strafe(), h, dt);
    var active := if keys.Moving() then true else s.bob.active;
    s.(translation := RoomClamp(walked), bob := s.bob.(active := active))
  }

  /**
    `update(timeElapsedS)`: look, copy to the camera, head bob, input
    baseline, prompt, walk when not zoomed, station displays, control and
    escape hints, reset on `r` while zoomed, frame count.
   */
  function Update(s: State, f: FrameInput): (r: (State, FrameOutput))
    requires f.viewport.width > 0.0 && f.viewport.height > 0.0
    ensures !s.isZoomedIn ==> InRoom(r.0.translation) && r.0.isZoomedIn == false
    ensures !s.isZoomedIn ==>
      r.0.translation == RoomClamp(Walk(s.translation, HeldKeys(s.input).Forward(), HeldKeys(s.input).Strafe(), f.heading, f.dt))
    ensures !s.isZoomedIn ==>
      r.0.look == Turn(s.look, s.input.current.mouseXDelta, s.input.current.mouseYDelta, f.viewport)
      && r.0.rotation == Orientation(r.0.look.phi, r.0.look.theta)
    ensures s.isZoomedIn && !Input.Key(s.input, KeyR) ==>
      r.0.look == s.look && r.0.rotation == s.rotation && r.0.translation == s.translation
      && r.0.bob == s.bob && r.0.isZoomedIn
    ensures s.isZoomedIn && Input.Key(s.input, KeyR) && (s.isInMenu || s.saved.Some?) ==>
      !r.0.isZoomedIn && !r.0.isInMenu
    ensures s.isZoomedIn && Input.Key(s.input, KeyR) && !s.isInMenu && s.saved.Some? ==>
      r.0.translation == s.saved.value.position.(y := EyeHeight) && r.0.rotation == s.saved.value.rotation
    ensures s.isZoomedIn && Input.Key(s.input, KeyR) && s.isInMenu ==>
      r.0.translation == s.translation && r.0.rotation == s.rotation
    ensures r.1.prompt <==> PromptShown(s, f.hit)
    ensures r.1.prompt ==> ShowContent("click-prompt") in r.1.effects
    ensures PitchInRange(s.look.theta) ==> PitchInRange(r.0.look.theta)
    ensures r.0.view.position.x == s.translation.x && r.0.view.position.z == s.translation.z
    ensures r.1.escape == !s.isZoomedIn
    ensures r.1.controls <==> !s.isZoomedIn && s.frames <= ControlsFrames
    ensures r.0.frames == s.frames + 1
    ensures !s.isZoomedIn && !s.isAnimating ==>
      forall st: Station ::
        && (ShowDisplay(st) in r.1.effects <==> NearStation(r.0.view.position, st))
        && (RemoveDisplay(st) in r.1.effects <==> !NearStation(r.0.view.position, st))
  {
    var s1 := RotateStep(s, f.viewport);
    var t := s1.translation;
    var s2 := s1.(view := Pose(Vec3(t.x, t.y + f.bobOffset, t.z), s1.rotation));
    var s3 := BobStepGuarded(s2, f.dt);
    var s4 := s3.(input := Input.Update(s3.input));
    assert HeldKeys(s4.input) == HeldKeys(s.input) && s4.translation == s.translation;
    var prompt := PromptShown(s4, f.hit);
    var s5 := if !s4.isZoomedIn then TranslateStep(s4, f.dt, f.heading) else s4;
    var stations := CheckDistanceToTV(s5);
    var controls := !s5.isZoomedIn && s5.frames <= ControlsFrames;
    var escape := !s5.isZoomedIn;
    var (s6, resetEffects) := if Input.Key(s5.input, KeyR) && s5.isZoomedIn then ResetView(s5) else (s5, []);
    var effects := (if prompt then [ShowContent("click-prompt")] else []) + stations + resetEffects;
    (s6.(frames := s6.frames + 1), FrameOutput(effects, prompt, controls, escape))
  }

  // ----- whole sessions -----

  /** What reaches the controller between and during frames. */
  datatype Event =
    | Frame(frame: FrameInput)
    | Click(hit: Option<Hit>)                        // onClick_ then checkInteraction
    | LockChange(lock: Input.LockElement, mozLock: Input.LockElement)
    | ResetButton(hit: Option<Hit>)                  // the back button: its own listener, then the
                                                     // document's click listener with the centre ray
    | Device(device: Input.Event)                    // a DOM input event

  /** The document's click listener: `onClick_`, whose request ends in `checkInteraction`. */
  function ClickStep(s: State, hit: Option<Hit>): (r: (State, seq<Effect>))
    ensures r.0 == CheckInteraction(s, hit).0
    ensures RequestPointerLock in r.1 <==> !s.isZoomedIn
    ensures CountShown(r.1) == CountShown(CheckInteraction(s, hit).1)
  {
    var lock := if Input.RequestPointerLock in Input.OnClick(Some(s.isZoomedIn)) then [RequestPointerLock] else [];
    var (r, effects) := CheckInteraction(s, hit);
    CountShownAppend(lock, effects);
    (r, lock + effects)
  }

  /**
    The controller's answer to one event; an unusable frame (zero-sized
    window) is ignored. A click reaches `onClick_` and then `checkInteraction`.
    The back button's own listener defers `resetView` to the next animation
    frame, and the click then bubbles to the document, so its interaction
    check runs first.
   */
  function Step(s: State, e: Event): (r: (State, seq<Effect>))
    ensures e.Click? ==> r.0 == CheckInteraction(s, e.hit).0
    ensures e.Click? ==> (RequestPointerLock in r.1 <==> !s.isZoomedIn)
    ensures e.Click? ==> CountShown(r.1) == CountShown(CheckInteraction(s, e.hit).1)
    ensures e.ResetButton? ==> r.0 == ResetView(CheckInteraction(s, e.hit).0).0
    ensures e.LockChange? && (e.lock == Input.Null || e.mozLock == Input.Null) ==> r == PointerLockChange(s)
    ensures e.LockChange? && e.lock != Input.Null && e.mozLock != Input.Null ==> r == (s, [])
    ensures e.Device? ==> r.1 == [] && r.0 == s.(input := r.0.input)
    ensures e.Device? && !e.device.Tick? ==> r.0.input == Input.Apply(s.input, e.device)
    ensures e.Device? && e.device.Tick? ==> r.0 == s
    ensures e.Frame? && (e.frame.viewport.width <= 0.0 || e.frame.viewport.height <= 0.0) ==> r == (s, [])
    ensures e.Frame? && e.frame.viewport.width > 0.0 && e.frame.viewport.height > 0.0 ==>
      r == (Update(s, e.frame).0, Update(s, e.frame).1.effects)
  {
    match e
    case Frame(f) =>
      if f.viewport.width > 0.0 && f.viewport.height > 0.0 then
        var (r, out) := Update(s, f);
        (r, out.effects)
      else (s, [])
    case Click(hit) => ClickStep(s, hit)
    case LockChange(lock, mozLock) =>
      if Input.PointerLockChange in Input.OnPointerLockChange(lock, mozLock) then PointerLockChange(s) else (s, [])
    case ResetButton(hit) =>
      var (clicked, clickEffects) := ClickStep(s, hit);
      var (r, resetEffects) := ResetView(clicked);
      (r, clickEffects + resetEffects)
    case Device(d) => if d.Tick? then (s, []) else (s.(input := Input.Apply(s.input, d)), [])
  }

  function Run(s: State, evs: seq<Event>): State
    decreases |evs|
  {
    if evs == [] then s else Step(Run(s, evs[..|evs| - 1]), evs[|evs| - 1]).0
  }

  /**
    The invariant of every reachable state: the menu implies the zoom flag, a
    zoom outside the menu has a saved pose, the pitch is in range, nothing
    animates and the sampler's baseline is level.
   */
  predicate Consistent(s: State)
  {
    && (s.isInMenu ==> s.isZoomedIn)
    && (s.isZoomedIn && !s.isInMenu ==> s.saved.Some?)
    && PitchInRange(s.look.theta)
    && !s.isAnimating
    && Input.Synced(s.input)
  }

  lemma FrameKeepsConsistent(s: State, f: FrameInput)
    requires Consistent(s)
    requires f.viewport.width > 0.0 && f.viewport.height > 0.0
    ensures Consistent(Update(s, f).0)
  {
    var s1 := RotateStep(s, f.viewport);
    var t := s1.translation;
    var s2 := s1.(view := Pose(Vec3(t.x, t.y + f.bobOffset, t.z), s1.rotation));
    var s3 := BobStepGuarded(s2, f.dt);
    assert Input.Synced(Input.Update(s3.input));
  }

  lemma ClickThenResetKeepsConsistent(s: State, hit: Option<Hit>)
    requires Consistent(s)
    ensures Consistent(ClickStep(s, hit).0)
    ensures Consistent(ResetView(ClickStep(s, hit).0).0)
  {
  }

  lemma StepKeepsConsistent(s: State, e: Event)
    requires Consistent(s)
    ensures Consistent(Step(s, e).0)
  {
    match e
    case Frame(f) =>
      if f.viewport.width > 0.0 && f.viewport.height > 0.0 {
        FrameKeepsConsistent(s, f);
      }
    case Click(hit) =>
      ClickThenResetKeepsConsistent(s, hit);
    case ResetButton(hit) =>
      ClickThenResetKeepsConsistent(s, hit);
    case Device(d) =>
      if !d.Tick? {
        assert Input.Synced(Input.Apply(s.input, d));
      }
    case LockChange(_, _) =>
  }

  /** Every state reachable from construction is consistent. */
  lemma {:induction false} ReachableIsConsistent(evs: seq<Event>)
    ensures Consistent(Run(Initial, evs))
    decreases |evs|
  {
    if evs != [] {
      ReachableIsConsistent(evs[..|evs| - 1]);
      StepKeepsConsistent(Run(Initial, evs[..|evs| - 1]), evs[|evs| - 1]);
    }
  }

  /** The pitch stays in [-PI/3, PI/3] over any session. */
  lemma {:induction false} PitchAlwaysInRange(evs: seq<Event>)
    ensures -PitchLimit <= Run(Initial, evs).look.theta <= PitchLimit
  {
    ReachableIsConsistent(evs);
  }

  /** In any reachable state, `resetView` ends with both flags false. */
  lemma {:induction false} ResetAlwaysClearsFlags(evs: seq<Event>)
    ensures !ResetView(Run(Initial, evs)).0.isZoomedIn && !ResetView(Run(Initial, evs)).0.isInMenu
  {
    ReachableIsConsistent(evs);
  }

  /**
    Zoom then reset is a round trip: the pose before the zoom comes back,
    with the eye height re-applied.
   */
  lemma ZoomThenResetRestoresPose(s: State, hit: Option<Hit>)
    requires !s.isZoomedIn && !s.isInMenu
    requires Engages(s, hit)
    ensures var z := CheckInteraction(s, hit).0;
      z.isZoomedIn
      && ResetView(z).0.translation == s.view.position.(y := EyeHeight)
      && ResetView(z).0.rotation == s.view.rotation
      && !ResetView(z).0.isZoomedIn && !ResetView(z).0.isInMenu
  {
  }

  /**
    The zoom guard does not look at `isZoomedIn`: a second click after a frame
    spent zoomed saves the inspection pose, and the reset then returns there
    instead of to the pose before the first zoom.
   */
  lemma SecondZoomLosesSavedPose(s: State, hit: Option<Hit>, f: FrameInput)
    requires !s.isZoomedIn && !s.isInMenu
    requires Engages(s, hit) && InspectionFor(hit.value.name).Some?
    requires f.viewport.width > 0.0 && f.viewport.height > 0.0
    requires !Input.Key(s.input, KeyR)
    ensures var z1 := CheckInteraction(s, hit).0;
      var z2 := Update(z1, f).0;
      var z3 := CheckInteraction(z2, hit).0;
      var i := InspectionFor(hit.value.name).value;
      ResetView(z3).0.translation == Vec3(i.position.x, EyeHeight, i.position.z)
  {
  }

  /** The menu is entered only from outside a zoom, and a zoom cannot be turned into the menu. */
  lemma LockLossWhileZoomedIsIgnored(s: State, hit: Option<Hit>)
    requires !s.isZoomedIn && !s.isInMenu
    requires Engages(s, hit)
    ensures var z := CheckInteraction(s, hit).0;
      PointerLockChange(z).0 == z && !PointerLockChange(z).0.isInMenu
  {
  }

  /**
    The back button clicks the document too. Outside the menu, when the centre
    ray meets a target in range, that click zooms again and saves the pose the
    camera shows, so the reset lands there, at eye height, and not at the pose
    saved by the earlier zoom. When the ray meets nothing in range, the button
    is the plain reset.
   */
  lemma BackButtonReturnsToView(s: State, hit: Option<Hit>)
    requires s.isZoomedIn
    ensures Engages(s, hit) ==>
      var r := Step(s, ResetButton(hit)).0;
      r.translation == s.view.position.(y := EyeHeight) && r.rotation == s.view.rotation
      && !r.isZoomedIn && !r.isInMenu && r.saved == Some(s.view)
    ensures !Engages(s, hit) ==> Step(s, ResetButton(hit)).0 == ResetView(s).0
  {
  }

  /**
    Zoom on a target, let one frame copy the inspection pose to the camera,
    then press the back button while the centre ray still meets the target:
    the camera stays at the inspection spot, with y at eye height.
   */
  lemma BackButtonStaysAtInspection(s: State, hit: Option<Hit>, f: FrameInput)
    requires !s.isZoomedIn && !s.isInMenu
    requires Engages(s, hit) && InspectionFor(hit.value.name).Some?
    requires f.viewport.width > 0.0 && f.viewport.height > 0.0
    requires !Input.Key(s.input, KeyR)
    ensures var z1 := Step(s, Click(hit)).0;
      var z2 := Step(z1, Frame(f)).0;
      var i := InspectionFor(hit.value.name).value;
      Step(z2, ResetButton(hit)).0.translation == Vec3(i.position.x, EyeHeight, i.position.z)
      && Step(z2, ResetButton(hit)).0.rotation == i.rotation
  {
    var i := InspectionFor(hit.value.name).value;
    var z1 := Step(s, Click(hit)).0;
    assert z1.isZoomedIn && !z1.isInMenu && z1.translation == i.position && z1.rotation == i.rotation;
    var z2 := Step(z1, Frame(f)).0;
    assert z2.isZoomedIn && !z2.isInMenu;
    assert z2.view.position.x == i.position.x && z2.view.position.z == i.position.z && z2.view.rotation == i.rotation;
    BackButtonReturnsToView(z2, hit);
  }

  /**
    In a reachable state the click prompt shows exactly when a click would
    zoom from outside a zoom: same hit, same range, and the menu is closed
    whenever the zoom flag is.
   */
  lemma PromptMatchesClick(s: State, hit: Option<Hit>)
    requires Consistent(s)
    ensures PromptShown(s, hit) <==> !s.isZoomedIn && Engages(s, hit)
    ensures PromptShown(s, hit) ==> ClickStep(s, hit).0.isZoomedIn
    ensures s.isZoomedIn ==> !PromptShown(s, hit)
  {
  }

  /** In the menu a click never zooms, however close the hit. */
  lemma MenuBlocksInteraction(s: State, hit: Option<Hit>)
    requires s.isInMenu
    ensures CheckInteraction(s, hit) == (s, [])
  {
  }

  /** A jukebox hit at distance 10 zooms to its inspection pose and shows its content exactly once. */
  lemma JukeboxScenario(s: State)
    requires !s.isZoomedIn && !s.isInMenu
    ensures var (z, effects) := CheckInteraction(s, Some(Hit("jbox", 10.0)));
      z.isZoomedIn && z.translation == Vec3(14.85, 3.0, -14.85)
      && CountShown(effects) == 1 && ShowContent("contentForJBox") in effects
    ensures CheckInteraction(s, Some(Hit("jbox", 20.0))) == (s, [])
  {
  }
}
