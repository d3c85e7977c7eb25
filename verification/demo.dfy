/**
  The scene owner of src/FirstPersonCameraDemo.js, reduced to what the
  controller interacts with: the station display overlays, the control
  display, the display animation, and the list of interactable objects
  filled in while the models load.

  The scene graph is reduced to the set of names `getObjectByName` can find;
  meshes and textures are not modelled.
 */
module Demo {
  import opened Wrappers
  import opened Geometry
  import Camera

  // ----- station displays -----

  /** The names of the display meshes in the scene. */
  type Overlays = set<string>

  /** The names `checkTVDisplay` and `checkTVRemoveDisplay` handle; every other name falls to `default`. */
  const Stations: set<string> := Camera.StationNames

  /** The scene name of a station's display mesh. */
  function DisplayName(name: string): string
  {
    name + "Display"
  }

  /** Different stations have different display meshes. */
  lemma DisplayNameInjective(n: string, m: string)
    ensures DisplayName(n) == DisplayName(m) ==> n == m
  {
    if DisplayName(n) == DisplayName(m) {
      assert n == DisplayName(n)[..|n|];
      assert m == DisplayName(m)[..|m|];
    }
  }

  /** `checkTVDisplay` creates a display and starts its animation only when it is absent. */
  predicate StartsAnimation(overlays: Overlays, name: string)
  {
    name in Stations && DisplayName(name) !in overlays
  }

  /** `checkTVDisplay`: add the display of a known station once; ignore other names. */
  function CheckTVDisplay(overlays: Overlays, name: string): (r: Overlays)
    ensures name in Stations ==> r == overlays + {DisplayName(name)}
    ensures name !in Stations ==> r == overlays
  {
    if StartsAnimation(overlays, name) then overlays + {DisplayName(name)} else overlays
  }

  /** `checkTVRemoveDisplay`: remove the display of a known station if present; ignore other names. */
  function CheckTVRemoveDisplay(overlays: Overlays, name: string): (r: Overlays)
    ensures name in Stations ==> r == overlays - {DisplayName(name)}
    ensures name !in Stations ==> r == overlays
  {
    if name in Stations && DisplayName(name) in overlays then overlays - {DisplayName(name)} else overlays
  }

  /** Showing twice is showing once, and the repeat starts no second animation. */
  lemma ShowIsIdempotent(overlays: Overlays, name: string)
    ensures CheckTVDisplay(CheckTVDisplay(overlays, name), name) == CheckTVDisplay(overlays, name)
    ensures !StartsAnimation(CheckTVDisplay(overlays, name), name)
  {
  }

  /** For a known station, show then remove restores the overlays exactly when its display was absent before. */
  lemma ShowThenRemoveRestores(overlays: Overlays, name: string)
    requires name in Stations
    ensures CheckTVRemoveDisplay(CheckTVDisplay(overlays, name), name) == overlays <==> DisplayName(name) !in overlays
  {
    if DisplayName(name) in overlays {
      assert DisplayName(name) !in CheckTVRemoveDisplay(CheckTVDisplay(overlays, name), name);
    }
  }

  /** The `checkTVDisplay` / `checkTVRemoveDisplay` listeners; other effects do not touch the overlays. */
  function Handle(overlays: Overlays, e: Camera.Effect): Overlays
  {
    match e
    case ShowDisplay(st) => CheckTVDisplay(overlays, st.Name())
    case RemoveDisplay(st) => CheckTVRemoveDisplay(overlays, st.Name())
    case _ => overlays
  }

  /** The custom events are handled synchronously, in dispatch order. */
  function Dispatch(overlays: Overlays, effects: seq<Camera.Effect>): Overlays
    decreases |effects|
  {
    if effects == [] then overlays else Dispatch(Handle(overlays, effects[0]), effects[1..])
  }

  lemma {:induction false} DispatchAppend(overlays: Overlays, a: seq<Camera.Effect>, b: seq<Camera.Effect>)
    ensures Dispatch(overlays, a + b) == Dispatch(Dispatch(overlays, a), b)
    decreases |a|
  {
    if a == [] {
      assert a + b == b;
    } else {
      assert (a + b)[0] == a[0];
      assert (a + b)[1..] == a[1..] + b;
      DispatchAppend(Handle(overlays, a[0]), a[1..], b);
    }
  }

  /** The last show (`true`) or remove (`false`) request for `st`, searching from the end. */
  function LastToggle(effects: seq<Camera.Effect>, st: Camera.Station): Option<bool>
    decreases |effects|
  {
    if effects == [] then None
    else
      var e := effects[|effects| - 1];
      if e == Camera.ShowDisplay(st) then Some(true)
      else if e == Camera.RemoveDisplay(st) then Some(false)
      else LastToggle(effects[..|effects| - 1], st)
  }

  /**
    After a batch of effects a station's display is present exactly when the
    last request for it was a show, or, with no request, when it was present
    before.
   */
  lemma {:induction false} DispatchFollowsLastToggle(overlays: Overlays, effects: seq<Camera.Effect>, st: Camera.Station)
    ensures DisplayName(st.Name()) in Dispatch(overlays, effects) <==>
      match LastToggle(effects, st)
      case Some(shown) => shown
      case None => DisplayName(st.Name()) in overlays
    decreases |effects|
  {
    Camera.StationNamesAreDistinct();
    if effects != [] {
      var init := effects[..|effects| - 1];
      var e := effects[|effects| - 1];
      assert effects == init + [e];
      DispatchFollowsLastToggle(overlays, init, st);
      DispatchAppend(overlays, init, [e]);
      assert [e][1..] == [];
      if e.ShowDisplay? || e.RemoveDisplay? {
        DisplayNameInjective(e.station.Name(), st.Name());
      }
    }
  }

  /** A name that is no station's display is never added or removed. */
  lemma {:induction false} DispatchKeepsOtherNames(overlays: Overlays, effects: seq<Camera.Effect>, x: string)
    requires forall n :: n in Stations ==> x != DisplayName(n)
    ensures x in Dispatch(overlays, effects) <==> x in overlays
    decreases |effects|
  {
    Camera.StationNamesAreDistinct();
    if effects != [] {
      DispatchKeepsOtherNames(Handle(overlays, effects[0]), effects[1..], x);
    }
  }

  /** With only shows for `st` in the batch, the last one is a show; likewise for removes. */
  lemma {:induction false} LastToggleOfOneKind(effects: seq<Camera.Effect>, st: Camera.Station)
    ensures Camera.ShowDisplay(st) in effects && Camera.RemoveDisplay(st) !in effects ==>
      LastToggle(effects, st) == Some(true)
    ensures Camera.RemoveDisplay(st) in effects && Camera.ShowDisplay(st) !in effects ==>
      LastToggle(effects, st) == Some(false)
    decreases |effects|
  {
    if effects != [] {
      var init := effects[..|effects| - 1];
      assert effects == init + [effects[|effects| - 1]];
      LastToggleOfOneKind(init, st);
    }
  }

  /** A station pass outside a zoom leaves each display present exactly when the camera is near its station. */
  lemma StationPassSetsDisplays(overlays: Overlays, s: Camera.State)
    requires !s.isZoomedIn && !s.isAnimating
    ensures forall st: Camera.Station ::
      (DisplayName(st.Name()) in Dispatch(overlays, Camera.CheckDistanceToTV(s)) <==> Camera.NearStation(s.view.position, st))
  {
    var effects := Camera.CheckDistanceToTV(s);
    forall st: Camera.Station
      ensures DisplayName(st.Name()) in Dispatch(overlays, effects) <==> Camera.NearStation(s.view.position, st)
    {
      LastToggleOfOneKind(effects, st);
      DispatchFollowsLastToggle(overlays, effects, st);
    }
  }

  // ----- control display -----

  /** The control display's position, Euler rotation and uniform scale. */
  datatype Placement = Placement(position: Vec3, rotation: Vec3, scale: real)

  /** The new prism sits at the origin, unrotated, scaled by 4. */
  const FreshPlacement: Placement := Placement(Vec3(0.0, 0.0, 0.0), Vec3(0.0, 0.0, 0.0), 4.0)

  /**
    `addControlDisplay`: the creating call builds the mesh into an inner
    `const` that shadows the outer `let`, so the copy of position and rotation
    that follows sees `undefined` and is skipped. Later calls copy both.
   */
  function AddControlDisplay(controls: Option<Placement>, position: Vec3, rotation: Vec3): (r: Option<Placement>)
    ensures r.Some?
    ensures controls.None? ==> r == Some(FreshPlacement)
    ensures controls.Some? ==> r == Some(controls.value.(position := position, rotation := rotation))
  {
    match controls
    case None => Some(FreshPlacement)
    case Some(c) => Some(Placement(position, rotation, c.scale))
  }

  /** `removeControlDisplay`: remove it if present, otherwise nothing. */
  function RemoveControlDisplay(controls: Option<Placement>): (r: Option<Placement>)
    ensures r.None?
  {
    None
  }

  /** Only a second call places the display where asked; the first ignores its arguments. */
  lemma SecondAddPlaces(p1: Vec3, r1: Vec3, p2: Vec3, r2: Vec3)
    ensures AddControlDisplay(None, p1, r1) == Some(FreshPlacement)
    ensures AddControlDisplay(AddControlDisplay(None, p1, r1), p2, r2) == Some(Placement(p2, r2, 4.0))
  {
  }

  // ----- display animation -----

  /** Duration of the display animation, in milliseconds. */
  const AnimationDuration: real := 500.0

  /** `Math.min(elapsed / duration, 1)`. */
  function Progress(elapsed: real): (p: real)
    ensures p <= 1.0
    ensures elapsed >= 0.0 ==> p >= 0.0
    ensures p == 1.0 <==> elapsed >= AnimationDuration
    ensures elapsed < AnimationDuration ==> p == elapsed / AnimationDuration
  {
    Min(elapsed / AnimationDuration, 1.0)
  }

  const InitialScale: Vec3 := Vec3(1.0, 0.001, 1.0)
  const TargetScale: Vec3 := Vec3(1.1, 1.2, 1.1)
  /** A new mesh's scale before the first callback. */
  const UnitScale: Vec3 := Vec3(1.0, 1.0, 1.0)

  function Lerp(a: real, b: real, t: real): real
  {
    a + (b - a) * t
  }

  /** `mesh.scale.lerpVectors(initialScale, targetScale, progress)`. */
  function DisplayScale(progress: real): (v: Vec3)
    ensures progress == 0.0 ==> v == InitialScale
    ensures progress == 1.0 ==> v == TargetScale
    ensures 0.0 <= progress <= 1.0 ==>
      && InitialScale.x <= v.x <= TargetScale.x
      && InitialScale.y <= v.y <= TargetScale.y
      && InitialScale.z <= v.z <= TargetScale.z
  {
    Vec3(Lerp(InitialScale.x, TargetScale.x, progress),
         Lerp(InitialScale.y, TargetScale.y, progress),
         Lerp(InitialScale.z, TargetScale.z, progress))
  }

  /**
    The chain of `animate` callbacks. The first is always scheduled; each one
    sets the scale and schedules the next only while its progress is below 1.
    `stamps` are the timestamps the browser would pass; `ran` is how many
    callbacks run and `scale` the mesh's scale after them.
   */
  method AnimationFrames(start: real, stamps: seq<real>) returns (ran: nat, scale: Vec3)
    ensures ran <= |stamps|
    ensures |stamps| > 0 ==> ran >= 1
    ensures forall i :: 0 <= i < ran - 1 ==> Progress(stamps[i] - start) < 1.0
    ensures 0 < ran < |stamps| ==> Progress(stamps[ran - 1] - start) == 1.0 && scale == TargetScale
    ensures ran == 0 ==> scale == UnitScale
    ensures ran > 0 ==> scale == DisplayScale(Progress(stamps[ran - 1] - start))
    ensures forall k :: 0 <= k < |stamps| && stamps[k] - start >= AnimationDuration ==> ran <= k + 1
  {
    ran := 0;
    scale := UnitScale;
    while ran < |stamps| && (ran == 0 || Progress(stamps[ran - 1] - start) < 1.0)
      invariant ran <= |stamps|
      invariant forall i :: 0 <= i < ran - 1 ==> Progress(stamps[i] - start) < 1.0
      invariant ran == 0 ==> scale == UnitScale
      invariant ran > 0 ==> scale == DisplayScale(Progress(stamps[ran - 1] - start))
    {
      scale := DisplayScale(Progress(stamps[ran] - start));
      ran := ran + 1;
    }
  }

  // ----- interactable registration -----

  /** One awaited model load; `interactable` when it is pushed to the list after loading. */
  datatype Asset = Asset(name: string, interactable: bool)

  /**
    The `try` blocks of `initializeScene_` that push interactables, in order.
    A failed load throws to the block's `catch`, so the rest of the block is
    skipped; the other blocks push nothing and are omitted.
   */
  const SceneBlocks: seq<seq<Asset>> := [
    [Asset("table", false), Asset("computer", true), Asset("shelf1", false), Asset("shelf2", false)],
    [Asset("panth", false), Asset("plantA1", false), Asset("plantA2", false), Asset("plantB1", false),
     Asset("plantB2", false), Asset("scroll", true)],
    [Asset("tv1", true), Asset("tv2", true), Asset("tv3", false), Asset("tv4", false),
     Asset("tv5", false), Asset("tv6", false), Asset("tv7", false), Asset("tv8", false)],
    [Asset("amp1", false), Asset("amp2", false), Asset("jbox", true), Asset("guit", false)]
  ]

  const AllInteractables: seq<string> := ["computer", "scroll", "tv1", "tv2", "jbox"]

  /** The names one block pushes from asset `i` on, when the loads in `failed` reject. */
  function PushesFrom(block: seq<Asset>, failed: set<string>, i: nat): seq<string>
    requires i <= |block|
    decreases |block| - i
  {
    if i == |block| || block[i].name in failed then []
    else (if block[i].interactable then [block[i].name] else []) + PushesFrom(block, failed, i + 1)
  }

  function BlockPushes(block: seq<Asset>, failed: set<string>): seq<string>
  {
    PushesFrom(block, failed, 0)
  }

  /** The pushes of blocks `k` onwards. */
  function RegisteredFrom(blocks: seq<seq<Asset>>, failed: set<string>, k: nat): seq<string>
    requires k <= |blocks|
    decreases |blocks| - k
  {
    if k == |blocks| then [] else BlockPushes(blocks[k], failed) + RegisteredFrom(blocks, failed, k + 1)
  }

  function Registered(blocks: seq<seq<Asset>>, failed: set<string>): seq<string>
  {
    RegisteredFrom(blocks, failed, 0)
  }

  /** A failure only cuts a block's pushes short: they are a prefix of the full ones. */
  lemma {:induction false} PushesArePrefix(block: seq<Asset>, failed: set<string>, i: nat)
    requires i <= |block|
    ensures PushesFrom(block, failed, i) <= PushesFrom(block, {}, i)
    decreases |block| - i
  {
    if i < |block| && block[i].name !in failed {
      PushesArePrefix(block, failed, i + 1);
    }
  }

  /** Whatever fails, every registered name is one the full registration has. */
  lemma {:induction false} FailuresOnlyDrop(blocks: seq<seq<Asset>>, failed: set<string>, k: nat)
    requires k <= |blocks|
    ensures forall n :: n in RegisteredFrom(blocks, failed, k) ==> n in RegisteredFrom(blocks, {}, k)
    decreases |blocks| - k
  {
    if k < |blocks| {
      PushesArePrefix(blocks[k], failed, 0);
      FailuresOnlyDrop(blocks, failed, k + 1);
      var own := BlockPushes(blocks[k], failed);
      var full := BlockPushes(blocks[k], {});
      forall n | n in own
        ensures n in full
      {
        var i :| 0 <= i < |own| && own[i] == n;
        assert full[i] == n;
      }
    }
  }

  lemma FullRegistration()
    ensures Registered(SceneBlocks, {}) == AllInteractables
  {
    assert BlockPushes(SceneBlocks[0], {}) == ["computer"];
    assert BlockPushes(SceneBlocks[1], {}) == ["scroll"];
    assert BlockPushes(SceneBlocks[2], {}) == ["tv1", "tv2"];
    assert BlockPushes(SceneBlocks[3], {}) == ["jbox"];
  }

  /**
    With every load succeeding the list is computer, scroll, tv1, tv2, jbox in
    that order; whatever fails, only those names appear, and tv3 to tv8 never do.
   */
  lemma RegisteredInteractables(failed: set<string>)
    ensures Registered(SceneBlocks, {}) == AllInteractables
    ensures forall n :: n in Registered(SceneBlocks, failed) ==> n in AllInteractables
    ensures forall n :: n in {"tv3", "tv4", "tv5", "tv6", "tv7", "tv8"} ==> n !in Registered(SceneBlocks, failed)
  {
    FullRegistration();
    FailuresOnlyDrop(SceneBlocks, failed, 0);
  }

  // ----- the demo and its controller -----

  /**
    The controller receives `this.interactable` by reference before the loads
    finish, so it reads the one list the loads push to: the model keeps a
    single list.
   */
  datatype World = World(
    camera: Camera.State,
    overlays: set<string>,
    controls: Option<Placement>,
    interactable: seq<string>)

  const InitialWorld: World := World(Camera.Initial, {}, None, [])

  /** A raycast only meets registered objects: a hit on anything else is no hit. */
  function Resolve(hit: Option<Camera.Hit>, interactable: seq<string>): (r: Option<Camera.Hit>)
    ensures r.Some? ==> r == hit && hit.value.name in interactable
    ensures hit.Some? && hit.value.name in interactable ==> r == hit
  {
    if hit.Some? && hit.value.name in interactable then hit else None
  }

  datatype Event =
    | Controller(event: Camera.Event)
    | Loaded(asset: Asset)                       // a model finished loading
    | AddControls(position: Vec3, rotation: Vec3)
    | RemoveControls

  /** Resolve the raycasts of a controller event against the registered list. */
  function Resolved(e: Camera.Event, interactable: seq<string>): Camera.Event
  {
    match e
    case Click(hit) => Camera.Click(Resolve(hit, interactable))
    case ResetButton(hit) => Camera.ResetButton(Resolve(hit, interactable))
    case Frame(f) => Camera.Frame(f.(hit := Resolve(f.hit, interactable)))
    case _ => e
  }

  /**
    The scene owner's wiring: controller events go to the controller with
    raycasts resolved against the current list, and the station requests it
    dispatches reach the display listeners; a loaded interactable model is
    pushed onto the list the controller shares.
   */
  function Step(w: World, e: Event): (r: World)
    ensures e.Controller? ==>
      var (camera, effects) := Camera.Step(w.camera, Resolved(e.event, w.interactable));
      r == w.(camera := camera, overlays := Dispatch(w.overlays, effects))
    ensures e.Loaded? && e.asset.interactable ==> r.interactable == w.interactable + [e.asset.name]
    ensures e.Loaded? && !e.asset.interactable ==> r == w
    ensures e.Loaded? ==> r.camera == w.camera && r.overlays == w.overlays && r.controls == w.controls
    ensures e.AddControls? ==> r == w.(controls := AddControlDisplay(w.controls, e.position, e.rotation))
    ensures e.RemoveControls? ==> r == w.(controls := None)
  {
    match e
    case Controller(c) =>
      var (camera, effects) := Camera.Step(w.camera, Resolved(c, w.interactable));
      w.(camera := camera, overlays := Dispatch(w.overlays, effects))
    case Loaded(a) => if a.interactable then w.(interactable := w.interactable + [a.name]) else w
    case AddControls(p, r) => w.(controls := AddControlDisplay(w.controls, p, r))
    case RemoveControls => w.(controls := RemoveControlDisplay(w.controls))
  }

  /** Before anything is registered, a click neither zooms nor shows content. */
  lemma NoTargetsNoZoom(w: World, hit: Option<Camera.Hit>)
    requires w.interactable == []
    ensures Step(w, Controller(Camera.Click(hit))).camera == w.camera
  {
  }

  /** A target pushed after the hand-over is visible to the controller: the click zooms. */
  lemma LaterPushIsVisible(w: World, d: real)
    requires !w.camera.isZoomedIn && !w.camera.isInMenu && d < Camera.InteractionRadius
    ensures var loaded := Step(w, Loaded(Asset("jbox", true)));
      var clicked := Step(loaded, Controller(Camera.Click(Some(Camera.Hit("jbox", d)))));
      clicked.camera.isZoomedIn && clicked.camera.translation == Vec3(14.85, 3.0, -14.85)
  {
  }

  /**
    After a frame that starts outside a zoom, each station's display is
    present exactly when the camera was near that station.
   */
  lemma FrameSyncsStationDisplays(w: World, f: Camera.FrameInput)
    requires !w.camera.isZoomedIn && !w.camera.isAnimating
    requires f.viewport.width > 0.0 && f.viewport.height > 0.0
    ensures var r := Step(w, Controller(Camera.Frame(f)));
      forall st: Camera.Station ::
        (DisplayName(st.Name()) in r.overlays <==> Camera.NearStation(r.camera.view.position, st))
    ensures var r := Step(w, Controller(Camera.Frame(f)));
      forall x :: (forall n :: n in Stations ==> x != DisplayName(n)) ==> (x in r.overlays <==> x in w.overlays)
  {
    var f' := f.(hit := Resolve(f.hit, w.interactable));
    assert Resolved(Camera.Frame(f), w.interactable) == Camera.Frame(f');
    var (r, out) := Camera.Update(w.camera, f');
    assert Camera.Step(w.camera, Camera.Frame(f')) == (r, out.effects);
    assert Step(w, Controller(Camera.Frame(f))) == w.(camera := r, overlays := Dispatch(w.overlays, out.effects));
    forall st: Camera.Station
      ensures DisplayName(st.Name()) in Dispatch(w.overlays, out.effects) <==> Camera.NearStation(r.view.position, st)
    {
      LastToggleOfOneKind(out.effects, st);
      DispatchFollowsLastToggle(w.overlays, out.effects, st);
    }
    forall x | forall n :: n in Stations ==> x != DisplayName(n)
      ensures x in Dispatch(w.overlays, out.effects) <==> x in w.overlays
    {
      DispatchKeepsOtherNames(w.overlays, out.effects, x);
    }
  }
}
