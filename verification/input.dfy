/**
  The input sampler (`InputController`): pointer movement, button and key
  state, and the once-per-frame re-baselining of the mouse delta.

  The class in main.js repeats the pointer, button and key handlers and the
  `update` of src/InputController.js, so one model serves both. It differs in
  its wiring: it has no zoom callback, its click listener only requests the
  pointer lock, and it listens for no pointer-lock change. Both click
  handlers are given below; the lock-change handler belongs to the src
  version only.

  Every pointer event already stores `previous_ := current_`, so `Update`
  always finds `previous_` equal to `current_` in the mouse coordinates: a
  frame sees the movement of the LAST pointer event since the previous frame,
  not the sum (lemmas `FrameSeesLastMovement`, `UpdateZeroesDeltas`).
 */
module Input {
  import opened Wrappers

  /** The `current_` / `previous_` record. */
  datatype Sample = Sample(
    leftButton: bool,
    rightButton: bool,
    mouseXDelta: real,
    mouseYDelta: real,
    mouseX: real,
    mouseY: real)

  /** `keys_` maps a key code to the flag of its most recent key event. */
  datatype Controller = Controller(current: Sample, previous: Option<Sample>, keys: map<int, bool>)

  /** The state `initialize_` sets up. */
  const Initial: Controller := Controller(Sample(false, false, 0.0, 0.0, 0.0, 0.0), None, map[])

  /** The fields of a DOM pointer event the handlers read; an absent field is `None`. */
  datatype PointerEvent = PointerEvent(
    movementX: Option<real>,
    mozMovementX: Option<real>,
    movementY: Option<real>,
    mozMovementY: Option<real>,
    button: int)

  /** `field || mozField || 0`: JavaScript's `||` skips absent and zero values. */
  function Movement(field: Option<real>, mozField: Option<real>): (m: real)
    ensures field.Some? && field.value != 0.0 ==> m == field.value
    ensures m != 0.0 ==> field == Some(m) || mozField == Some(m)
    ensures field.None? && mozField.None? ==> m == 0.0
  {
    if field.Some? && field.value != 0.0 then field.value
    else if mozField.Some? && mozField.value != 0.0 then mozField.value
    else 0.0
  }

  function MovementX(e: PointerEvent): real
  {
    Movement(e.movementX, e.mozMovementX)
  }

  function MovementY(e: PointerEvent): real
  {
    Movement(e.movementY, e.mozMovementY)
  }

  /** `onMouseMove_`: accumulate, record the event's movement as the delta, snapshot. */
  function OnMouseMove(c: Controller, e: PointerEvent): (r: Controller)
    ensures r.current.mouseX == c.current.mouseX + MovementX(e)
    ensures r.current.mouseY == c.current.mouseY + MovementY(e)
    ensures r.current.mouseXDelta == MovementX(e) && r.current.mouseYDelta == MovementY(e)
    ensures r.previous == Some(r.current)
    ensures r.current.leftButton == c.current.leftButton
    ensures r.current.rightButton == c.current.rightButton
    ensures r.keys == c.keys
  {
    var cur := c.current.(
      mouseX := c.current.mouseX + MovementX(e),
      mouseY := c.current.mouseY + MovementY(e),
      mouseXDelta := MovementX(e),
      mouseYDelta := MovementY(e));
    c.(current := cur, previous := Some(cur))
  }

  /** The `switch (e.button)` of the button handlers: 0 is the left, 2 the right button. */
  function SetButton(s: Sample, button: int, down: bool): (r: Sample)
    ensures r.leftButton == (if button == 0 then down else s.leftButton)
    ensures r.rightButton == (if button == 2 then down else s.rightButton)
    ensures button != 0 && button != 2 ==> r == s
    ensures r.mouseX == s.mouseX && r.mouseY == s.mouseY
    ensures r.mouseXDelta == s.mouseXDelta && r.mouseYDelta == s.mouseYDelta
  {
    if button == 0 then s.(leftButton := down)
    else if button == 2 then s.(rightButton := down)
    else s
  }

  /**
    `onMouseDown_` / `onMouseUp_`: a move first, then the button flag. The
    snapshot is taken by the move, so `previous_` keeps the old flag.
   */
  function OnMouseButton(c: Controller, e: PointerEvent, down: bool): (r: Controller)
    ensures r.current.mouseX == c.current.mouseX + MovementX(e)
    ensures r.current.mouseY == c.current.mouseY + MovementY(e)
    ensures r.current.mouseXDelta == MovementX(e) && r.current.mouseYDelta == MovementY(e)
    ensures r.current.leftButton == (if e.button == 0 then down else c.current.leftButton)
    ensures r.current.rightButton == (if e.button == 2 then down else c.current.rightButton)
    ensures r.previous == Some(r.current.(leftButton := c.current.leftButton, rightButton := c.current.rightButton))
    ensures r.keys == c.keys
  {
    var m := OnMouseMove(c, e);
    m.(current := SetButton(m.current, e.button, down))
  }

  /** `onKeyDown_` / `onKeyUp_`. */
  function OnKey(c: Controller, code: int, down: bool): (r: Controller)
    ensures Key(r, code) == down
    ensures forall k :: k != code ==> Key(r, k) == Key(c, k)
    ensures r.current == c.current && r.previous == c.previous
  {
    c.(keys := c.keys[code := down])
  }

  /** `key(keyCode)`: `!!keys_[keyCode]`, false for a code never seen. */
  predicate Key(c: Controller, code: int)
  {
    code in c.keys && c.keys[code]
  }

  /** `isReady()`. */
  predicate IsReady(c: Controller)
  {
    c.previous.Some?
  }

  /**
    The pointer events have kept `previous_` level with `current_` in the
    mouse coordinates, and before the first of them the deltas are still 0.
   */
  predicate Synced(c: Controller)
  {
    match c.previous
    case Some(p) => p.mouseX == c.current.mouseX && p.mouseY == c.current.mouseY
    case None => c.current.mouseXDelta == 0.0 && c.current.mouseYDelta == 0.0
  }

  /** `update()`: the delta since the baseline, then a new baseline. */
  function Update(c: Controller): (r: Controller)
    ensures !IsReady(c) ==> r == c
    ensures IsReady(c) ==> r.previous == Some(r.current)
    ensures Synced(c) && IsReady(c) ==> r.current.mouseXDelta == 0.0 && r.current.mouseYDelta == 0.0
    ensures r.current.mouseX == c.current.mouseX && r.current.mouseY == c.current.mouseY
    ensures r.current.leftButton == c.current.leftButton
    ensures r.current.rightButton == c.current.rightButton
    ensures r.keys == c.keys
  {
    match c.previous
    case None => c
    case Some(p) =>
      var cur := c.current.(
        mouseXDelta := c.current.mouseX - p.mouseX,
        mouseYDelta := c.current.mouseY - p.mouseY);
      c.(current := cur, previous := Some(cur))
  }

  /** Everything that reaches the sampler: the DOM handlers and the per-frame `update()` (`Tick`). */
  datatype Event =
    | Move(pointer: PointerEvent)
    | Down(pointer: PointerEvent)
    | Up(pointer: PointerEvent)
    | KeyDown(code: int)
    | KeyUp(code: int)
    | Tick
  {
    predicate IsPointer()
    {
      Move? || Down? || Up?
    }
  }

  /** The listeners of `initialize_`, and `update()` for `Tick`. */
  function Apply(c: Controller, e: Event): (r: Controller)
    ensures e.IsPointer() ==>
      && IsReady(r)
      && r.current.mouseXDelta == MovementX(e.pointer) && r.current.mouseYDelta == MovementY(e.pointer)
      && r.current.mouseX == c.current.mouseX + MovementX(e.pointer)
      && r.current.mouseY == c.current.mouseY + MovementY(e.pointer)
    ensures e.Move? ==> r.current.leftButton == c.current.leftButton && r.current.rightButton == c.current.rightButton
    ensures e.KeyDown? ==> Key(r, e.code) && r.current == c.current && r.previous == c.previous
    ensures e.KeyUp? ==> !Key(r, e.code) && r.current == c.current && r.previous == c.previous
    ensures !e.KeyDown? && !e.KeyUp? ==> r.keys == c.keys
    ensures e.Tick? ==> r == Update(c)
  {
    match e
    case Move(p) => OnMouseMove(c, p)
    case Down(p) => OnMouseButton(c, p, true)
    case Up(p) => OnMouseButton(c, p, false)
    case KeyDown(k) => OnKey(c, k, true)
    case KeyUp(k) => OnKey(c, k, false)
    case Tick => Update(c)
  }

  /** The state after the events, oldest first. */
  function Run(c: Controller, evs: seq<Event>): Controller
    decreases |evs|
  {
    if evs == [] then c else Apply(Run(c, evs[..|evs| - 1]), evs[|evs| - 1])
  }

  // ----- reference definitions over the event history -----

  /** Sum of the horizontal movements of all pointer events. */
  function SumX(evs: seq<Event>): real
    decreases |evs|
  {
    if evs == [] then 0.0
    else
      var e := evs[|evs| - 1];
      SumX(evs[..|evs| - 1]) + (if e.IsPointer() then MovementX(e.pointer) else 0.0)
  }

  function SumY(evs: seq<Event>): real
    decreases |evs|
  {
    if evs == [] then 0.0
    else
      var e := evs[|evs| - 1];
      SumY(evs[..|evs| - 1]) + (if e.IsPointer() then MovementY(e.pointer) else 0.0)
  }

  /**
    The horizontal delta a frame reads: the movement of the last pointer event
    after the last `update()`, and 0 when there is none.
   */
  function SeenX(evs: seq<Event>): real
    decreases |evs|
  {
    if evs == [] then 0.0
    else
      var e := evs[|evs| - 1];
      if e.Tick? then 0.0
      else if e.IsPointer() then MovementX(e.pointer)
      else SeenX(evs[..|evs| - 1])
  }

  function SeenY(evs: seq<Event>): real
    decreases |evs|
  {
    if evs == [] then 0.0
    else
      var e := evs[|evs| - 1];
      if e.Tick? then 0.0
      else if e.IsPointer() then MovementY(e.pointer)
      else SeenY(evs[..|evs| - 1])
  }

  /** The flag of the most recent key event for `code`, if any. */
  function LastKeyEvent(evs: seq<Event>, code: int): Option<bool>
    decreases |evs|
  {
    if evs == [] then None
    else
      var e := evs[|evs| - 1];
      if (e.KeyDown? || e.KeyUp?) && e.code == code then Some(e.KeyDown?)
      else LastKeyEvent(evs[..|evs| - 1], code)
  }

  /** Whether the most recent down/up event of `button` was a press, if any. */
  function LastButtonEvent(evs: seq<Event>, button: int): Option<bool>
    decreases |evs|
  {
    if evs == [] then None
    else
      var e := evs[|evs| - 1];
      if (e.Down? || e.Up?) && e.pointer.button == button then Some(e.Down?)
      else LastButtonEvent(evs[..|evs| - 1], button)
  }

  // ----- properties -----

  /** `mouseX`/`mouseY` are the running sums of the movements of move, down and up events. */
  lemma {:induction false} MouseIsRunningSum(c: Controller, evs: seq<Event>)
    ensures Run(c, evs).current.mouseX == c.current.mouseX + SumX(evs)
    ensures Run(c, evs).current.mouseY == c.current.mouseY + SumY(evs)
    decreases |evs|
  {
    if evs != [] {
      MouseIsRunningSum(c, evs[..|evs| - 1]);
    }
  }

  /** Immediately after a pointer event the deltas are that event's movement. */
  lemma DeltaIsEventMovement(c: Controller, e: Event)
    requires e.IsPointer()
    ensures Apply(c, e).current.mouseXDelta == MovementX(e.pointer)
    ensures Apply(c, e).current.mouseYDelta == MovementY(e.pointer)
  {
  }

  /** Every state reachable from `Initial` keeps the baseline level with the coordinates. */
  lemma {:induction false} AlwaysSynced(evs: seq<Event>)
    ensures Synced(Run(Initial, evs))
    decreases |evs|
  {
    if evs != [] {
      AlwaysSynced(evs[..|evs| - 1]);
    }
  }

  /** Readiness: false until the first pointer event, true from then on. */
  lemma {:induction false} ReadyIffPointerEvent(evs: seq<Event>)
    ensures IsReady(Run(Initial, evs)) <==> exists i :: 0 <= i < |evs| && evs[i].IsPointer()
    decreases |evs|
  {
    if evs != [] {
      var init := evs[..|evs| - 1];
      ReadyIffPointerEvent(init);
      if exists i :: 0 <= i < |init| && init[i].IsPointer() {
        var i :| 0 <= i < |init| && init[i].IsPointer();
        assert evs[i] == init[i];
      }
      if exists i :: 0 <= i < |evs| && evs[i].IsPointer() {
        var i :| 0 <= i < |evs| && evs[i].IsPointer();
        if i < |init| {
          assert init[i] == evs[i];
        }
      }
    }
  }

  /**
    `update()` in a reachable ready state leaves both deltas 0 and `previous_`
    equal to `current_`; before readiness it changes nothing.
   */
  lemma {:induction false} UpdateZeroesDeltas(evs: seq<Event>)
    ensures var c := Run(Initial, evs);
      if IsReady(c) then
        Update(c).current.mouseXDelta == 0.0 && Update(c).current.mouseYDelta == 0.0
        && Update(c).previous == Some(Update(c).current)
      else
        Update(c) == c
  {
    AlwaysSynced(evs);
  }

  /**
    The delta the next frame's rotation reads is the last pointer event's
    movement since the previous `update()`, not a sum of them.
   */
  lemma {:induction false} FrameSeesLastMovement(evs: seq<Event>)
    ensures Run(Initial, evs).current.mouseXDelta == SeenX(evs)
    ensures Run(Initial, evs).current.mouseYDelta == SeenY(evs)
    decreases |evs|
  {
    if evs != [] {
      var init := evs[..|evs| - 1];
      FrameSeesLastMovement(init);
      AlwaysSynced(init);
    }
  }

  /** Two moves of 10 between frames: the coordinate advances by 20, the delta read is 10. */
  lemma TwoMovesAreNotSummed()
    ensures var e := PointerEvent(Some(10.0), None, None, None, 0);
      var c := Run(Update(Initial), [Move(e), Move(e)]);
      c.current.mouseX == 20.0 && c.current.mouseXDelta == 10.0
  {
    var e := PointerEvent(Some(10.0), None, None, None, 0);
    assert MovementX(e) == 10.0;
    var u := Update(Initial);
    assert u == Initial;
    assert [Move(e), Move(e)][..1] == [Move(e)];
    assert [Move(e)][..0] == [];
    assert Run(u, []) == u;
    var once := Run(u, [Move(e)]);
    assert once == Apply(Run(u, []), Move(e));
    assert once == OnMouseMove(u, e);
    assert once.current.mouseX == 10.0;
    assert Run(u, [Move(e), Move(e)]) == OnMouseMove(once, e);
  }

  /** `key(k)` reports the most recent key event for `k`, and a never-seen code is false. */
  lemma {:induction false} KeyIsLastKeyEvent(c: Controller, evs: seq<Event>, code: int)
    ensures Key(Run(c, evs), code) == match LastKeyEvent(evs, code)
      case None => Key(c, code)
      case Some(down) => down
    decreases |evs|
  {
    if evs != [] {
      KeyIsLastKeyEvent(c, evs[..|evs| - 1], code);
    }
  }

  /** From the initial state, a key reads true iff its last event was a keydown. */
  lemma {:induction false} KeyFromInitial(evs: seq<Event>, code: int)
    ensures Key(Run(Initial, evs), code) <==> LastKeyEvent(evs, code) == Some(true)
  {
    KeyIsLastKeyEvent(Initial, evs, code);
  }

  /** Repeated keydowns are idempotent. */
  lemma KeyDownIdempotent(c: Controller, code: int)
    ensures OnKey(OnKey(c, code, true), code, true) == OnKey(c, code, true)
  {
  }

  /** Button 0 drives `leftButton`, button 2 drives `rightButton`; other buttons touch neither. */
  lemma {:induction false} ButtonsFollowLastEvent(c: Controller, evs: seq<Event>)
    ensures Run(c, evs).current.leftButton == match LastButtonEvent(evs, 0)
      case None => c.current.leftButton
      case Some(down) => down
    ensures Run(c, evs).current.rightButton == match LastButtonEvent(evs, 2)
      case None => c.current.rightButton
      case Some(down) => down
    decreases |evs|
  {
    if evs != [] {
      ButtonsFollowLastEvent(c, evs[..|evs| - 1]);
    }
  }

  // ----- click and pointer-lock handling -----

  /** What the handlers ask of the page and of the camera. */
  datatype Request = RequestPointerLock | CheckInteraction | PointerLockChange

  /**
    `onClick_`: pointer lock is requested only when the zoom callback exists
    and reports "not zoomed"; `checkInteraction` is dispatched every time.
    `isZoomed` is the callback's answer, `None` when no callback was given.
   */
  function OnClick(isZoomed: Option<bool>): (r: seq<Request>)
    ensures |r| >= 1 && r[|r| - 1] == CheckInteraction
    ensures CheckInteraction !in r[..|r| - 1]
    ensures RequestPointerLock in r <==> isZoomed == Some(false)
    ensures PointerLockChange !in r
  {
    (if isZoomed.Some? && !isZoomed.value then [RequestPointerLock] else []) + [CheckInteraction]
  }

  /** The click listener of the main.js copy: it always requests pointer lock and nothing else. */
  function LegacyOnClick(): (r: seq<Request>)
    ensures RequestPointerLock in r
    ensures CheckInteraction !in r && PointerLockChange !in r
  {
    [RequestPointerLock]
  }

  /** The value of `document.pointerLockElement` (or its Firefox twin). */
  datatype LockElement = Null | Undefined | Element

  /** `onPointerLockChange`: forwards `pointerLockChange` only when a lock element is `null`. */
  function OnPointerLockChange(lockElement: LockElement, mozLockElement: LockElement): (r: seq<Request>)
    ensures r == [] || r == [PointerLockChange]
    ensures PointerLockChange in r <==> lockElement == Null || mozLockElement == Null
  {
    if lockElement == Null || mozLockElement == Null then [PointerLockChange] else []
  }
}
