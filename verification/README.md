# First-person walkthrough controller, in Dafny

A model of the first-person controller of a browser 3D portfolio walkthrough:

- the pointer and keyboard sampler `InputController` (src/InputController.js, and the older copy in main.js);
- the controller `FirstPersonCamera` (src/FirstPersonCamera.js): look, walk, head-bob, the zoom / escape-menu flags, reset, and the station display proximity rule;
- the older controller of main.js, with its push-out from the central obstacle box;
- the parts of the scene owner `FirstPersonCameraDemo` (src/FirstPersonCameraDemo.js) that the controller talks to: station display overlays, the control display, the display animation, and the list of interactable objects.

The model is functional. States are immutable datatypes over `real`. A frame, a click, a pointer-lock change, the reset button and every device event are each a pure step function. A session is a fold of steps over a sequence of events.

Modules:

| file | module | contents |
|---|---|---|
| wrappers.dfy | `Wrappers` | `Option` |
| geometry.dfy | `Geometry` | `Vec3`, yaw/pitch `Orientation`, `Clamp`, squared distances, `Pi` |
| input.dfy | `Input` | the sampler, its events and session properties, `onClick_`, `onPointerLockChange` |
| motion.dfy | `Motion` | per-frame pieces shared by both controllers: look step, WASD velocities, walk, room clamp, head-bob timer, obstacle push-out |
| camera.dfy | `Camera` | the src controller: zoom targets, interaction, menu, reset, station proximity, the frame, sessions and their invariant |
| legacy.dfy | `Legacy` | the main.js controller: frame with push-out, sessions |
| demo.dfy | `Demo` | overlays, control display, animation, interactable registration, and the controller wired to the scene owner |

Modelling choices:

- Math.PI is the literal 3.141592653589793.
- `sin` and `cos` of the yaw (`Heading`) and the head-bob y-offset are values the host supplies per frame. They are not computed.
- The walk direction is the quaternion-turned (0,0,-1) and (-1,0,0), written out as (-sin, 0, -cos) and (-cos, 0, sin).
- Orientations are kept as yaw/pitch pairs. A quaternion built from them is not modelled.
- Distances are compared squared: `d < r` is `d*d < r*r` for non-negative `r`.
- A raycast is an oracle: `Option<Hit(name, distance)>`, after the walk up to the registered ancestor. At the scene-owner level a hit counts only if its name is in the interactable list.
- DOM writes, pointer-lock requests and the custom events the controller dispatches are returned as `Effect` values.
- `resetView` runs at once instead of in the next animation frame.
- The back button (`resetView` element) has its own click listener, and the click then bubbles to the document, where the sampler's `onClick_` runs `checkInteraction` (src/FirstPersonCamera.js:66-67, src/InputController.js:26, 41-46). The model's back-button event is that click followed by the reset, and carries the centre ray's hit like any click. The ray always starts from the screen centre, since `mouse_` is never updated (src/FirstPersonCamera.js:58, 254).
- The constructor's `this.isInMenu - false` (src/FirstPersonCamera.js:45) leaves the flag undefined. That reads as false, so the model starts it at false.
- `resetView` outside the menu with no saved pose reaches `translation_.copy(undefined)` and throws before any DOM write or flag change. The model leaves the state unchanged and emits nothing.

Behaviour the model states as written:

- The sampler's delta. Every move event copies `current_` into `previous_` (src/InputController.js:67), so the next `update()` computes a zero delta, and the rotation step reads only the last event's movement before the frame, not the sum of the moves (`Input.FrameSeesLastMovement`, `Input.TwoMovesAreNotSummed`).
- Zoom re-entry. `checkInteraction` does not test `isZoomedIn`. Once a frame has run while zoomed, `camera_` holds the inspection pose (`zoomToObject` copies `camera_`, which only `updateCamera_` refreshes: src/FirstPersonCamera.js:116-118, 335-336). A click after that frame zooms again and overwrites the saved pose with the inspection pose, and the reset then returns to the inspection spot (`Camera.SecondZoomLosesSavedPose`).
- The back button. Its click also runs `checkInteraction`. When the centre ray meets a target in range, the button saves the pose the camera shows and resets to it. After a frame at an inspection pose, that is the inspection spot itself at eye height, and the pose before the zoom is lost (`Camera.BackButtonReturnsToView`, `Camera.BackButtonStaysAtInspection`). The `r` key has no click and restores the pose before the zoom (`Camera.ZoomThenResetRestoresPose`).
- The control display's first placement. In `addControlDisplay` the inner `const controlsDisplay` shadows the outer `let`, so the creating call skips the position and rotation copy (`Demo.AddControlDisplay`).
- The main.js start point. The controller starts at (0, 2.5, 0), strictly inside the obstacle box. The first frame pushes it to the minX face (`Legacy.FirstFramePushesToMinX`).
- `isAnimating` is never set true, so the station rule always runs outside a zoom (`Camera.Consistent`).

## Model

| member | source | states |
|---|---|---|
| Geometry.Clamp | src/FirstPersonCamera.js:13-15 | with a <= b the result lies in [a, b]; a value already in range is returned unchanged; below a gives a, above b gives b |
| Input.Movement | src/InputController.js:57-58 | the `||` chain: a present non-zero standard field wins; a non-zero result comes from one of the two fields; both missing gives 0 |
| Input.OnMouseMove | src/InputController.js:55-68 | the position advances by the event's movement, the delta is that movement, `previous_` becomes a copy of `current_`, and buttons and keys are untouched |
| Input.SetButton | src/InputController.js:73-82 | button 0 sets the left flag, button 2 the right flag, and any other button changes nothing |
| Input.OnMouseButton | src/InputController.js:70-98 | a down or up event advances the position by its movement and sets both deltas to it; button 0 sets the left flag to the direction, button 2 the right flag, and any other button leaves both; `previous_` is the new sample with the flags from before the event; keys are untouched |
| Input.OnKey | src/InputController.js:100-106 | after a key event `key(code)` equals the event's direction, and every other code is unchanged |
| Input.Update | src/InputController.js:116-123 | before readiness nothing changes; after it the baseline equals the current sample; from a synced state both deltas become 0; positions, buttons and keys are kept |
| Input.MouseIsRunningSum | src/InputController.js:61-62 | over any event sequence the mouse position is the start plus the running sum of the movements, with a missing field counting 0 |
| Input.DeltaIsEventMovement | src/InputController.js:63-64 | right after a pointer event both deltas equal that event's movement |
| Input.AlwaysSynced | src/InputController.js:67 | every reachable sampler has a baseline equal to its current position, or no baseline and zero deltas |
| Input.ReadyIffPointerEvent | src/InputController.js:112-114 | `isReady()` holds exactly when some move, down or up event has happened |
| Input.UpdateZeroesDeltas | src/InputController.js:116-123 | in a reachable ready state `update()` leaves both deltas 0 and the baseline equal to the sample; before readiness it changes nothing |
| Input.FrameSeesLastMovement | src/InputController.js:55-68 | the delta a frame reads is the last pointer event's movement since the previous update (reference `SeenX`/`SeenY`), not their sum |
| Input.TwoMovesAreNotSummed | src/InputController.js:63-64 | two moves of 10 advance the position by 20 but leave a delta of 10 |
| Input.KeyIsLastKeyEvent | src/InputController.js:100-110 | `key(k)` is the direction of the most recent key event for `k`, or the starting value when there is none |
| Input.KeyFromInitial | src/InputController.js:108-110 | from construction `key(k)` holds iff the last key event for `k` was a keydown; a never-seen code is false |
| Input.KeyDownIdempotent | src/InputController.js:100-102 | a repeated keydown changes nothing |
| Input.ButtonsFollowLastEvent | src/InputController.js:70-98 | each button flag equals the direction of the last down/up event for that button, or its starting value |
| Input.OnClick | src/InputController.js:41-46 | a pointer-lock request happens iff the zoom callback says not zoomed, and `checkInteraction` is dispatched exactly once, last |
| Input.LegacyOnClick | main.js:44-48 | the older sampler's click only requests the pointer lock |
| Input.Apply | src/InputController.js:21-25 | a pointer event makes the sampler ready, sets the deltas to its movement and advances the position; a move keeps the buttons; a keydown or keyup sets that key and leaves the sample; only key events touch the keys; a frame tick is `update()` |
| Input.OnPointerLockChange | src/InputController.js:48-53 | `pointerLockChange` is forwarded, once, iff either lock element is null |
| Motion.Turn | src/FirstPersonCamera.js:196-216 | the pitch always ends in [-PI/3, PI/3] and is the unclamped value when that is in range; the yaw moves against the sign of the x delta and is unchanged for a zero delta |
| Motion.YawIsUnbounded | src/FirstPersonCamera.js:202 | any target yaw is reached by one suitable mouse movement |
| Motion.Velocity | src/FirstPersonCamera.js:155-156 | +1 for the positive key alone, -1 for the negative key alone, 0 for both or neither |
| Motion.MovingIffUnbalancedPair | src/FirstPersonCamera.js:172-174 | the bob switch condition holds iff exactly one key of some pair is held; opposing keys cancel |
| Motion.Walk | src/FirstPersonCamera.js:158-170 | the walk never changes y, and with no keys or zero time it changes nothing |
| Motion.RoomClamp | src/FirstPersonCamera.js:176-189 | after the four ifs x and z lie in [-14.5, 14.5] and equal `clamp` per axis; an in-range coordinate and y are untouched |
| Motion.NextStepTime | src/FirstPersonCamera.js:138-140 | the step boundary lies strictly after the timer and at most PI/10 plus the bias beyond it |
| Motion.AdvanceBob | main.js:195-206 | an inactive bob is unchanged; an active timer never passes the boundary, never decreases for dt >= 0, and deactivates exactly when it reaches the boundary |
| Motion.BobTimerMonotone | main.js:200 | for dt >= 0 the timer never decreases, active or not |
| Motion.FirstNearestUnique | main.js:257-272 | exactly one face is the first of minimal distance in the order minX, maxX, minZ, maxZ |
| Motion.PushOut | main.js:245-273 | the result is never strictly inside the box; a point outside or on the boundary is unchanged; an inside point moves onto its first nearest face, changing exactly one of x and z and never y; room containment is preserved |
| Motion.RoomThenBox | main.js:230-273 | room pass then box pass leaves the point in the room and out of the box, with y kept |
| Camera.ZoomToObject | src/FirstPersonCamera.js:334-434 | the current pose is saved and the zoom flag set; a known target snaps to its inspection pose and shows its content; another name keeps the pose and shows nothing; at most one content is shown |
| Camera.InspectionCoordinates | src/FirstPersonCamera.js:345-432 | jbox, computer, scroll, tv1 and tv2 snap to (14.85,3,-14.85), (17,3,17), (-14,3,14), (-14.5,2.5,-18) and (-14.5,6.5,-18); tv3 keeps the translation |
| Camera.CheckInteraction | src/FirstPersonCamera.js:253-268 | a zoom happens iff there is a hit closer than 15 and the menu is closed; otherwise nothing changes |
| Camera.PointerLockChange | src/FirstPersonCamera.js:314-328 | outside a zoom both flags become true and the escape menu shows; while zoomed nothing changes |
| Camera.ResetView | src/FirstPersonCamera.js:504-527 | both flags end false; outside the menu the saved pose returns with y = 2.5; in the menu the pose stays; with nothing saved outside the menu the state is left as it was |
| Camera.StationNamesAreDistinct | src/FirstPersonCamera.js:272-299 | the five stations are named computer, jbox, scroll, tv1 and tv2, one name each, and every such name belongs to a station |
| Camera.CheckDistanceToTV | src/FirstPersonCamera.js:270-301 | outside a zoom and an animation each of the five stations gets exactly one of show (closer than 10 to its centre) or remove; tv1 and tv2 always move together; otherwise nothing is dispatched |
| Camera.RotateStep | src/FirstPersonCamera.js:196-216 | while zoomed the look and rotation are unchanged; otherwise the look is one `Turn` by the sampler's deltas, so the yaw accumulates unclamped and the pitch is clamped, and the rotation follows the angles |
| Camera.BobStepGuarded | src/FirstPersonCamera.js:134-148 | a zoomed frame leaves the bob untouched; otherwise it advances as `AdvanceBob` |
| Camera.TranslateStep | src/FirstPersonCamera.js:154-190 | the result is in the room with y kept; with moving keys it is the room clamp of the walk by the two velocities and the bob is switched on; with no movement it is only the room clamp and the bob is untouched |
| Camera.Update | src/FirstPersonCamera.js:85-110 | outside a zoom the look is one `Turn` by the deltas and the translation is the room clamp of the walk by the held keys, with y never clamped; while zoomed nothing moves unless `r` is held; `r` while zoomed clears both flags and, outside the menu, restores the saved pose at eye height and its rotation, while in the menu the pose stays; the prompt shows iff `promptInteraction`'s test holds; the escape and control hints follow the zoom flag and the frame count; outside a zoom each station display is requested iff the camera is near it |
| Camera.ClickStep | src/InputController.js:41-46 | a click leaves the controller as `checkInteraction` does, requests the pointer lock iff not zoomed, and shows the same contents |
| Camera.Step | src/FirstPersonCamera.js:63-67 | a usable frame is `update`, a zero-sized one changes nothing; a click is `onClick_` then `checkInteraction`; the back button is that click followed by the reset; a lock change reaches `pointerLockChange` iff a lock element is null; a device event sets the sampler to its handler's result and changes nothing else |
| Camera.PromptMatchesClick | src/FirstPersonCamera.js:224-247 | in a reachable state the click prompt shows iff the camera is not zoomed and a click would zoom; while zoomed it never shows |
| Camera.BackButtonReturnsToView | src/FirstPersonCamera.js:66-67 | while zoomed with an engaging centre ray, the back button saves the pose the camera shows and restores it at eye height; without one it is the plain reset |
| Camera.BackButtonStaysAtInspection | src/FirstPersonCamera.js:504-512 | zoom, one frame, then the back button with the ray still on the target leaves the camera at the inspection spot at eye height |
| Camera.StepKeepsConsistent | src/FirstPersonCamera.js:314-328 | every step keeps the invariant: the menu implies zoomed, a zoom outside the menu has a saved pose, the pitch is in range |
| Camera.ReachableIsConsistent | src/FirstPersonCamera.js:42-71 | every state reachable from construction satisfies that invariant |
| Camera.PitchAlwaysInRange | src/FirstPersonCamera.js:203 | over any session the pitch stays in [-PI/3, PI/3] |
| Camera.ResetAlwaysClearsFlags | src/FirstPersonCamera.js:524-525 | in every reachable state `resetView` ends with both flags false |
| Camera.ZoomThenResetRestoresPose | src/FirstPersonCamera.js:504-512 | zoom then reset returns to the pose before the zoom, at eye height 2.5 |
| Camera.SecondZoomLosesSavedPose | src/FirstPersonCamera.js:334-336 | a second zoom after a frame saves the inspection pose, so the reset returns there |
| Camera.LockLossWhileZoomedIsIgnored | src/FirstPersonCamera.js:314-318 | losing the lock while zoomed on an object does not open the menu |
| Camera.MenuBlocksInteraction | src/FirstPersonCamera.js:264 | in the menu a click never zooms |
| Camera.JukeboxScenario | src/FirstPersonCamera.js:346-359 | a jukebox hit at distance 10 zooms to (14.85,3,-14.85) and shows its content exactly once; at distance 20 nothing happens |
| Legacy.RotateStep | main.js:276-293 | the look step is one `Turn` by the sampler's deltas with no zoom guard, so the yaw is unclamped and the pitch stays in range |
| Legacy.TranslateStep | main.js:208-274 | walk, room pass and box pass: the result is in the room, out of the box, with y kept; moving keys switch the bob on |
| Legacy.Update | main.js:159-166 | after a frame the look is one `Turn`, the translation is the box push-out of the room clamp of the walk, the camera is contained, and the sampler is re-baselined |
| Legacy.Step | main.js:35-39 | a usable frame is `update`, a zero-sized one and a tick outside a frame change nothing, and a device event only sets the sampler to its handler's result |
| Legacy.StartsInsideBox | main.js:149 | the start point (0, 2.5, 0) is strictly inside the obstacle box |
| Legacy.FirstFramePushesToMinX | main.js:257-262 | from the start, the first frame moves to (-5, 2.5, 0): all faces tie and minX is tried first |
| Legacy.AlwaysContained | main.js:208-274 | over any session the pitch is in range; once a frame has run the camera is in the room and out of the box; before that it is at the start |
| Demo.DisplayNameInjective | src/FirstPersonCameraDemo.js:855 | different stations have different display mesh names |
| Demo.CheckTVDisplay | src/FirstPersonCameraDemo.js:838-985 | a known station's display is added, once; any other name changes nothing |
| Demo.CheckTVRemoveDisplay | src/FirstPersonCameraDemo.js:1025-1066 | a known station's display is removed if present; any other name changes nothing |
| Demo.ShowIsIdempotent | src/FirstPersonCameraDemo.js:869-870 | showing twice equals showing once, and the repeat starts no animation |
| Demo.ShowThenRemoveRestores | src/FirstPersonCameraDemo.js:1025-1066 | for a known station, show then remove gives back the original overlays iff the display was absent |
| Demo.DispatchAppend | src/FirstPersonCameraDemo.js:40-41 | handling two batches of events in turn equals handling their concatenation |
| Demo.DispatchFollowsLastToggle | src/FirstPersonCameraDemo.js:40-41 | after a batch a station's display is present iff the last request for it was a show, or it was present and there was no request |
| Demo.DispatchKeepsOtherNames | src/FirstPersonCameraDemo.js:982-984 | a name that is no station's display is never added or removed |
| Demo.LastToggleOfOneKind | src/FirstPersonCamera.js:270-301 | with only shows (or only removes) for a station in a batch, the last request is a show (or a remove) |
| Demo.StationPassSetsDisplays | src/FirstPersonCamera.js:270-301 | after one station pass outside a zoom, each display is present iff the camera is near its station |
| Demo.FrameSyncsStationDisplays | src/FirstPersonCamera.js:94 | after a frame outside a zoom, each display is present iff the camera is near its station, and other names are untouched |
| Demo.AddControlDisplay | src/FirstPersonCameraDemo.js:1068-1147 | the creating call makes a fresh display at the origin, scale 4, ignoring its arguments; a later call copies position and rotation and keeps the scale |
| Demo.RemoveControlDisplay | src/FirstPersonCameraDemo.js:1149-1156 | afterwards there is no control display, whether or not there was one |
| Demo.SecondAddPlaces | src/FirstPersonCameraDemo.js:1102-1115 | only the second add places the display where asked |
| Demo.Progress | src/FirstPersonCameraDemo.js:991-992 | progress is at most 1, non-negative for non-negative elapsed time, equals 1 iff the duration has passed, and is elapsed/500 before that |
| Demo.DisplayScale | src/FirstPersonCameraDemo.js:995 | the scale is the initial scale at progress 0 and the target at 1, and lies between them per axis in between |
| Demo.AnimationFrames | src/FirstPersonCameraDemo.js:987-1003 | callbacks run while progress is below 1; the chain stops right after the first callback at progress 1, leaving the target scale; no callback runs after a timestamp past the duration |
| Demo.PushesArePrefix | src/FirstPersonCameraDemo.js:416-450 | a failed load only cuts its block's pushes short: they are a prefix of the pushes with no failure |
| Demo.FailuresOnlyDrop | src/FirstPersonCameraDemo.js:416-658 | whatever fails, every registered name is one that full registration also has |
| Demo.FullRegistration | src/FirstPersonCameraDemo.js:416-658 | with every load succeeding the list is computer, scroll, tv1, tv2, jbox in that order |
| Demo.RegisteredInteractables | src/FirstPersonCameraDemo.js:523-615 | whatever fails, only those five names are registered, and tv3 to tv8 never are |
| Demo.Step | src/FirstPersonCameraDemo.js:40-44 | a controller event reaches the controller with raycasts resolved against the current list, and the overlays become the dispatch of its effects; a loaded model is appended to the shared list iff it is interactable; the control display events add and remove it |
| Demo.Resolve | src/FirstPersonCamera.js:253-262 | a hit counts iff its object is in the interactable list |
| Demo.NoTargetsNoZoom | src/FirstPersonCameraDemo.js:52-56 | with nothing registered a click leaves the controller unchanged, zoomed or not |
| Demo.LaterPushIsVisible | src/FirstPersonCameraDemo.js:52-56 | a target pushed after the list is handed over is seen by the next click, which zooms to it |

## Left out

- Rendering, lights, materials, textures and the placement of every loaded model. These are configuration plus calls into the 3D library.
- Asset loading itself. A load is modelled only as success or failure per name, through the `failed` set of the registration functions.
- Quaternion composition and `lookAt`. Rotations are kept as yaw/pitch angles, and the TV inspection pitch as PI/5.
- `sin`/`cos`: the yaw's sine and cosine and the head-bob offset `sin(timer*10)*0.3` are host inputs.
- The raycaster and the walk up to the registered ancestor. They are replaced by an oracle hit, and the ray-box `lookAt` of main.js:168-193 is left out.
- DOM style writes, `displayContent`, the pointer-lock API, `requestAnimationFrame` deferral (`resetView` is immediate, so the animation frame the demo loop runs between a back-button click and the deferred reset is not modelled), `location.reload` in `exitSimulation`, and the escape-key branch that does nothing. These become `Effect` values or booleans.
- `updateControlDisplay` reads `controlsDisplay`, a name src/FirstPersonCamera.js never declares (line 473). The model assumes it resolves to the page element with that id. If it did not, every `update()` would throw after `checkDistanceToTV`, and neither the `r` reset nor the frame count would run.
- The window size: a frame with a zero-sized window is ignored, as the look step divides by it.
- music.js, tailwind.config.js and src/main.js (audio wrapper, styling, start button) are not part of this model.
- The main.js demo class (main.js:304-1093): scene set-up only.
- Floating point: reals are exact, so rounding, NaN and the `===` float comparisons (head-bob boundary, push-out switch) behave ideally.
- Motion.Walk: states only that y is kept and that no keys or no time means no movement; the exact step size is left to the body, as the direction depends on the supplied sine and cosine.
- Camera.StepKeepsConsistent: the invariant does not include `frames`, the bob timer or the saved pose's contents.
