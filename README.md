# A verified model of the logic inside a gallery of 3D browser demos

The repository is a React gallery of Three.js scenes. Most of it
describes scenes for a rendering engine and a physics engine. This project
models the few pieces of sequential logic in those scene files, and proves
what each piece promises:

- **The GLSL `#include` preprocessor of the raging-sea scene**
  (`shader_includes.dfy`). It finds `#include <path>` directives in the
  original shader, left to right. It normalises each path to a key and
  splices in the table entry after expanding that entry recursively. Each
  key is expanded once per call and memoised. Unknown keys are deleted.
  - `ProcessShader` keeps the source's `while` loop, its memo map and its
    recursive call.
  - It is proved equal to the function `Expand`.
  - The lemmas are all about `Expand`.
- **The gallery's scene controller** (`scene_controller.dfy`). It holds the
  closed list of nine scene names and a total registry from name to
  component. `handleModelChange` unmounts the current scene, waits 200 ms,
  then mounts the chosen one under the key `scene-<Date.now()>`.
  - In `src/App.tsx` this controller is commented out (lines 1-208).
  - The live `App` (lines 209-215) renders only the morphing scene.
  - The model is of the commented-out controller.
  - The `Controller` class has the component's state fields.
  - Its methods are proved equal to the step functions.
  - A lemma over event traces states that every mounted instance gets a key
    no earlier instance had.
- **Morph targets of the morphing-particles scene** (`morph_targets.dfy`):
  - collecting the mesh position attributes;
  - `maxCount`;
  - the `for` loops that pad each buffer into a new array and fill the size
    array;
  - the `morph` guard, whose commit happens on tween completion;
  - the morph buttons.
- **The physics game's bookkeeping** (`physics_game.dfy`):
  - the geometry, half-height and collider tables;
  - the obstacle generator;
  - the high-score clock's tick and check intervals;
  - the player's bounce counter and damping rule;
  - the braking rule.
- **Keyboard state** of the animated car model (`animated_model.dfy`) and
  of the spline car scene (`car_scene.dfy`). This covers the key reducers and
  listeners, the wheel filter, the frame updates and the impulse.
- **Quality rules of the terrain scene** (`terrain.dfy`): GPU tier to mesh
  resolution, performance setting to pixel ratio, and the frame-skipping
  `uTime` update.

`common.dfy` holds `Option`, `Result`, the decimal rendering of a natural
number (with its injectivity) and the `Math.floor(Math.random() * n)` index.

How the foreign inputs are handled:

- Randomness becomes a sequence of draws in [0, 1), passed as arguments.
- `Date.now()` becomes a `now` argument.
- The `setTimeout`, `setInterval` and gsap callbacks become explicit events
  (`MountTimer`, `Tick`, `Check`, `OnComplete`).
- What the physics engine reports becomes arguments: body heights,
  collision partners and velocities.
- Numbers are exact `real`s and `nat`s.

Three behaviours of the code that a reader might expect to be otherwise:

- **Instance keys.** The instance key is `scene-` followed by
  `Date.now()`. It is unique only while the clock never goes back
  (`KeysFresh`).
- **The menu during a transition.** While a scene loads, the menu stays
  visible and its buttons are disabled (`ViewsExclusive`,
  `SelectThenBack`).
- **Include cycles.** The preprocessor has no cycle guard. A table entry
  that leads back to itself recurses until the JavaScript stack overflows.
  The model returns `Err(IncludeCycle(key))` at the first directive that
  would re-enter a key already being expanded (`SelfIncludeIsCycle`).
  That answer only comes where the source never finishes: the shader
  leads to `key` and `key`'s entry leads back to `key`
  (`CycleAnswerIsCycle`). This keeps `Expand` total without fuel. Every
  other answer is the one the source computes when its recursion stays
  within the engine's stack.

## Model

| member | source | states |
|---|---|---|
| `ShaderIncludes.ShaderIncludeTable` | src/kuch_to_banega/raging_sea/raging_sea.tsx:14-19 | the shipped table has exactly the four include file names as keys, each bound to its file's text |
| `ShaderIncludes.SpaceRun` | src/kuch_to_banega/raging_sea/raging_sea.tsx:25 | `\s+` consumes a maximal run of JavaScript white space |
| `ShaderIncludes.WordRun` | src/kuch_to_banega/raging_sea/raging_sea.tsx:25 | `[^\s]+` consumes a maximal run of non-space characters |
| `ShaderIncludes.MatchAt` | src/kuch_to_banega/raging_sea/raging_sea.tsx:25 | a match is the substring from `#include` to the end of its path, is longer than the word, and starts with it |
| `ShaderIncludes.NextMatch` | src/kuch_to_banega/raging_sea/raging_sea.tsx:25-30 | `exec` from `lastIndex` returns a position at or after it where the pattern matches, with the text matched there, or none when it matches nowhere after it |
| `ShaderIncludes.NextMatchLeftmost` | src/kuch_to_banega/raging_sea/raging_sea.tsx:25-30 | the match `exec` returns is the leftmost one: the pattern matches nowhere between `lastIndex` and it |
| `ShaderIncludes.StripQuotes` | src/kuch_to_banega/raging_sea/raging_sea.tsx:31 | removing quotes and angle brackets leaves none of them and never lengthens the path |
| `ShaderIncludes.LastSegment` | src/kuch_to_banega/raging_sea/raging_sea.tsx:32 | the key is a suffix of the path with no slash, preceded by a slash unless it is the whole path |
| `ShaderIncludes.KeyOfQuotedName` | src/kuch_to_banega/raging_sea/raging_sea.tsx:31-32 | a bare file name in any surrounding quotes or brackets has itself as key |
| `ShaderIncludes.KeyOfQuotedPath` | src/kuch_to_banega/raging_sea/raging_sea.tsx:31-32 | a quoted path with a directory has its last segment as key |
| `ShaderIncludes.IndexOf` | src/kuch_to_banega/raging_sea/raging_sea.tsx:45 | the search finds the first occurrence of the pattern at or after the start, or reports that there is none |
| `ShaderIncludes.IndexOfAt` | src/kuch_to_banega/raging_sea/raging_sea.tsx:45 | an occurrence with none before it, from the start on, is the one the search finds |
| `ShaderIncludes.ReplaceFirstAt` | src/kuch_to_banega/raging_sea/raging_sea.tsx:45-48 | `replace` with a string pattern puts the replacement in place of the first occurrence and keeps everything around it |
| `ShaderIncludes.ReplaceFirstAbsent` | src/kuch_to_banega/raging_sea/raging_sea.tsx:45-48 | `replace` of a pattern that does not occur leaves the text unchanged |
| `ShaderIncludes.ProcessShader` | src/kuch_to_banega/raging_sea/raging_sea.tsx:21-53 | the loop over matches, the memo map and the recursive call compute the expansion `Expand`, cycle answer included |
| `ShaderIncludes.NoDirectiveUnchanged` | src/kuch_to_banega/raging_sea/raging_sea.tsx:26-52 | a shader in which the pattern matches nowhere is returned unchanged |
| `ShaderIncludes.MatchTextIsDirective` | src/kuch_to_banega/raging_sea/raging_sea.tsx:25-45 | wherever the text of a match occurs, the pattern matches there too |
| `ShaderIncludes.NoEarlierOccurrence` | src/kuch_to_banega/raging_sea/raging_sea.tsx:30-45 | the first match's text occurs nowhere before the first match |
| `ShaderIncludes.FirstOccurrence` | src/kuch_to_banega/raging_sea/raging_sea.tsx:30-45 | the first match's text first occurs where that match is, so the first replacement lands on the directive itself |
| `ShaderIncludes.FirstMatchSplice` | src/kuch_to_banega/raging_sea/raging_sea.tsx:45 | replacing the first match's text splices the replacement in exactly at the directive |
| `ShaderIncludes.FirstMatchCut` | src/kuch_to_banega/raging_sea/raging_sea.tsx:48 | replacing the first match's text by nothing cuts exactly the directive out |
| `ShaderIncludes.FirstKnownDirective` | src/kuch_to_banega/raging_sea/raging_sea.tsx:34-45 | a first directive with a table key is replaced in place by that entry, expanded with the same table, and the scan goes on after it with the expansion memoised |
| `ShaderIncludes.FirstUnknownDirective` | src/kuch_to_banega/raging_sea/raging_sea.tsx:46-48 | a first directive whose key is not in the table is cut out in place and the scan goes on after it |
| `ShaderIncludes.SingleKnownInclude` | src/kuch_to_banega/raging_sea/raging_sea.tsx:34-45 | a shader with one known directive becomes the text before it, the expanded entry, and the text after it |
| `ShaderIncludes.SingleUnknownInclude` | src/kuch_to_banega/raging_sea/raging_sea.tsx:46-48 | a shader with one unknown directive becomes the text before it followed by the text after it |
| `ShaderIncludes.FirstCyclicDirective` | src/kuch_to_banega/raging_sea/raging_sea.tsx:34-39 | a first directive whose key is already being expanded further up is the cycle answer |
| `ShaderIncludes.FirstDirectiveFails` | src/kuch_to_banega/raging_sea/raging_sea.tsx:36-40 | a failure inside the expansion of the first directive's entry is the failure of the whole expansion |
| `ShaderIncludes.SelfIncludeIsCycle` | src/kuch_to_banega/raging_sea/raging_sea.tsx:34-40 | an entry whose first directive includes itself makes any shader that reaches it first give the cycle answer |
| `ShaderIncludes.CycleIsReal` | src/kuch_to_banega/raging_sea/raging_sea.tsx:26-50 | a cycle answer names a key the shader leads to through its directives and the table, which is either being expanded further up the recursion or leads back to itself |
| `ShaderIncludes.CycleAnswerIsCycle` | src/kuch_to_banega/raging_sea/raging_sea.tsx:21-53 | at the top level, a cycle answer names a key the shader leads to and whose entry leads back to it, so the source's recursion there never ends |
| `ShaderIncludes.MemoSoundExtend` | src/kuch_to_banega/raging_sea/raging_sea.tsx:40 | recording a fresh expansion keeps every memo entry equal to its key's expansion |
| `ShaderIncludes.MemoTransparentFrom` | src/kuch_to_banega/raging_sea/raging_sea.tsx:29-50 | from any point of the loop, with a sound memo map, the memoising scan gives the same result as a scan that expands each directive's entry afresh |
| `ShaderIncludes.MemoTransparent` | src/kuch_to_banega/raging_sea/raging_sea.tsx:29-45 | processing each key once and reusing the memoised result gives exactly the expansion without memoisation |
| `SceneController.MenuIndex` | src/App.tsx:20-30 | every scene has a position in the menu list |
| `SceneController.Label` | src/App.tsx:20-30 | every scene's label is one of the nine menu labels |
| `SceneController.ParseLabel` | src/App.tsx:20-32 | a label reads back as the scene whose label it is, and only the nine menu labels read back at all |
| `SceneController.LabelRoundTrip` | src/App.tsx:20-32 | every scene reads back from its label and appears in the menu exactly once, at its own position |
| `SceneController.ModulesDistinct` | src/App.tsx:4-19 | different scene components are imported from different module paths |
| `SceneController.RegistryInjective` | src/App.tsx:34-47 | the registry is total, and different scenes load different components from different modules |
| `SceneController.InstanceKey` | src/App.tsx:88 | every instance key begins with `scene-` and is longer than that prefix |
| `SceneController.Initial` | src/App.tsx:50-54 | on the first render no scene is mounted, no transition runs, the page has not faded in, and the invariant holds |
| `SceneController.Change` | src/App.tsx:65-82 | while a transition runs, requests change nothing; going back clears the scene at once without a transition; a selection clears the scene, starts a transition and schedules its mount 200 ms later; the invariant is kept |
| `SceneController.Mount` | src/App.tsx:86-90 | the deferred step mounts the scheduled scene under the key of the current time and ends the transition |
| `SceneController.BecomeReady` | src/App.tsx:56-60 | the entrance timer sets the ready flag and nothing else |
| `SceneController.ModelComponent` | src/App.tsx:93 | a component is rendered exactly when the Back button is shown, and it is the registry's component for the mounted scene |
| `SceneController.ViewsExclusive` | src/App.tsx:122-151 | the menu and the scene frame are never both shown, and during a transition it is the menu, with its buttons disabled |
| `SceneController.SecondRequestDropped` | src/App.tsx:65-82 | a request made while a selection's mount is pending is dropped |
| `SceneController.SelectThenBack` | src/App.tsx:78-93 | select then mount then back: disabled menu, then the chosen scene's component, then the enabled menu again |
| `SceneController.Step` | src/App.tsx:56-91 | every event keeps the invariant |
| `SceneController.MountTimesIncrease` | src/App.tsx:78-90 | with a clock that never goes back, scenes are mounted at strictly increasing times |
| `SceneController.MountedKeys` | src/App.tsx:88 | one key per mount along a trace |
| `SceneController.KeysFresh` | src/App.tsx:86-90 | from the first render, every mounted instance gets a key that no earlier instance had |
| `SceneController.Controller.constructor` | src/App.tsx:50-54 | the component's state starts as `Initial` |
| `SceneController.Controller.HandleModelChange` | src/App.tsx:65-91 | the handler updates the state fields as `Change` does |
| `SceneController.Controller.FireMountTimer` | src/App.tsx:86-90 | the 200 ms callback updates the state fields as `Mount` does |
| `SceneController.Controller.FireReadyTimer` | src/App.tsx:56-60 | the 100 ms callback sets the ready flag |
| `MorphTargets.MeshPositions` | src/kuch_to_banega/morphing/morphing.tsx:33-43 | every collected attribute is the position attribute of a mesh in the scene, and every mesh's position attribute is collected; all objects meshes with positions give one attribute each, none gives none |
| `MorphTargets.CollectPositions` | src/kuch_to_banega/morphing/morphing.tsx:33-43 | the traversal collects exactly the mesh position attributes, in traversal order |
| `MorphTargets.MaxCount` | src/kuch_to_banega/morphing/morphing.tsx:45-48 | the maximum vertex count is at least every mesh's count and is some mesh's count; with no mesh there is no maximum, and the error path is taken |
| `MorphTargets.CopiedVertex` | src/kuch_to_banega/morphing/morphing.tsx:58 | the vertex copied into an extra slot is one of the source's own vertices |
| `MorphTargets.PadAttribute` | src/kuch_to_banega/morphing/morphing.tsx:50-61 | the padded buffer has `maxCount * 3` entries; the source's own entries are copied unchanged; each extra triple is the triple of the vertex its draw picks; with an empty source every entry stays 0 |
| `MorphTargets.PadAll` | src/kuch_to_banega/morphing/morphing.tsx:50-64 | one new buffer per attribute, in order, pairwise distinct, each `maxCount * 3` long, holding its attribute's own entries, then in each extra slot a copy of the source vertex that slot's draw picks, or zeros for an empty source |
| `MorphTargets.SizesArray` | src/kuch_to_banega/morphing/morphing.tsx:66-70 | the size array has `maxCount` entries, each its own draw, in [0, 1) |
| `MorphTargets.InitialView` | src/kuch_to_banega/morphing/morphing.tsx:103-105 | both attributes are bound to buffer 0, the committed index is 0 and no tween runs |
| `MorphTargets.Morph` | src/kuch_to_banega/morphing/morphing.tsx:143-162 | an out-of-range or current index changes nothing; otherwise position shows the current buffer, target the next, progress is 0, the committed index is unchanged and a tween to the next index starts; indices stay in range |
| `MorphTargets.Complete` | src/kuch_to_banega/morphing/morphing.tsx:154-160 | when the oldest tween completes, its target becomes the committed index and progress reaches 1 |
| `MorphTargets.MorphCommits` | src/kuch_to_banega/morphing/morphing.tsx:143-161 | a morph started with nothing running commits its target once it completes |
| `MorphTargets.Morpher.constructor` | src/kuch_to_banega/morphing/morphing.tsx:18 | the morph state starts as `InitialView` |
| `MorphTargets.Morpher.DoMorph` | src/kuch_to_banega/morphing/morphing.tsx:143-162 | `morph` updates the fields as `Morph` does |
| `MorphTargets.Morpher.OnComplete` | src/kuch_to_banega/morphing/morphing.tsx:158-160 | the completion callback updates the fields as `Complete` does |
| `MorphTargets.MorphButtons` | src/kuch_to_banega/morphing/morphing.tsx:191-197 | one button per padded index, labelled `morphTo_<i>` and morphing to `i`, and no other button |
| `PhysicsGame.GetHalfHeight` | src/kuch_to_banega/game/canvas.tsx:60-73 | the half-height of shapes 0 to 3 is the scale times the half vertical extent of the shared geometry; any other index gives the scale |
| `PhysicsGame.GetColliderType` | src/kuch_to_banega/game/canvas.tsx:77-89 | cuboid exactly for the cylinder and the cube, ball for the sphere, the icosahedron and any unknown index |
| `PhysicsGame.RandomColor` | src/kuch_to_banega/game/canvas.tsx:42-44 | a random colour is one of the ten palette colours |
| `PhysicsGame.RandomScale` | src/kuch_to_banega/game/canvas.tsx:47-49 | a random scale lies in [0.7, 2.0) |
| `PhysicsGame.ObstacleDraws` | src/kuch_to_banega/game/canvas.tsx:437-446 | obstacle `i` consumes its own six draws, in order, each in [0, 1) |
| `PhysicsGame.Spawn` | src/kuch_to_banega/game/canvas.tsx:437-455 | an obstacle spawns strictly above its half-height and inside the spawn square; its shape, colour, scale and collider come from the tables, and its key is `obstacle-<i>` |
| `PhysicsGame.ObstacleRegistry.ObstacleGenerator` | src/kuch_to_banega/game/canvas.tsx:429-474 | the shared ref array is emptied and then holds exactly thirty fresh refs; obstacle `i` is built from its six draws |
| `PhysicsGame.ObstacleKeysDistinct` | src/kuch_to_banega/game/canvas.tsx:455 | different obstacles carry different keys |
| `PhysicsGame.Remaining` | src/kuch_to_banega/game/canvas.tsx:139-150 | remaining counts at most every ref, and is 0 exactly when no ref holds a live body above the plane |
| `PhysicsGame.CountRemaining` | src/kuch_to_banega/game/canvas.tsx:140-150 | the counting loop computes `Remaining` |
| `PhysicsGame.InitialClock` | src/kuch_to_banega/game/canvas.tsx:96-100 | the clock starts at 0, running and ticking, showing 30 obstacles, with no spawn seen |
| `PhysicsGame.Tick` | src/kuch_to_banega/game/canvas.tsx:113-119 | while its interval is installed a tick adds a tenth of a second and changes no other field; otherwise nothing changes |
| `PhysicsGame.Check` | src/kuch_to_banega/game/canvas.tsx:130-166 | with no refs the count shows 30 and nothing else changes; otherwise the spawn is recorded and the count is `Remaining`; the clock stops exactly on the stop condition, and then the high score becomes the larger of itself and the time; the high score never decreases |
| `PhysicsGame.FirstSightNeverStops` | src/kuch_to_banega/game/canvas.tsx:136-158 | the first check that sees refs never stops the clock; a second check with everything fallen does |
| `PhysicsGame.StoppedIsFrozen` | src/kuch_to_banega/game/canvas.tsx:153-165 | once stopped, neither ticks nor checks change the time or the high score |
| `PhysicsGame.DisplayedTotal` | src/kuch_to_banega/game/canvas.tsx:183 | the displayed total is the larger of 30 and the number of refs |
| `PhysicsGame.HighScoreClock.constructor` | src/kuch_to_banega/game/canvas.tsx:96-119 | the clock's state starts as `InitialClock` |
| `PhysicsGame.HighScoreClock.OnTick` | src/kuch_to_banega/game/canvas.tsx:113-119 | the tick interval updates the fields as `Tick` does |
| `PhysicsGame.HighScoreClock.OnCheck` | src/kuch_to_banega/game/canvas.tsx:130-166 | the check interval updates the fields as `Check` does |
| `PhysicsGame.InitialPlayer` | src/kuch_to_banega/game/canvas.tsx:339-340 | the player starts with no bounces and damping 1.2/0.8 |
| `PhysicsGame.Collide` | src/kuch_to_banega/game/canvas.tsx:347-354 | a collision with a fixed body adds one bounce; any other collision changes nothing |
| `PhysicsGame.BounceFrame` | src/kuch_to_banega/game/canvas.tsx:236-251 | rising above 3 resets the count and the damping, and wins in the same frame; otherwise 3 or more bounces set damping 15/15 and fewer change nothing; damping is always one of the two pairs |
| `PhysicsGame.Player.constructor` | src/kuch_to_banega/game/canvas.tsx:225-226 | the player's state starts as `InitialPlayer` |
| `PhysicsGame.Player.OnCollisionEnter` | src/kuch_to_banega/game/canvas.tsx:347-354 | the collision handler updates the fields as `Collide` does |
| `PhysicsGame.Player.OnFrame` | src/kuch_to_banega/game/canvas.tsx:236-251 | the frame's bounce rule updates the fields as `BounceFrame` does |
| `PhysicsGame.CurrentSpeed` | src/kuch_to_banega/game/canvas.tsx:284 | the speed is 20, or 60 when sprinting, and never above the clamp speed |
| `PhysicsGame.Brake` | src/kuch_to_banega/game/canvas.tsx:305-315 | with no movement key held, the vertical velocity is kept and the horizontal components shrink without changing sign or leaving zero |
| `PhysicsGame.TargetVelocity` | src/kuch_to_banega/game/canvas.tsx:287-304 | the target velocity is the direction times the current speed, with the vertical velocity kept; for a direction of length at most one it is within the clamp speed, so the clamp never fires |
| `PhysicsGame.FrameVelocity` | src/kuch_to_banega/game/canvas.tsx:287-315 | with a movement key held the frame sets the target velocity, and without one it brakes; the vertical velocity is always kept |
| `AnimatedModel.NoKeys` | src/components/animated_model.tsx:33-38 | all four movement flags start false |
| `AnimatedModel.KeyDown` | src/components/animated_model.tsx:41-50 | a repeated event or a non-movement key changes nothing; `w`, `s`, `a`, `d` set their own flag and keep the others |
| `AnimatedModel.KeyUp` | src/components/animated_model.tsx:52-60 | `w`, `s`, `a`, `d` clear their own flag only, and other keys change nothing |
| `AnimatedModel.PressRelease` | src/components/animated_model.tsx:41-60 | pressing then releasing a key is the same as releasing it, so its flag ends false |
| `AnimatedModel.Direction` | src/components/animated_model.tsx:105-106 | the direction is +1 or -1, and -1 only without forward, so forward wins |
| `AnimatedModel.Wheels` | src/components/animated_model.tsx:70-84 | exactly the meshes named Cylinder001, Cylinder007, Cylinder014 or Cylinder021 are wheels |
| `AnimatedModel.CollectWheels` | src/components/animated_model.tsx:70-84 | the traversal collects `Wheels`, in traversal order |
| `AnimatedModel.Yaw` | src/components/animated_model.tsx:98-103 | left and right together cancel; one of them turns by six times the frame time |
| `AnimatedModel.Travel` | src/components/animated_model.tsx:98-115 | the car moves twenty times the frame time, forward when forward is held and backward with backward alone, and not at all otherwise |
| `AnimatedModel.Car.constructor` | src/components/animated_model.tsx:30 | the car starts at its loaded `rotation.y`, with nothing driven yet, and one spin value per collected wheel, each the wheel's loaded `rotation.y` |
| `AnimatedModel.Car.Frame` | src/components/animated_model.tsx:92-121 | the frame turns and drives the car as `Yaw` and `Travel` say, and spins every wheel by ten times the distance driven |
| `CarScene.Impulse` | src/animations/spline/carscene.tsx:14-22 | no keys give the zero impulse; forward with backward, and left with right, cancel |
| `CarScene.Press` | src/animations/spline/carscene.tsx:70-85 | a listener sets or clears exactly the flag of its code, and other codes change nothing |
| `CarScene.PressThenRelease` | src/animations/spline/carscene.tsx:69-85 | releasing after pressing is the same as releasing, and from the initial table nothing is left held |
| `CarScene.Keys.constructor` | src/animations/spline/carscene.tsx:69 | all six flags start false |
| `CarScene.Keys.KeyDown` | src/animations/spline/carscene.tsx:70-77 | the `keydown` listener updates the table as `Press` with `true` does |
| `CarScene.Keys.KeyUp` | src/animations/spline/carscene.tsx:78-85 | the `keyup` listener updates the table as `Press` with `false` does |
| `CarScene.Keys.FrameImpulse` | src/animations/spline/carscene.tsx:13-28 | the `+=`/`-=` accumulation gives the closed-form `Impulse` of the held keys, and the rotation argument is zero |
| `Terrain.TerrainResolution` | src/kuch_to_banega/terrain/terrain.tsx:65-70 | a missing or zero tier gives 96, tier 3 exactly gives 128, tier 2 gives 96, any other tier gives 64, and the result is one of the three |
| `Terrain.PixelRatio` | src/kuch_to_banega/terrain/terrain.tsx:28-37 | the ratio never exceeds the device's; it is capped at 1 for "low" and 1.5 for "medium"; any other setting gives the device ratio |
| `Terrain.Frame` | src/kuch_to_banega/terrain/terrain.tsx:168-176 | without a mounted mesh or with animation off nothing changes; otherwise time advances by frame time times speed, and the uniform is written exactly on frames where `floor(t * 60)` is even |
| `Terrain.InitialClock` | src/kuch_to_banega/terrain/terrain.tsx:47-106 | the clock and the uniform start at 0, which satisfies the invariant |
| `Terrain.FramePreservesInv` | src/kuch_to_banega/terrain/terrain.tsx:168-176 | with non-negative speed and frame time, the uniform always holds an even-frame reading that is not ahead of the clock |
| `Common.Decimal` | src/App.tsx:88 | the decimal text of a number is non-empty and all digits |
| `Common.DecimalInjective` | src/App.tsx:88 | different numbers have different decimal texts |
| `Common.PrefixedDecimalInjective` | src/App.tsx:88 | a fixed prefix followed by different numbers gives different texts |
| `Common.RandomIndex` | src/kuch_to_banega/game/canvas.tsx:43 | `Math.floor(r * n)` for a draw in [0, 1) is an index into a non-empty collection of `n` elements |

## Left out

- Rendering: scene graphs, meshes, lights, materials, uniforms other than
  `uTime`, controls panels, textures and model loading. These are
  declarative glue to an external engine.
- Resource release: the `dispose()` chains and the `WEBGL_lose_context`
  cleanups are foreign calls with no result to state.
- Physics: rigid bodies, what `applyImpulse` and `setLinvel` do, gravity,
  and how obstacle heights evolve. What the engine reports arrives as
  arguments.
- Vector and trigonometric maths: the camera lerp and orbit, the player's
  camera-relative direction, and the car's heading vector. These are
  floating-point and trigonometric numerics.
- Floating point: all arithmetic is exact `real` arithmetic, so every
  numeric equation holds only with exact numbers. This covers:
  - the high-score clock's repeated `+ 0.1`;
  - the terrain clock's advance, its `floor(t * 60)` and the `uTime` it
    writes (`Terrain.Frame`);
  - the car's yaw, distance and wheel-spin accumulation
    (`AnimatedModel.Car.Frame`);
  - the spline car's `+=`/`-=` impulse equalling its closed form
    (`CarScene.Keys.FrameImpulse`);
  - the braking factor and the target velocity;
  - the morph buffers and the size array (see below).
- Timers: the real `setTimeout`, `setInterval` and gsap scheduling. Only
  their callbacks are modelled, as events. Tween interpolation of
  `uProgress` between 0 and 1 is not modelled.
- React: render batching, stale closures, StrictMode double rendering and
  effect cleanup on unmount are not modelled. The one stale closure that
  changes behaviour is modelled: the clock's check reads
  `hasSpawnedObstacles` as it was before the call.
- Logging: the `console.warn` for a missing include.
- Prototype keys: JavaScript's `in` on the include table object also finds
  `Object.prototype` keys such as `toString`. The model's table is a plain
  map.
- The mixer update and the scale set in the animated model's frame. They
  are calls into the animation engine.
- `ShaderIncludes.ProcessShader`: `String.prototype.replace` interprets `$`
  patterns in the replacement string. The model substitutes the
  replacement literally.
- `ShaderIncludes.ProcessShader`: a cyclic include table answers
  `Err(IncludeCycle(key))`, where the source overflows the stack. The
  model has no stack limit: an acyclic include chain deep enough to
  overflow the JavaScript stack is expanded in full.
- `ShaderIncludes.ProcessShader`: that each key's entry is expanded at most
  once per call is stated through the memo's effect on the result
  (`FirstKnownDirective`, `MemoTransparent`). The recursive calls
  themselves are not counted.
- `MorphTargets.SizesArray`: states each entry is its draw, in [0, 1). It
  does not model the `Float32Array` store. That store rounds to the nearest
  single-precision value, so a draw above 1 - 2^-25 is stored as 1.0.
- `MorphTargets.PadAttribute`: takes the draws each mesh consumes as its own
  sequence, one per extra slot. The source draws them from one shared
  random stream, in the same order.
- `MorphTargets.CollectPositions`: takes the scene objects in traversal order
  as a sequence. The scene tree and its depth-first walk are not modelled.
- `MorphTargets.Complete`: tweens complete in the order they started,
  because they all last two seconds. gsap's overwrite behaviour between
  overlapping tweens on `uProgress` is not modelled.
- `PhysicsGame.TargetVelocity`: requires a movement direction of length at
  most one, which the camera-relative normalisation guarantees. The clamp's
  `Math.sqrt` rescaling for longer directions is not modelled.
- `PhysicsGame.ObstacleRegistry.ObstacleGenerator`: the created refs are
  modelled as empty (`Null`). Their later attachment to bodies by the
  physics engine is not modelled.
- `AnimatedModel.Car.Frame`: models the distance driven along the heading,
  not the position vector. The heading comes from the group's quaternion.
- The jump impulse on the space key, the pointer-drag camera yaw, the
  `keyboardMap` table and the `Instructions` and `Stats` overlays. They are
  engine calls or static markup.
