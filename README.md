# Character controller: angle smoothing and the per-frame movement step

This project models the decision logic of the demo's character controller,
`src/components/models/character-controller.tsx`:

- `normalizeAngle`, which wraps an angle into [-π, π] with two loops, and
  `lerpAngle`, which interpolates two angles the short way round
  (module `Angles`, file `angles.dfy`);
- the body of the `useFrame` callback that runs once per rendered frame
  (module `Controller`, file `controller.dfy`). It reads the keyboard flags,
  the pointer (drag) state and the rigid body's velocity. From them it builds
  a movement intent, picks walk or run speed, accumulates the rig's yaw target
  `rotationTarget` and sets the character's facing target
  `characterRotationTarget`. It then chooses the animation label, writes the
  body's horizontal velocity and eases the character group's yaw towards its
  facing target.

Angles and speeds are exact reals. `PI` is the literal 3.141592653589793, the
shortest decimal of the double `Math.PI` (not its exact binary value). The
whole-turn literal 6.283185307179586 used by `Turns` and by the closed form of
`NormalizedAngle` is exactly 2 * PI, and the loop proofs rely on that; their
measures `angle.Floor` and `(-angle).Floor` also need each 2π step to be at
least 1, so that the floor strictly drops. The
general lemmas hold for any positive PI whose turn literal is 2 * PI; the two
example lemmas `LerpAtStartBoundary` and `LerpAcrossBoundary` depend on PI's
value, since they need 1 and ±3 to lie in [-PI, PI]. The class `CharacterController` holds
the state that persists from frame to frame: the two refs, the character
group's `rotation.y` and the `animation` state. Its `Step` method follows the
callback statement by statement. It is proved equal to the reference function
`Frame`, and the lemmas state what a frame does in terms of `Frame`.
`normalizeAngle` and `lerpAngle` are methods with the source's loops and
reassignments. Each is proved equal to a reference function: `NormalizedAngle`
is written in closed form, with the number of turns given by a ceiling, and
`LerpedAngle` is built from it.

What the code does at the boundary ±π:
- `normalizeAngle` returns π for inputs above π that are odd multiples of π.
  It returns -π for such inputs below -π. So its range is the closed
  [-π, π], not the half-open (-π, π].
- `lerpAngle(a, b, 0)` is not always `normalizeAngle(a)`. When `a`
  normalises to -π and `b` to a positive angle, the start is moved up a turn
  and comes back as π (`LerpAtStart`, `LerpAtStartBoundary`). The same holds
  for `t = 1` and the end (`LerpAtEnd`). In both cases the result is still the
  same direction. The model follows the code here.

Inputs that the source reads from its surroundings are parameters of `Step`:
- the `Input` record: the keyboard map of `useKeyboardControls`, the
  `isClicking` flag kept by the mouse and touch listeners, and the pointer
  position;
- the slider values WALK_SPEED, RUN_SPEED and ROTATION_SPEED (`Tuning`). They
  are not assumed to be distinct;
- `Math.sin`, `Math.cos` and `Math.atan2`, as the arbitrary functions of a
  `Trig` record;
- the velocity returned by `rb.current.linvel()`, as an `Option` that is
  `None` while the rigid body is not attached. Then the step does nothing.
  `Step` returns the velocity handed to `setLinvel`.

Whether `character.current` is attached is a boolean parameter. When it is
not, the character yaw is left alone, as in the source.

## Model

| member | source | states |
|---|---|---|
| `Angles.NormalizedAngle` | src/components/models/character-controller.tsx:11-15 | the normalised angle lies in [-PI, PI] and differs from the input by whole turns; it is the input itself when that is already in [-PI, PI]; from above PI it lands in (-PI, PI], from below -PI in [-PI, PI) |
| `Angles.NormalizedAngleUnique` | src/components/models/character-controller.tsx:11-15 | those five properties determine the normalised angle: any value with all of them equals it |
| `Angles.NormalizeAngle` | src/components/models/character-controller.tsx:11-15 | the two loops (subtract 2π while above π, then add 2π while below -π) end, and their result is exactly the normalised angle |
| `Angles.CongruentInRange` | src/components/models/character-controller.tsx:11-15 | two angles in [-PI, PI] that denote the same direction are equal or are -PI and PI |
| `Angles.ShortArc` | src/components/models/character-controller.tsx:21-27 | the adjustment moves each end only by whole turns, and for normalised ends leaves them at most PI apart |
| `Angles.LerpedAngle` | src/components/models/character-controller.tsx:17-30 | the interpolated angle always lies in [-PI, PI] |
| `Angles.LerpAngle` | src/components/models/character-controller.tsx:17-30 | normalising both ends, shifting one by 2π when they are more than π apart, interpolating and normalising again gives exactly the reference interpolation |
| `Angles.LerpSameEnds` | src/components/models/character-controller.tsx:17-29 | interpolating an angle with itself gives its normalisation for every factor t |
| `Angles.NormalizeOneTurnUp` | src/components/models/character-controller.tsx:11-15 | normalising an angle of [-PI, PI] moved up a turn gives it back, except that -PI comes back as PI |
| `Angles.LerpAtStart` | src/components/models/character-controller.tsx:18-29 | at t = 0 the result is the normalised start, or PI when the start normalises to -PI and the end to a positive angle; always the start's direction |
| `Angles.LerpAtEnd` | src/components/models/character-controller.tsx:18-29 | at t = 1 the result is the normalised end, or PI when the end normalises to -PI and the start to a positive angle; always the end's direction |
| `Angles.LerpAtStartBoundary` | src/components/models/character-controller.tsx:18-29 | interpolating from -PI towards 1 at t = 0 gives PI although -PI normalises to itself |
| `Angles.LerpAcrossBoundary` | src/components/models/character-controller.tsx:18-29 | half way from 3 to -3 the result is PI: the step crosses the ±π seam, not 0 |
| `Angles.Arc` | src/components/models/character-controller.tsx:21-27 | the signed arc that is interpolated along is at most PI long and leads from the start's direction to the end's |
| `Angles.LerpFollowsShortArc` | src/components/models/character-controller.tsx:18-29 | the result is the start's direction moved by t times that short arc |
| `Controller.ReadMovement` | src/components/models/character-controller.tsx:82-111 | the overwrite sequence (forward, backward, run key, drag with dead zone and bias, left, right) yields exactly the precedence-defined intent and the selected speed |
| `Controller.MovementPrecedence` | src/components/models/character-controller.tsx:87-111 | a drag sets z to mouse y + 0.4 whatever keys are held; otherwise backward beats forward; right gives x = -1 whatever else; left alone gives x = 1 whatever the drag; otherwise a drag sets x to -mouse x outside the 0.1 dead zone and leaves it 0 inside |
| `Controller.SpeedSelection` | src/components/models/character-controller.tsx:94-104 | RUN_SPEED when the run key is held or a drag has abs(mouse x) > 0.5 or abs(mouse y + 0.4) > 0.5; WALK_SPEED otherwise |
| `Controller.SideKeyDoesNotForceRun` | src/components/models/character-controller.tsx:96-111 | the run test is made before the left and right keys: a held right key gives abs(x) = 1 and still walk speed |
| `Controller.DragAtRestIsIdle` | src/components/models/character-controller.tsx:96-130 | a drag inside the dead zone at mouse y = -0.4 with no side key gives no intent: the frame is idle and the velocity is handed back unchanged |
| `Controller.IdleFrame` | src/components/models/character-controller.tsx:113-130 | without intent the animation is idle, both targets keep their values and the velocity written equals the velocity read |
| `Controller.MovingFrame` | src/components/models/character-controller.tsx:117-127 | with intent the facing target is atan2(x, z), the horizontal velocity is sin and cos of rotation target plus facing times the speed, and the animation is run exactly when the speed equals RUN_SPEED, walk otherwise |
| `Controller.FrameTurn` | src/components/models/character-controller.tsx:113-115 | the rig's yaw target changes by exactly ROTATION_SPEED * x when x is not 0 and not at all otherwise; it is never wrapped |
| `Controller.FrameKeepsVerticalVelocity` | src/components/models/character-controller.tsx:119-122 | the y component of the velocity is never modified |
| `Controller.FrameCharacterYaw` | src/components/models/character-controller.tsx:131-137 | with the character group attached its yaw after the frame lies in [-PI, PI]; without it the yaw is unchanged |
| `Controller.EqualSpeedsShowRun` | src/components/models/character-controller.tsx:123-127 | with equal walk and run speeds every frame with intent shows the run animation |
| `Controller.MovingSpeedIsSelectedSpeed` | src/components/models/character-controller.tsx:119-122 | when sin² + cos² = 1 at the heading, the horizontal velocity set has length equal to the selected speed |
| `Controller.WalkForwardFromRest` | src/components/models/character-controller.tsx:87-127 | when WALK_SPEED ≠ RUN_SPEED and atan2(0, 1) = 0, sin 0 = 0, cos 0 = 1, the forward key alone, from a zero yaw target, gives velocity (0, y, WALK_SPEED) and the walk animation (with equal speeds the same input shows run, see `EqualSpeedsShowRun`) |
| `Angles.Lerp` | src/components/models/character-controller.tsx:29 | reference definition, no contract of its own: the linear interpolation `start + (end - start) * t` of line 29, used by `LerpedAngle` |
| `Controller.Intent` | src/components/models/character-controller.tsx:87-111 | reference definition, no contract of its own: the movement intent written by precedence (with its pieces `DragX`, `DragZ`); `ReadMovement` is proved equal to it and `MovementPrecedence` states its cases |
| `Controller.Speed` | src/components/models/character-controller.tsx:94-104 | reference definition, no contract of its own: run speed for the run key or a far drag (`DragForcesRun`), walk speed otherwise; `ReadMovement` is proved equal to it and `SpeedSelection` states its cases |
| `Controller.Frame` | src/components/models/character-controller.tsx:79-140 | reference definition, no contract of its own: one frame's new state and written velocity, composed of `Turned` (113-115), `Facing` (118), `Driven` (119-122), `Label` (123-129) and `LerpedAngle` (131-137); `Step` is proved equal to it and the frame lemmas are about it |
| `Controller.CharacterController.constructor` | src/components/models/character-controller.tsx:33-54 | the animation starts idle (`useState("idle")`, line 33) and both targets start at 0 (the refs of lines 53-54); the character yaw starts at 0 because a new three.js group is unrotated, which is a library default and not a line of the source |
| `Controller.CharacterController.Step` | src/components/models/character-controller.tsx:79-140 | without a body nothing changes and nothing is written; with one, the new targets, yaw and animation and the velocity written are exactly those of the reference frame |

## Left out

- Floating-point behaviour: angles and speeds are exact reals. With doubles,
  `angle -= 2π` can fail to change a huge angle, and then the loops of
  `normalizeAngle` never end. The model does not capture this.
- The values of `Math.sin`, `Math.cos` and `Math.atan2`: they are arbitrary
  functions, and the general lemmas use nothing about them beyond equal
  arguments giving equal results. Two lemmas take values of them as
  hypotheses: `MovingSpeedIsSelectedSpeed` assumes sin² + cos² = 1 at the
  one heading it is about, and `WalkForwardFromRest` assumes atan2(0, 1) = 0,
  sin 0 = 0 and cos 0 = 1 (it also assumes WALK_SPEED ≠ RUN_SPEED).
- The container's yaw smoothing (lines 143-149): a plain scalar lerp,
  `y + (rotationTarget - y) * 0.1`, of the unwrapped `rotationTarget` into the
  container's `rotation.y`, a scene-graph property. The container yaw is not
  part of the modelled state.
- The camera follow (lines 151-160): calls into the three.js scene graph
  (`getWorldPosition`, `Vector3.lerp`, `lookAt`). That library is not part of
  this model.
- Mouse and touch listener registration (lines 58-76): DOM event plumbing.
  Only its effect, the `clicking` flag of `Input`, is modelled.
- The leva slider configuration (lines 34-43): its values, defaults and
  ranges are not modelled; the three speeds are parameters.
- React state semantics of `setAnimation`: the label is a field that the step
  overwrites, without re-rendering.
- The physics engine, rendering and animation playback: external engines.
  `setLinvel` is modelled as the value `Step` returns, and its `wake` flag is
  not modelled.
- `src/components/objects/base.tsx`, `experience.tsx`, `map.tsx`,
  `src/pages/index.tsx` and `src/types/index.ts`: scene composition, asset
  loading and type declarations with no decision logic. They are not part of
  this model.
