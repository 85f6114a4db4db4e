# Nail overlay: per-frame fingertip mapping

This project models the core of a browser augmented-reality page that draws a
virtual nail on the user's index fingertip. The hand-landmark detector calls
`onResults` once per processed camera frame. That callback reads four
landmarks of the first detected hand: the wrist (0), the index DIP joint (7),
the index fingertip (8) and the middle-finger MCP joint (9). From them it sets
the position, z-rotation, uniform scale and visibility of the nail mesh. A
"flip camera" button toggles the facing mode between `user` (front camera,
mirrored) and `environment` (back camera).

Two modules:

- `NailMapping` (mapping.dfy) holds pure values and functions. It defines the
  landmark normaliser and transform mapper (`Centred`, `Aspect`, `RenderX`,
  `RenderY`, `Rotation`, `HandSize`, `Scale`, `HandPose`), the per-frame
  update `OnFrame`, and the facing-mode toggle `Flipped`. `Step` applies one
  event (a detection callback or a flip click) to a session, and `Replay`
  applies a sequence of events. The lemmas state the properties of one frame
  and of a stream of events.
- `NailOverlay` (overlay.dfy) holds the mutable objects. `NailMesh` has the
  fields that `onResults` writes in place. `Overlay` owns the mesh and the
  facing mode; its `OnResults` and `Flip` methods are proved to change the
  state exactly as `Step` says.

Design decisions:

- Coordinates are `real`. `Math.atan2` and `Math.sqrt` are passed in as the
  two arrow-typed fields of a `MathLib` value and are otherwise left abstract.
  A lemma that needs the square root's meaning assumes `IsSqrt`: the result
  is non-negative and squares back to its argument. `Math.PI` is written as
  3.141592653589793, the shortest decimal that denotes that JavaScript double.
- The live viewport size (`window.innerWidth`, `window.innerHeight`) is a
  parameter of each detection callback.
- The rotation could have taken the mirroring into account by changing the
  sign of the x-component passed to `atan2`. The code does not: it always
  passes `-dx`, in both facing modes (main.js:61-63). The model follows the
  code, so the rotation is the same for both facing modes
  (`RotationFromTipAndDip`).
- The code divides by the viewport height without a guard (main.js:50). The
  model requires `height > 0`, but only for a callback that carries a hand,
  because only then does the code divide.
- A detected hand has 21 landmarks. The code reads indices up to 9, so the
  model requires at least 10 landmarks in the first hand (`WellFormed`).
- A callback without a hand does not recompute the whole transform: it writes
  only `visible` and leaves position, rotation and scale as they were
  (main.js:69-71). The model follows the code (`NoHandKeepsPose`).
- `HandPresent` and `Replay` are plain definitions without contracts of their
  own. `HandPresent` is the test at main.js:36; its meaning is stated by the
  rows for `OnFrame`, `Step` and `Overlay.OnResults`. `Replay` applies `Step`
  to each event in order; its properties are the lemmas over event streams.

## Model

| member | source | states |
|---|---|---|
| NailMapping.Flipped | main.js:126 | the toggled mode always differs from the old one; it is `user` exactly when the old one was `environment` |
| NailMapping.FlipTwiceRestores | main.js:126 | flipping twice gives back the original facing mode |
| NailMapping.Centred | main.js:43-44 | maps [0, 1] onto [-1, 1], in both directions; the frame centre 0.5, and only it, goes to 0; values left of centre go negative |
| NailMapping.Aspect | main.js:50 | the aspect ratio times the height is the width, and it is non-negative |
| NailMapping.RenderX | main.js:43-50 | x times the height is the centred fingertip x times the width, negated for the front camera: x = ±(2·tip.x−1)·width/height |
| NailMapping.RenderY | main.js:44-59 | y plus 0.15 is 1 − 2·tip.y (image y inverted); a fingertip in the upper half of the frame lands above the offset line y = −0.15 |
| NailMapping.RotationTranslationInvariant | main.js:61-64 | the rotation depends only on the DIP-to-fingertip direction: shifting both landmarks by the same offset leaves it unchanged |
| NailMapping.HandPose | main.js:38-67 | the pose of a detected hand: x·height = ±(2·tip.x−1)·width (minus for the front camera), y = 0.85 − 2·tip.y, z = −1, rotZ + π/2 = −atan2(tip.y−dip.y, dip.x−tip.x), and for a genuine square root the scale is non-negative with scale² = 3.24 × the squared wrist-to-MCP distance |
| NailMapping.SquaredSpan | main.js:66 | the squared wrist-to-MCP distance is non-negative |
| NailMapping.HandSize | main.js:66 | for a genuine square root, the hand size is non-negative and its square is the squared wrist-to-MCP distance |
| NailMapping.Scale | main.js:66-67 | for a genuine square root, the scale is non-negative |
| NailMapping.OnFrame | main.js:35-71 | after a callback the mesh is visible exactly when a hand is present; with a hand the pose becomes `HandPose` of the first hand under the given facing mode; with no hand the pose is left as it was |
| NailMapping.Step | main.js:35-128 | a flip click changes the mode and leaves the mesh alone; a detection callback leaves the mode alone and sets visibility to hand presence |
| NailMapping.FrameWithHandUsesSessionMode | main.js:38-67 | for a callback with a hand, x·height = ±(2·tip.x−1)·width with the minus sign exactly when the session's own mode is `user`, y = 0.85 − 2·tip.y, z = −1; and the new mesh is the same whatever mesh the session had before |
| NailMapping.MirroringFollowsFlipParity | main.js:46-48 | from start-up, a frame with a hand after any stream of events has x·height = −(2·tip.x−1)·width when the flip count is even and +(2·tip.x−1)·width when it is odd |
| NailMapping.MirrorNegatesOnlyX | main.js:43-48 | for the same landmarks and viewport, the front camera's x is the negation of the back camera's x; y, z, rotation and scale are equal |
| NailMapping.CentreMapsToZero | main.js:43-59 | x is 0 exactly when the fingertip is at normalised x = 0.5 (or the viewport has zero width), for either facing mode |
| NailMapping.ResizeChangesOnlyX | main.js:44-67 | across any change of viewport or facing mode every pose component except x (y, z, rotation, scale) is unchanged |
| NailMapping.RotationFromTipAndDip | main.js:61-64 | two hands that agree on the fingertip and DIP landmarks get the same rotation for any facing mode and viewport |
| NailMapping.SqrtStrictlyIncreasing | main.js:66 | a genuine square root is strictly increasing on the non-negative reals |
| NailMapping.ScaleStrictlyIncreasing | main.js:66-67 | a strictly larger wrist-to-MCP span gives a strictly larger scale, and the scale is never negative |
| NailMapping.FlipTwiceRestoresMapping | main.js:46-48 | two flip clicks in a row leave the whole session, and therefore the x mapping of the next frame, as it was |
| NailMapping.ModeFollowsFlipParity | main.js:126 | after any stream of events the mode is the starting mode when the number of flip clicks is even and the other mode when it is odd |
| NailMapping.NoHandKeepsPose | main.js:69-71 | through any stream of hand-less callbacks and flips the pose is unchanged, and the mesh is hidden once a callback has happened |
| NailMapping.VisibilityFollowsLatestFrame | main.js:36-70 | after a callback and any flips after it, the mesh is visible exactly when that callback carried a hand: no delay, no hysteresis |
| NailMapping.SquareViewportScenario | main.js:43-59 | fingertip (0.75, 0.25) on a 1000x1000 viewport: x = -0.5 with the front camera, +0.5 with the back camera, y = 0.35 either way |
| NailMapping.RotatedViewportScenario | main.js:50-59 | turning the viewport from 1280x720 to 720x1280 changes x of an off-centre fingertip and leaves y unchanged |
| NailOverlay.NailMesh.constructor | main.js:31 | a new mesh sits at the origin, unrotated, at scale 1, visible |
| NailOverlay.Overlay.constructor | main.js:16-32 | start-up state: front camera, and a fresh mesh with the default transform, hidden |
| NailOverlay.Overlay.OnResults | main.js:35-73 | the new session state is `Step` of the old one on this callback: facing mode unchanged, visibility equals hand presence, pose kept when no hand; otherwise y set from the fingertip and z fixed at −1 |
| NailOverlay.Overlay.Flip | main.js:125-128 | the new session state is `Step` of the old one on a flip click: the mode changes and the mesh is untouched |

## Left out

- MediaPipe `Hands` construction, its options, the CDN `locateFile` callback and the initialisation try/catch (main.js:76-97): these are calls into a foreign library and network I/O.
- `startCamera` and the camera stop/start lifecycle it runs after each flip, the asynchronous `onFrame` to `hands.send` loop, and the error logging (main.js:99-123, 127, 131): these are device I/O and asynchronous callbacks. `Overlay.Flip` models only the mode change at main.js:126.
- The Three.js scene, camera, renderer, geometry and material, and the `renderer.render` call at the end of each callback (main.js:19-33, 72): this is rendering through a library whose code is not part of this model. Only the mesh's position, z-rotation, uniform scale and visibility are modelled.
- The `log` status writes and the CSS `scaleX(-1)` video mirroring (main.js:6-10, 37, 105): these are UI side effects.
- Floating point: the model uses exact reals. It does not model rounding, or the results of a zero viewport height (Infinity or NaN), which the preconditions exclude instead. It also does not model IEEE signed zero: with tip and DIP at the same x, the code passes `-0` to `Math.atan2`, while the model's `atan2` sees 0.
- `Math.atan2` and `Math.sqrt` are abstract. Nothing is proved that depends on the actual value of `atan2`, and properties of `sqrt` hold only under the `IsSqrt` hypothesis.
- Landmark depth (`z`) and every landmark other than 0, 7, 8 and 9: the code never reads them.
