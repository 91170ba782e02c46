# Medusa live wallpaper: the engine core in Dafny

This project models the controller inside `MedusaWallpaper.MedusaEngine`, an
Android live-wallpaper engine that layers a dark picture, a circular "light"
slider that follows a cursor, a pair of parallax eyes and a touch overlay.
The model covers:

- **Aspect-fill centre crop** (`makeBitmap`): the rectangle cut from a source
  image for a target size. A zero target side passes the source through.
  The double aspect comparison becomes exact cross-multiplication, and the
  `(int)` casts of double products become floor division.
- **Resource preparation** (`loadBitmaps`): the sizes of the cropped pictures
  and buffers, the eyes anchor, the slider centre and the surface-to-buffer
  scale factors. These are computed as one `Layout` value.
- **Touch and velocity** (`onTouchEvent`): the cursor is remapped on every
  event; down and up flip `isTouched` and the paint alphas; up derives the
  free-run velocity by the rule "zero becomes +10, otherwise the magnitude is
  clamped into [10, 100] and the sign kept".
- **Free-run bounce** (`doOneFrame`, untouched branch): advance by the
  velocity. An axis that leaves `[0, buffer extent]` is clamped to the edge it
  crossed and its velocity is negated.
- **Frame composition** (`doOneFrame`): the ordered `drawBitmap` calls of a
  frame. These include the slider destination box, the square slider source,
  the eyes parallax offset and the eyes anchor.
- **Event state machine**: `onVisibilityChanged`, `onSurfaceChanged`,
  `onTouchEvent`, `onDestroy` and `doOneFrame` on a class whose fields the
  callbacks update in place. The `Handler` queue is kept as `pending`, the
  number of queued `frameTask` entries. `RunFrameTask` takes one entry off
  the queue and runs `doOneFrame`; `RunUntouchedFrames` runs k of them on a
  free-running engine, whose cursor then follows `Motion.FreeRun`.

Java semantics are written out. `JavaNum.JavaDiv` is `/` on `int`, which
rounds toward zero, and `JavaNum.TruncToInt` is the `(int)` cast of a float.
Dafny's own `/` is Euclidean. Float fields are `real`.

Modules: `JavaNum` (java_num.dfy), `AspectFill` (aspect_fill.dfy), `Motion`
(motion.dfy), `Resources` (resources.dfy), `Frame` (frame.dfy) and `Engine`
(engine.dfy, class `MedusaEngine`).

Behaviour of the code the model keeps:

- Touch handlers call `post` without `removeCallbacks`, so more than one frame
  can be pending. Nothing here claims "at most one pending tick".
- A touch on an invisible engine still posts a frame. That frame then does
  nothing and posts nothing.
- `loadBitmaps` does not release the bitmaps of an earlier surface size before
  it makes new ones.
- `onDestroy` recycles and drops the bitmaps but leaves the compositing canvas
  set. A frame that ran afterwards on a visible engine would fail at its first
  draw call, and `DoOneFrame` models this as `Faulted` with no state change.
  `onDestroy` also empties the queue, so this happens only if a later event
  posts a frame again.
- The slider source rectangle uses the slider width for both sides. That
  looks asymmetric, but `AspectFill.SquareTargetSquareCrop`
  and `Frame.SliderSourceIsWholeSlider` show it is harmless: the slider is
  cropped for a square target, so on every surface `OnSurfaceChanged`
  accepts, it is square.

## Model

| member | source | states |
|---|---|---|
| `JavaNum.JavaDivIsJavaQuotient` | app/src/main/java/net/emirac/medusa/MedusaWallpaper.java:355-356 | `JavaDiv`, Java's `int` division, leaves a remainder smaller than the divisor and of the dividend's sign |
| `JavaNum.JavaQuotientUnique` | app/src/main/java/net/emirac/medusa/MedusaWallpaper.java:355-356 | any quotient meeting that definition is `JavaDiv`'s, so the definition and the function agree on all inputs |
| `JavaNum.JavaDivMonotone` | app/src/main/java/net/emirac/medusa/MedusaWallpaper.java:355-356 | Java division by a positive divisor never reverses order |
| `JavaNum.TruncToInt` | app/src/main/java/net/emirac/medusa/MedusaWallpaper.java:341-344 | the `(int)` cast of a float rounds toward zero: magnitude at most the value's and within one of it, sign kept |
| `JavaNum.TruncMonotone` | app/src/main/java/net/emirac/medusa/MedusaWallpaper.java:355-356 | truncation never reverses order |
| `JavaNum.TruncPlusWhole` | app/src/main/java/net/emirac/medusa/MedusaWallpaper.java:341-344 | adding n before truncating adds n, or n - 1 for a negative fraction; exactly n from a non-negative value |
| `AspectFill.CropPassThrough` | app/src/main/java/net/emirac/medusa/MedusaWallpaper.java:306-308 | `CenterCrop` (`makeBitmap`'s crop) returns the whole source at offset 0 for a zero target width or height |
| `AspectFill.CropInsideSource` | app/src/main/java/net/emirac/medusa/MedusaWallpaper.java:316-326 | the `CenterCrop` rectangle lies inside the source: `x + w <= srcW` and `y + h <= srcH` (offsets and extents are naturals by type) |
| `AspectFill.CropCentred` | app/src/main/java/net/emirac/medusa/MedusaWallpaper.java:316-326 | the crop spans the full width or the full height, and each axis's two margins differ by at most one pixel |
| `AspectFill.CropMatchesAspect` | app/src/main/java/net/emirac/medusa/MedusaWallpaper.java:310-326 | a wider target keeps the full width and the largest height within the target's proportion; otherwise the full height and the largest width |
| `AspectFill.CropOfMatchingAspect` | app/src/main/java/net/emirac/medusa/MedusaWallpaper.java:316-326 | equal aspect ratios give the whole source at offset (0, 0) |
| `AspectFill.CropWorkedExample` | app/src/main/java/net/emirac/medusa/MedusaWallpaper.java:316-326 | a 2297x2290 source for a 1000x2000 target gives the crop x=576, y=0, w=1145, h=2290 |
| `AspectFill.CropOffsetIsHalfTrim` | app/src/main/java/net/emirac/medusa/MedusaWallpaper.java:319-325 | on each axis the offset is half of what was trimmed, rounded down |
| `AspectFill.CropNonEmptyIff` | app/src/main/java/net/emirac/medusa/MedusaWallpaper.java:316-327 | for a positive target, the crop is non-empty iff `dstW <= srcW*dstH` and `dstH <= srcH*dstW` |
| `AspectFill.SquareTargetSquareCrop` | app/src/main/java/net/emirac/medusa/MedusaWallpaper.java:267-268 | a square target gives a square crop whose side is the source's shorter side |
| `Motion.ReleaseVelocity` | app/src/main/java/net/emirac/medusa/MedusaWallpaper.java:232-251 | a zero delta gives exactly +min; a non-zero delta gives magnitude in [min, max] with the delta's sign; an in-range delta is unchanged; magnitudes below or above are raised or lowered to the bound |
| `Motion.ReleaseVelocityIdempotent` | app/src/main/java/net/emirac/medusa/MedusaWallpaper.java:232-251 | applying the release rule to its own result changes nothing |
| `Motion.BounceAxis` | app/src/main/java/net/emirac/medusa/MedusaWallpaper.java:389-406 | after a step the position is in [0, limit]; speed is preserved; the velocity is negated exactly when the advanced position left the range, and the position is clamped to the edge crossed |
| `Motion.BounceTurnsInward` | app/src/main/java/net/emirac/medusa/MedusaWallpaper.java:389-406 | from inside the range, the velocity after a clamp at 0 is positive and after a clamp at the far edge is negative |
| `Motion.BounceKeepsReleaseBounds` | app/src/main/java/net/emirac/medusa/MedusaWallpaper.java:389-406 | a velocity within the release bounds stays within them, and stays a fixed point of the release rule, after a bounce |
| `Motion.FreeRun` | app/src/main/java/net/emirac/medusa/MedusaWallpaper.java:387-408 | over any number of untouched frames the speed is preserved, and after at least one frame, or from a start inside the range, the position is in [0, limit] |
| `Motion.FreeRunSplit` | app/src/main/java/net/emirac/medusa/MedusaWallpaper.java:387-408 | running m frames and then k more ends where running m + k frames does |
| `Motion.FreeRunKeepsReleasedVelocity` | app/src/main/java/net/emirac/medusa/MedusaWallpaper.java:232-251 | a velocity set by the touch-up rule keeps its magnitude in [min, max], and stays a fixed point of the rule, through any number of free-running frames |
| `Resources.Scale` | app/src/main/java/net/emirac/medusa/MedusaWallpaper.java:290-291 | the surface-to-buffer factor maps the surface extent exactly onto the buffer extent, and is positive |
| `Resources.ScaledInto` | app/src/main/java/net/emirac/medusa/MedusaWallpaper.java:219-220 | a touch coordinate on the surface maps into [0, buffer extent] |
| `Resources.LoadBitmaps` | app/src/main/java/net/emirac/medusa/MedusaWallpaper.java:261-297 | the buffer has exactly the cropped dark picture's size, which is positive; the image rectangle is the cropped light picture's extent; the slider is square with side min(slider width, slider height); the eyes keep their native size; the scale factors map the surface onto the buffer |
| `Resources.EyesAnchorTracksCrop` | app/src/main/java/net/emirac/medusa/MedusaWallpaper.java:271-272 | for the 2297x2290 dark picture, the anchor `EyesAnchorX`/`EyesAnchorY` (`915 - (2297 - darkW)/2`, `950 - (2290 - darkH)/2`) is the eyes' native spot minus the crop offset |
| `Resources.SurfaceSupportedIff` | app/src/main/java/net/emirac/medusa/MedusaWallpaper.java:264-278 | `loadBitmaps` can create every cropped bitmap iff each side of the surface is at most the other side times the light, dark and overlay pictures' matching dimension |
| `Resources.EyesAnchorWorkedExample` | app/src/main/java/net/emirac/medusa/MedusaWallpaper.java:271-272 | on a 1000x2000 surface the buffer is 1145x2290 and the eyes anchor is (339, 950) |
| `Frame.SliderDestExtent` | app/src/main/java/net/emirac/medusa/MedusaWallpaper.java:340-345 | the slider destination box `SliderDest` is the slider's size or one pixel less on each axis, and exactly the slider's size on an axis whose near edge is non-negative (the cursor at least half a slider from the edge) |
| `Frame.SliderSourceIsWholeSlider` | app/src/main/java/net/emirac/medusa/MedusaWallpaper.java:346 | the width-by-width source rectangle `SliderSource` is exactly the slider canvas extent |
| `Frame.ParallaxBound` | app/src/main/java/net/emirac/medusa/MedusaWallpaper.java:355-356 | the parallax formula of `EyesOffsetX`/`EyesOffsetY` with factor 2k stays within [-k, k] for a cursor inside an extent larger than 5k |
| `Frame.EyesOffsetBounds` | app/src/main/java/net/emirac/medusa/MedusaWallpaper.java:355-357 | with the cursor in the buffer, `EyesOffsetX` and `EyesOffsetY`, which shift `EyesRect`, are at most 35 px sideways and 7 px vertically (buffer wider than 175 and taller than 35 px) |
| `Frame.EyesOffsetMonotone` | app/src/main/java/net/emirac/medusa/MedusaWallpaper.java:355-356 | moving the cursor right or down never moves the eyes left or up |
| `Frame.FrameCommandsOrder` | app/src/main/java/net/emirac/medusa/MedusaWallpaper.java:337-375 | a frame (`FrameCommands`) draws the dark background first; the layers never go backwards (background, slider, eyes, overlay, screen); the overlay is drawn iff touched; the screen blit happens iff the surface is valid, and it comes last |
| `Frame.FrameCommandsGeometry` | app/src/main/java/net/emirac/medusa/MedusaWallpaper.java:340-363 | the light is sampled at the `SliderDest` box where the slider is placed, over the `SliderSource` extent; the eyes sprite is drawn at `EyesRect`; the masks use the current paint alphas; the eyes canvas goes to the anchor |
| `Engine.MedusaEngine.constructor` | app/src/main/java/net/emirac/medusa/MedusaWallpaper.java:106-123 | the engine starts untouched and invisible with no bitmaps, nothing pending, cursor (0, 0), velocity (10, 10) and alphas 100 and 85, so `Valid` (alphas match the touch state) holds |
| `Engine.MedusaEngine.OnDestroy` | app/src/main/java/net/emirac/medusa/MedusaWallpaper.java:148-186 | no frame stays pending and the bitmaps are released; the canvas flag is untouched |
| `Engine.MedusaEngine.OnVisibilityChanged` | app/src/main/java/net/emirac/medusa/MedusaWallpaper.java:190-200 | records visibility; showing leaves exactly one pending frame and hiding leaves none |
| `Engine.MedusaEngine.OnSurfaceChanged` | app/src/main/java/net/emirac/medusa/MedusaWallpaper.java:203-213 | stores the new layout, re-centres the cursor to the integer halves of the buffer, keeps the velocity, and leaves exactly one pending frame |
| `Engine.MedusaEngine.OnTouchEvent` | app/src/main/java/net/emirac/medusa/MedusaWallpaper.java:216-259 | remaps the cursor; a down sets touched and an up clears it, and an up sets the velocity by the release rule from the last step; move and other actions keep the alphas and the velocity; each handled action adds one pending frame; the alpha invariant holds |
| `Engine.MedusaEngine.DoOneFrame` | app/src/main/java/net/emirac/medusa/MedusaWallpaper.java:331-411 | an unloaded or invisible engine does nothing; released bitmaps fault with no change; otherwise the frame's draw calls are issued; while touched, the cursor is kept and no frame stays pending; otherwise one bounce step is taken and one delayed frame is added |
| `Engine.MedusaEngine.FreeRunStep` | app/src/main/java/net/emirac/medusa/MedusaWallpaper.java:387-406 | the step on each axis is `BounceAxis` over the buffer extent |
| `Engine.MedusaEngine.RunFrameTask` | app/src/main/java/net/emirac/medusa/MedusaWallpaper.java:73-79 | running one queued task consumes it and runs `doOneFrame`: an idle or faulted frame changes nothing else; a drawn frame issues `FrameCommands` at the old cursor; a touched one keeps cursor and velocity and leaves nothing pending; an untouched one takes one `BounceAxis` step per axis and replaces its queue entry |
| `Engine.TouchDownUpInPlace` | app/src/main/java/net/emirac/medusa/MedusaWallpaper.java:217-253 | a down followed by an up at the same point leaves velocity (10, 10), the dimmed alphas and two more pending frames |
| `Engine.UntouchedFramesAt` | app/src/main/java/net/emirac/medusa/MedusaWallpaper.java:337-375 | frame i of a free run draws the slider and eyes where i bounce steps (`FreeRun`) took the cursor, with the dimmed alphas and no overlay |
| `Engine.RunUntouchedFrame` | app/src/main/java/net/emirac/medusa/MedusaWallpaper.java:387-408 | one queued task on an untouched, visible, loaded engine moves the cursor from `FreeRun` step i to step i + 1, keeps the queue length and appends frame i's draw calls |
| `Engine.RunUntouchedFrames` | app/src/main/java/net/emirac/medusa/MedusaWallpaper.java:384-408 | the handler running k tasks on an untouched, visible, loaded engine leaves each axis at `FreeRun` after k steps, the queue length unchanged, and the k frames drawn are `UntouchedFrames` |

## Left out

- Image decoding, resource IDs and pixel copying (`BitmapFactory.decodeResource`, `Bitmap.createBitmap`). Pictures appear only as widths and heights.
- Pixel compositing and the Porter-Duff destination-in and source-copy modes. A frame is the ordered list of its `drawBitmap` calls.
- Surface locking. `isValid`, `lockCanvas` returning a canvas and `unlockCanvasAndPost` are one boolean, `surfaceValid`, which decides whether the blit is issued.
- Handler timing. The 60 ms `postDelayed` delay and the Looper are not modelled, only the count of queued frame tasks.
- `recycle()` and memory management. These are reduced to the `released` flag.
- The overrides that only call `super` (`onCreate`, `onOffsetsChanged`, `onDesiredSizeChanged`, `onSurfaceRedrawNeeded`), `setTouchEventsEnabled`, and the unused `aspect` local of `loadBitmaps`.
- Float and double rounding. Positions, velocities and scale factors are exact reals. The `(int)` casts of double products in the crop are modelled as floor division. For image and surface sides below 2^26 that is what the double arithmetic gives.
- 32-bit overflow of `int` and the saturating int casts of huge or NaN floats. No realistic screen or image size reaches them.
- Engine.MedusaEngine.OnSurfaceChanged: requires a positive surface size whose light, dark and overlay crops are non-empty. A zero side divides a float by zero (infinite scale, which `real` cannot hold), and an empty crop makes `createBitmap` throw. `Resources.SurfaceSupportedIff` says which sizes qualify.
