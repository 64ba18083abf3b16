# Hero particle text — a verified model

The landing page's hero section shows a cloud of 6000 particles. While the pointer is over the hero
element, the particles gather into the words "ALIEN FORK". Once the pointer leaves, they drift apart
again. The engine lives in `js/hero.js` and has four parts, each modelled here:

- **The text sampler** (`sampler.dfy`, module `TextSampler`).
  - The text is drawn on an offscreen canvas. The font size is shrunk so the text fits 90% of the
    canvas width, but never below 90 px.
  - The canvas's RGBA bytes are scanned on a square grid of stride `gap`, row by row.
  - Every grid pixel whose alpha byte is above 128 is kept. Its pixel position becomes a world point
    centred on the origin, with y pointing up and a scale of 0.5.
  - An image with nothing kept yields the single point at the origin.
- **The layout** (`layout.dfy`, module `Layout`).
  - The canvas is 90% of the hero's width, and 45% of its height but at least 260 px.
  - The stride grows by one pixel per 260 px of canvas width and is never below 3.
- **The motion rules** (`motion.dfy`, module `Motion`). These give the initial spread of positions and
  velocities and the two per-frame steps, one particle at a time:
  - **Seek:** cover 8% of the remaining distance to the target, then add a small jitter.
  - **Wander:** nudge the velocity at random, move by it, and reverse and damp (×−0.98) every
    velocity component whose coordinate is now beyond the box. The box is ±180 along x and z and
    ±108 along y.
- **The particle field** (`particles.dfy`, class `Particles.ParticleField`).
  - It holds the three flat buffers of `3 * count` numbers: positions, velocities and targets.
  - Its constructor, target assignment and per-frame loops update those buffers in place, exactly as
    the source's loops do.
  - Each method is proved against the per-particle functions of `Motion` and `TextSampler`.

Every value the source draws from `Math.random()` is a parameter in [0, 1). Numbers are reals.

The properties proved:
- The scan keeps exactly the lit grid pixels, in scan order. The sampler's loops compute exactly that
  list, converted to world points, or the origin alone.
- The conversion to world points is injective.
- The chosen font size fits the text into 90% of the width unless the 90 px floor stops it.
- The layout's stride bounds the number of columns visited per row.
- Starting positions lie in the box and starting speeds are at most 0.25 along each axis.
- Target depths lie within ±6.
- Jitter-free seeking shrinks the distance to the target by exactly 0.92 per frame. After n frames it
  is 0.92ⁿ of the start, and the particle never reaches or overshoots the target.
- Seek jitter and wander nudges are bounded per axis.
- A bounce never increases a particle's speed.
- The bounce does not keep positions inside the box: a particle beyond a face can stay beyond it,
  with its velocity turned outward again.

## Model

| member | source | states |
|---|---|---|
| TextSampler.AlphaIndexInBounds | js/hero.js:127 | the alpha index `(y*width+x)*4+3` of any pixel of the canvas lies inside its `width*height*4` bytes |
| TextSampler.ToWorld | js/hero.js:129-132 | the world point maps back to its pixel: `x = wx/0.5 + width/2`, `y = height/2 - wy/0.5` |
| TextSampler.ToWorldInjective | js/hero.js:129-132 | two different pixels of one canvas never give the same world point |
| TextSampler.Sampled | js/hero.js:136-137 | the sampler's result is never empty |
| TextSampler.SampleTextToPoints | js/hero.js:123-137 | reading back a canvas with a zero side fails (the browser throws), and only then; otherwise the result is exactly `Sampled`: the world points of the lit grid pixels in scan order, or `[origin]` |
| TextSampler.ScanAlpha | js/hero.js:124-137 | the loop over rows with stride `gap` returns exactly `Sampled` |
| TextSampler.ScanRow | js/hero.js:126-134 | the loop over row y's columns with stride `gap` appends exactly the world points of that row's lit grid pixels, left to right |
| TextSampler.KeptExactly | js/hero.js:125-133 | a pixel is kept if and only if it is a grid pixel of the canvas whose alpha is above 128 |
| TextSampler.KeptInScanOrder | js/hero.js:125-132 | kept pixels come row by row, left to right within a row, each once |
| TextSampler.SampledFromKept | js/hero.js:128-137 | when some grid pixel is lit, sample i is the world point of the i-th lit grid pixel, and every lit grid pixel's point is among the samples |
| TextSampler.SampledFallback | js/hero.js:136-137 | when no grid pixel is lit, the result is exactly `[origin]` |
| TextSampler.FitFontSize | js/hero.js:116-118 | the size is `max(90, floor(base * min(1, 0.9*width/measured)))`: at least 90, never above a base size of at least 90, less than one below the scaled size, and equal to its floor when above 90 |
| TextSampler.FitFontSizeFits | js/hero.js:115-118 | above the 90 px floor, the text drawn at the chosen size is at most 90% of the canvas width |
| TextSampler.FitFontSizeNoShrink | js/hero.js:117-118 | text that already fits 90% of the width keeps its base size (or 90 when the base is below it) |
| Layout.Layout | js/hero.js:84-86 | width is `floor(0.9*clientWidth)`; height is `floor(max(260, 0.45*clientHeight))`; the stride is at least 3 and above 3 equals `floor(width/260)` |
| Layout.ColumnsPerRowBounded | js/hero.js:86 | a scan row visits at most 520 columns, whatever the element's width |
| Motion.Spread | js/hero.js:37-43 | `(r*2-1)*extent` lies in `[-extent, extent)` for every draw `r` in [0, 1) |
| Motion.Jitter | js/hero.js:155-157 | `(r-0.5)*amp` lies in `[-amp/2, amp/2)` for every draw `r` in [0, 1) |
| Motion.InitialPosition | js/hero.js:37-39 | every starting position lies inside the box (±180 along x and z, ±108 along y) |
| Motion.InitialVelocity | js/hero.js:41-43 | every starting velocity is at most 0.25 along each axis |
| Motion.Arrive | js/hero.js:151-153 | one approach step leaves 0.92 of the distance to the target and lands between the old coordinate and the target |
| Motion.SeekStep | js/hero.js:151-157 | one seek frame for one particle: every axis lands within 0.03 (x, y) or 0.01 (z) of the jitter-free approach `Arrive` |
| Motion.SeekJitterBounded | js/hero.js:155-157 | a seek step lands within 0.03 (x, y) or 0.01 (z) of the jitter-free approach |
| Motion.SeekWithoutJitterContracts | js/hero.js:151-157 | with no jitter, a seek step shrinks each axis's distance to the target by 0.92, strictly unless already on it |
| Motion.ApproachShrinks | js/hero.js:151-153 | after n jitter-free frames the distance to the target is the start distance shrunk n times by 0.92 |
| Motion.ApproachDistance | js/hero.js:151-153 | after n jitter-free frames the distance to the target is exactly `0.92^n` times the start distance |
| Motion.ApproachMonotone | js/hero.js:151-153 | a particle that starts off target never reaches it by jitter-free seeking, and every frame gets strictly closer |
| Motion.Nudge | js/hero.js:163-165 | the random acceleration changes each velocity component by at most 0.005 (x, y) or 0.0025 (z) |
| Motion.WanderPosition | js/hero.js:163-169 | the new position is within 0.005 (x, y) or 0.0025 (z) of the old position plus the old velocity |
| Motion.WanderVelocity | js/hero.js:163-177 | each component of the new velocity is the nudged one times −0.98 if and only if the new coordinate is beyond the face, and otherwise the nudged one; it is never faster than the nudged one |
| Motion.NudgeBounded | js/hero.js:163-165 | a wander nudge changes velocity by at most 0.005 along x and y and 0.0025 along z |
| Motion.WanderBounce | js/hero.js:163-177 | the new coordinate is old plus the nudged velocity; that velocity component is multiplied by −0.98 if and only if the new coordinate is beyond the face; the bounce never increases speed |
| Motion.BounceCanRecrossOutward | js/hero.js:171-176 | a particle beyond the face whose bounced move leaves it still beyond the face gets its velocity flipped outward again next frame: the bounce does not keep positions inside the box |
| Particles.ParticleField.constructor | js/hero.js:31-48 | three fresh buffers; every particle starts at its spread position (in the box) with its spread velocity, and targets its own x and y at z = 0 |
| Particles.ParticleField.InitParticle | js/hero.js:36-47 | the set-up loop body writes particle i's position, velocity and target and no other particle's |
| Particles.ParticleField.SetTextTargets | js/hero.js:89-99 | particle i targets sample `i mod |pts|` at a depth within ±6; positions and velocities are untouched |
| Particles.ParticleField.Retarget | js/hero.js:83-100 | after a layout change every particle targets the `Sampled` point `i mod |samples|` of the canvas the layout sizes; for a hero narrower than 2 px (canvas width 0, whose read-back throws) the targets stay as they were |
| Particles.ParticleField.Seek | js/hero.js:147-158 | every particle's new position is `SeekStep` of its old position and its target; velocities and targets are unchanged |
| Particles.ParticleField.SeekParticle | js/hero.js:150-157 | the seek loop body moves particle i by `SeekStep` and no other particle |
| Particles.ParticleField.Wander | js/hero.js:159-178 | every particle's new position and velocity are `WanderPosition` and `WanderVelocity` of its old ones |
| Particles.ParticleField.WanderParticle | js/hero.js:161-177 | the wander loop body nudges, moves and bounces particle i and no other particle |
| Particles.ParticleField.Bounce | js/hero.js:171-176 | the bounce loop over the three axes flips exactly the components whose coordinate is beyond the face, for particle i only |
| Particles.ParticleField.Animate | js/hero.js:147-179 | while forming, every particle seeks and velocities are kept; otherwise every particle wanders |

## Left out

- Three.js and WebGL: the scene, camera, fog, renderer, point material and buffer attribute are display
  only (js/hero.js:19-28, 50-61, 76-78).
- Drawing the text: the canvas fill, the font string, `fillText` and `getImageData` are browser calls.
  The sampler takes the resulting RGBA bytes as input, and the font fit takes the measured text width
  as input.
- The font string parse (`/(\d+)px/`, js/hero.js:116) is reduced to the base size as a parameter (180
  in the source, `TextSampler.BaseFontSize`). The rewrite of the font string with the new size is
  not modelled.
- TextSampler.FitFontSize: requires a positive measured width. A zero width would make JavaScript
  divide by zero, giving Infinity or NaN, and that case is not modelled. The font fit's result is not
  connected to the sampler's input, because the drawing between them is a browser call.
- Float32 storage: positions, velocities and targets are reals. Rounding to 32-bit floats is not
  modelled.
- `Math.random()`: each draw is a parameter in [0, 1); its distribution is not modelled. The set-up
  loop draws positions and velocities from two sequences rather than from one interleaved stream.
  The order of draws is unobservable once they are parameters.
- Events and scheduling are left out:
  - the pointer enter and leave handlers that set `forming` (an input of `Animate` here);
  - the `ResizeObserver` that calls `onResize` (modelled as `Retarget`);
  - the `requestAnimationFrame` loop.
- The set-up's first call to `setTextTargets` (js/hero.js:64) is not made by the constructor. A
  caller runs `Retarget` after construction, as `onResize` does. When that first call throws (a
  hero narrower than 2 px), the source's `init` stops before installing the pointer listeners and
  the `ResizeObserver`, and `animate` never starts. That abort is not modelled; `Retarget` only
  leaves the targets unchanged.
- The particle count is a constructor parameter. The source's 6000 is `Particles.ParticleCount`.
- The bounce does not keep positions inside the box, and no member claims that it does.
  `Motion.BounceCanRecrossOutward` shows the velocity can flip outwards again while the particle is
  still outside.
- `js/site.js` and `js/includes.js` (page navigation and HTML includes) are not part of this model.
