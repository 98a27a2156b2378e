# Depth-buffered torus compositing, in Dafny

This project models the core of the `frame` package of the spinning-donut
renderer: how `Render` composites the projected samples of a torus into a
frame through a z-buffer. It also covers the value types around it: the
`Torus` and its defaults, the `Scene` and its `CalculateK1`, the truncating
screen projection, and the `Frame` sink that `Render` draws into.

For each (theta, phi) pair, `Render` computes a projected cell `(xp, yp)`,
an inverse depth `ooz` and a luminance `L`. Then it:

- asks the frame to `Set(xp, yp, L)` only when `ooz` is strictly greater
  than the z-buffer's value at `[xp][yp]`;
- writes `ooz` into the z-buffer only when `Set` reports that it drew;
- starts every call from a fresh buffer (`newZBuffer`) that holds zeros.

The model has three modules:

- `DepthBuffer` (depth_buffer.dfy) states this behaviour on values.
  `Step` handles one sample and `Sweep` handles a sequence of samples in
  sweep order. A `Pass` holds the z-buffer, the luminance the frame has
  applied at each cell, and the list of `Set` calls made.
  The lemmas prove what a sweep leaves in each cell:
  - the depth is the largest accepted inverse depth, or 0;
  - the luminance shown is that of the first sample, in sweep order, that
    reaches this depth;
  - depths never decrease;
  - samples with `ooz <= 0` never reach `Set`;
  - a sample the frame declines leaves no trace.
- `Geometry` (geometry.dfy) holds `Torus`, `DefaultTorus`, the `Scene`
  class and its `CalculateK1`, the rotated torus point `TorusPoint`, and
  the projection `Project` with Go's truncating float-to-int conversion.
  The cosines and sines are inputs, constrained only to lie on the unit
  circle. The lemmas show:
  - every torus point lies within R1 + R2 of the torus centre;
  - `CalculateK1`'s promise that the torus stays within the screen holds
    when 16 (R1 + R2)^2 < 7 K2^2, which the program's own scene
    (K2 = 5, R1 + R2 = 3) meets;
  - the promise fails for a camera closer than that (a concrete point
    with K2 = 3.5 lands one column past the edge).
- `Renderer` (renderer.dfy) is the imperative side:
  - the `Frame` class, with `Set(x, y, L) returns (ok: bool)`;
  - `NewZBuffer`, which builds height distinct row arrays of width zeros;
  - `PlotSample`, the in-place depth test and conditional commit;
  - `Render`, the nested theta/phi loop.

  `NewZBuffer` is proved to hold `Zeros`. `PlotSample` is proved against
  `Step`, and `Render` against `Sweep` over the flattened samples.
  `Frame.Set`'s contract states its effect directly.

The model follows the code in these points:

- The buffer starts at 0, not at a minimum value. So a sample with
  `ooz <= 0` is never drawn.
- Nothing guards against a depth of 0, and nothing skips off-screen samples.
  `Render` indexes the buffer directly, so being in bounds is a precondition.
  The Go program would panic otherwise.
- The buffer is indexed `[xp][yp]`, but it has `height` rows of `width`
  entries. So `xp` must be below the height and `yp` below the width
  (`OnScreen`). Only square scenes satisfy both this and the screen bounds.
  The text mode of the program uses square scenes.
- The projection truncates toward zero; it does not round.
- Set is called, and may decline, before the depth is committed. A nearer
  declined sample therefore does not hide a farther accepted one.

In `Render` the torus geometry is abstracted away: it receives, for each
theta step, the row of samples its phi steps produce. Composing `Render`'s
postcondition with `SweepDepthIsNearestAccepted` and
`SweepShowsFirstNearest`, starting from `Zeros`, gives the end state of a
render pass cell by cell.

## Model

| member | source | states |
|---|---|---|
| Geometry.DefaultTorus | frame/frame.go:31-38 | the default torus has theta spacing 0.07, phi spacing 0.02, R1 = 1, R2 = 2 and no rotation; the spacings are positive and R1 < R2, so the torus has a hole |
| Geometry.MinSide | frame/frame.go:61-64 | the value is the smaller of width and height: at most both, and equal to one of them |
| Geometry.Scene.constructor | frame/frame.go:41-57 | a scene literal sets width, height, K2 and the light vector, and leaves K1 at its zero value |
| Geometry.Scene.CalculateK1 | frame/frame.go:60-66 | sets K1 to `FittingK1(MinSide(Width, Height), K2, R1, R2)`, that is min(Width, Height) · K2 · 3 / (8 · (R1 + R2)) (frame/frame.go:65), and changes no other field |
| Geometry.CentreDepthLandsOnScreen | frame/frame.go:59-66 | the centre-depth special case of TorusStaysOnScreen: with that K1 and any non-zero K2, a point at the depth of the torus centre that lies within R1 + R2 of the axis projects onto the viewport: 0 <= xp < width and 0 <= yp < height |
| Geometry.CentreDepthInSquareBuffer | frame/frame.go:103-104 | the same centre-depth special case: in a square scene, that projected point is also a valid [xp][yp] index of the z-buffer |
| Geometry.Project | frame/frame.go:103-104 | the cell of a point is its exact screen position, width / 2 + K1 · ooz · x across and height / 2 − K1 · ooz · y down, each truncated towards zero; the sample keeps the point's ooz and luminance |
| Geometry.TorusPoint | frame/frame.go:92-98 | the camera-space point of the torus at (theta, phi) under rotations A and B, from cosine and sine inputs, pushed K2 along z. Unrotated, it is the cross-section circle revolved about the y axis: (circleX · cos phi, R1 · sin theta, K2 + circleX · sin phi) with circleX = R2 + R1 · cos theta |
| Geometry.TorusPointWithinReach | frame/frame.go:92-98 | for any rotation A, B and any angles theta, phi, the point computed from the torus lies within R1 + R2 of the torus centre (0, 0, K2) |
| Geometry.TorusStaysOnScreen | frame/frame.go:59-66 | with K1 from CalculateK1 and a camera with 16 (R1 + R2)^2 < 7 K2^2, every torus point at any rotation is in front of the camera (z > 0) and projects onto the viewport: 0 <= xp < width and 0 <= yp < height |
| Geometry.DefaultSceneStaysOnScreen | donut.go:58-71 | the program's square scene (K2 = 5) with the default torus keeps every point in front of the camera and at a valid [xp][yp] index of the z-buffer |
| Geometry.ShallowSceneLeavesScreen | frame/frame.go:59-66 | with K2 = 3.5, the default torus and an 8 x 8 viewport, the unrotated point at theta = 0, phi with cos 0.8 and sin −0.6 is (2.4, 0, 1.7) and projects to column 8, off screen: the promise of CalculateK1 needs the camera condition |
| Geometry.Truncate | frame/frame.go:103-104 | int(v) drops the fraction toward zero: r <= v < r + 1 for v >= 0, and r - 1 < v <= r for v < 0 |
| DepthBuffer.Zeros | frame/frame.go:68-74 | the buffer of newZBuffer has exactly height rows, each of width entries, all 0 |
| Renderer.NewZBuffer | frame/frame.go:68-74 | allocates height fresh, pairwise distinct row arrays, each of length width and all 0 |
| Renderer.Frame.Set | frame/frame.go:5-9 | Set(x, y, L) returns whether the frame applied L; when it does, (x, y) shows L; the call is recorded either way |
| DepthBuffer.Step | frame/frame.go:114-122 | if ooz <= the cell's value: no Set call and no change. Otherwise: exactly one Set call. If Set declines: buffer and picture unchanged. If Set draws: only cell [xp][yp] changes, to exactly ooz, and the frame shows L there |
| Renderer.PlotSample | frame/frame.go:114-122 | the in-place depth test and conditional write leave the row arrays, the frame's picture and its calls exactly as Step says |
| DepthBuffer.Sweep | frame/frame.go:84-123 | handling the samples one after another keeps the buffer's shape, so every sample stays in bounds |
| DepthBuffer.Flatten | frame/frame.go:84-88 | the theta-outer, phi-inner order lists the rows one after another; a grid of in-bounds samples gives an in-bounds sequence |
| Renderer.Render | frame/frame.go:77-125 | after the nested sweep, the frame's picture and its Set calls are exactly those of Sweep over the samples in theta-outer, phi-inner order, from a fresh buffer of zeros |
| DepthBuffer.SweepSplit | frame/frame.go:84-88 | sweeping a + b is sweeping a and then b from the resulting state |
| DepthBuffer.SweepDepthIsNearestAccepted | frame/frame.go:114-121 | after a sweep, each cell is at least its starting value and at least the ooz of every sample at that cell that the frame accepts. It equals the starting value (0 for a fresh buffer) or the ooz of one such sample, so it is their maximum |
| DepthBuffer.DepthNeverDecreasesDuringSweep | frame/frame.go:114-121 | for any two points m <= n of the sweep, each cell's value after m samples is at most its value after n |
| DepthBuffer.SweepShowsFirstNearest | frame/frame.go:116-121 | if a cell's depth was raised, it shows the luminance of the first accepted sample there, in sweep order, with the final depth; every earlier accepted sample there is strictly farther. Otherwise the cell shows what it showed before |
| DepthBuffer.NonPositiveDepthNeverReachesSet | frame/frame.go:116 | when every cell starts at >= 0 (as newZBuffer's zeros do), a sample with ooz <= 0 changes nothing: no Set call, no buffer or picture change |
| DepthBuffer.SweepIgnoresCalls | frame/frame.go:114-121 | the buffer and the picture a sweep produces do not depend on the Set calls made before it |
| DepthBuffer.RejectedSampleLeavesNoTrace | frame/frame.go:118-121 | a sample the frame declines can be removed from any sweep without changing the final buffer or picture, so it never blocks a later, farther accepted sample |
| DepthBuffer.BackFacingSampleDoesNotHideLitOne | frame/frame.go:111-121 | with a frame that draws only L > 0, a nearer back-facing sample is offered and declined, and the farther lit sample at the same cell is drawn: the cell ends at its depth and shows its luminance |

## Left out

- Cosine and sine (frame/frame.go:78-79, 85, 89) are not modelled: `Geometry.TorusPoint` takes each angle's cosine and sine as inputs on the unit circle, and the angles `t.A` and `t.B` of the `Torus` are not tied to them.
- The luminance formula (frame/frame.go:107-109) is not modelled; `Render` takes each sample's luminance as an input, and its samples are not tied to `TorusPoint` and `Project`.
- The float loop counters of the theta and phi loops (frame/frame.go:84, 88) are left out. The sweep is given as one row of samples per theta step. How many steps `2π / spacing` gives is not modelled.
- Floating point is modelled as `real`. A depth of exactly 0 gives `ooz = +Inf` in Go, and NaN compares false. Neither exists among reals. Converting an out-of-range float to int is also not modelled. `Geometry.Scene.CalculateK1` requires R1 + R2 != 0, the case where Go would set K1 to ±Inf or NaN rather than panic; the program's only call passes the default torus (R1 + R2 = 3).
- `Render` takes the samples in place of the `Torus` argument, which only feeds the geometry. The light vector fields of `Scene` are kept but not used.
- `Renderer.Frame` answers `Set` from a fixed policy of (x, y, L). A frame whose answer depends on its own earlier drawing is not modelled; the `SetFunc` type the adapters delegate to receives only L. The cells of the frame (glyphs, colours) are represented only by the luminance last applied at each point.
- The `SetFunc` type (frame/frame.go:11) is not used by the core, so it is not modelled.
- `Geometry.TorusStaysOnScreen`: the comment at frame/frame.go:59 promises that the torus stays within the screen for any scene. The lemma requires 16 (R1 + R2)^2 < 7 K2^2, because the promise is false for a closer camera, as `Geometry.ShallowSceneLeavesScreen` shows. Such a point would index the z-buffer out of range.
- Apart from the scene it builds (donut.go:58-71), donut.go is not part of this model: flag parsing, terminal size, GIF encoding, ANSI escapes, pacing and file output.
- frame/ascii.go and frame/gif.go are not part of this model. As written these adapters do not satisfy the `Frame` interface: their `Set` returns nothing, and they call the generic `SetFunc` with three arguments.
