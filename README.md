# Mandelbulb point cloud and drag-to-orbit camera

This project models the core of `mandelbulb/mandelbulb.js`, a WebGL page that
draws a cubic lattice of points and lets the user orbit the camera by
dragging. It covers three parts:

- **The point lattice** (`lattice.dfy`, module `Lattice`). Three nested loops,
  x outermost and z innermost, run each coordinate from -50 while it is below
  50, in steps of 2, and push `x, y, z` onto one flat `vertices` list. The
  method `Generate` keeps those loops, parameterised by the start `lo`, the
  `step` and the number of rounds `n` (the loop bound is `lo + step * n`).
  It is proved to build the closed-form list `Grid(lo, step, n)`. The page's
  instance is `Grid(-50, 2, 50)`.
- **The drag-to-orbit controller** (`orbit.dfy`, module `Orbit`). The drag flag,
  the camera object `{x, y, z}` and the three pointer handlers form a state
  machine. `Step` handles one event and `Run` handles a sequence of them. The
  ghost counter `draws` counts the frames drawn (the `clear` + `drawArrays`
  pair).
- **The page** (`page.dfy`, module `Mandelbulb`). The class `Page` holds the
  `vertices` list built once at load, and the mutable `dragging`, `camX`,
  `camY` and `camZ` fields its handlers update in place. Its invariant
  `Valid()` says two things. The lattice is `Grid(-50, 2, 50)`. The camera's z
  equals the number of frames drawn, which is at least one. Each handler's new
  state is stated as `Orbit.Step` applied to the old state.

The camera accumulators are `real`. The canvas width and height, and the
bounding rectangle's left and top, are inputs to the move handler.

## Model

| member | source | states |
|---|---|---|
| `Lattice.Generate` | mandelbulb/mandelbulb.js:32-39 | The three nested loops, each running while its coordinate is below `lo + step * n`, push exactly `Grid(lo, step, n)`: `n^3` points in x-outer, z-inner order. |
| `Lattice.GridPoint` | mandelbulb/mandelbulb.js:33-36 | The list has `3 * n^3` entries. Point p (entries 3p..3p+2) is `(lo + step*(p / n^2), lo + step*((p / n) % n), lo + step*(p % n))`. |
| `Lattice.GridEntries` | mandelbulb/mandelbulb.js:33-35 | Every entry is a value a loop visits: it lies in `[lo, lo + step*n)` and is a whole number of steps from `lo`. |
| `Lattice.PageLattice` | mandelbulb/mandelbulb.js:32-39 | The page's lattice has 375000 entries, so `vertices.length / 3` is exactly 125000. Every coordinate is even and in [-50, 50). The first point is (-50, -50, -50) and the last is (48, 48, 48). |
| `Orbit.DeltaX` | mandelbulb/mandelbulb.js:84-89 | The horizontal nudge `(0.5 - x/width)*2` lies in [-1, 1] when the pointer is on the canvas. It is zero exactly at the centre line and positive exactly in the left half (inverted x). |
| `Orbit.DeltaY` | mandelbulb/mandelbulb.js:85-90 | The vertical nudge `(y/height - 0.5)*2` lies in [-1, 1] when the pointer is on the canvas. It is zero exactly at mid height and positive exactly in the lower half. |
| `Orbit.Step` | mandelbulb/mandelbulb.js:72-103 | A press sets the drag flag and a release clears it. Only a move during a drag changes the camera. Such a move changes x and y by at most 1 each when the pointer is on the canvas, adds exactly 1 to z, and draws exactly one frame. |
| `Orbit.ButtonsIdempotent` | mandelbulb/mandelbulb.js:73-74 | Pressing twice is the same as pressing once, and releasing twice is the same as releasing once. |
| `Orbit.RunCounts` | mandelbulb/mandelbulb.js:81-103 | Over any event sequence, the frame count and the camera's z both grow by the number of moves made during a drag. The final drag flag depends on the button events alone. |
| `Orbit.FromStart` | mandelbulb/mandelbulb.js:76-94 | From the loaded page, after n accepted moves the camera's z is `1 + n >= 1` and `1 + n` frames have been drawn. So the vector given to `vec3.normalize` is never zero. |
| `Orbit.PressThenMove` | mandelbulb/mandelbulb.js:73-91 | A press, then a move a quarter of the way across and at mid height, shifts the camera by exactly (+0.5, 0, +1) and draws one frame. |
| `Orbit.ButtonsOnly` | mandelbulb/mandelbulb.js:72-74 | A sequence of presses and releases alone leaves the camera and the frame count unchanged. |
| `Orbit.IdleMoves` | mandelbulb/mandelbulb.js:82 | Moves while not dragging leave the whole state unchanged: no camera change and no draw. |
| `Mandelbulb.Page.constructor` | mandelbulb/mandelbulb.js:131-132 | After load, the lattice is built, there is no drag, the camera is at (0, 0, 1), and the initial frame has been drawn (state `Orbit.Start`). |
| `Mandelbulb.Page.PointCount` | mandelbulb/mandelbulb.js:103 | The draw count `vertices.length / 3` is exact: three times it is the list length, and it is 125000. |
| `Mandelbulb.Page.MouseDown` | mandelbulb/mandelbulb.js:73 | Sets the drag flag. Nothing else changes and the invariant is kept. |
| `Mandelbulb.Page.MouseUp` | mandelbulb/mandelbulb.js:74 | Clears the drag flag. Nothing else changes and the invariant is kept. |
| `Mandelbulb.Page.MouseMove` | mandelbulb/mandelbulb.js:81-104 | The new state is `Orbit.Step` of the old one. The camera's z stays at least 1. The frame drawn covers all 125000 points during a drag, and no frame is drawn otherwise. |

## Left out

- Shader source fetching (lines 2-3). This is asynchronous network I/O.
- Canvas and WebGL context setup, shader compile and link, buffer upload and
  attribute binding, uniform lookups and uploads, clear colour and depth test
  (lines 6-69 and 99). These are calls into the graphics API with no logic of
  their own. The `clear` + `drawArrays` pair is reduced to the ghost frame
  counter `draws`.
- Float32 conversion of the vertex list (line 44). The lattice values are small
  integers, so it is exact.
- The gl-matrix numerics: `mat4.perspective`, `mat4.translate`, `mat4.lookAt`,
  `vec3.normalize` and `vec3.scale` (lines 52-57 and 93-98). They are
  floating-point code in a library that is not part of this model. The model
  proves only that the vector handed to `normalize` has z >= 1.
- `getBoundingClientRect` (line 83). Its left and top are inputs to the move
  handler. The canvas width and height are inputs too, as the handler reads
  them on each move.
- IEEE-754 rounding. The camera accumulators are modelled as exact `real`
  numbers.
- The commented-out wheel-zoom handler (lines 106-126). It is dead code.
- The move handler's return value `0` on the idle path (line 82). Nothing uses
  it.
- `Mandelbulb.Page.MouseMove`, `Orbit.Step`, `Orbit.DeltaX`, `Orbit.DeltaY`:
  these require a canvas of positive width and height. In the page, a
  zero-size canvas would make the division produce NaN or Infinity, which
  real arithmetic cannot represent.
