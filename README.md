# Mandelbrot set viewer with strip-parallel rendering — a Dafny model

The viewer renders the Mandelbrot set into a 1920 × 1080 framebuffer. Each
pixel is coloured by its escape-time count. A palette entry is picked per
count, and points that never escape are black. A render pass runs in one of
two modes:

- single-core: one worker computes the whole image;
- multi-core: `cpuCount` workers each compute a vertical strip
  `WIDTH / cpuCount` columns wide.

Mouse presses on five on-screen buttons do the following: select the mode,
raise or lower the iteration bound `MAX_ITER` by 10, or restore the home view.
A press anywhere else zooms in around the pressed point.

The model has six modules:

- `Tiling` (`tiling.dfy`): the work units of a pass. These are the
  whole-image tile and the strips. Lemmas prove the strips in bounds,
  pairwise disjoint, and covering exactly columns `[0, n * (w / n))`.
- `Escape` (`escape.dfy`): the escape-time loop.
  - `Run` and `EscapeTime` define the count as a recursive function over
    exact `real` arithmetic.
  - `EscapeIterations` is the worker's `while` loop, proved to compute that
    count.
- `Frame` (`frame.dfy`): what a pass writes. It covers the point a pixel
  stands for, the palette lookup with its black sentinel, the row flip
  `HEIGHT - y - 1`, and the framebuffer value under each schedule
  (`RenderedPixel`). It also compares the two modes.
- `Worker` (`worker.dfy`): `class Process` with its nested pixel loop
  `Calculate` over a shared `array2`. The proof shows that every pixel of the
  worker's tile is written once, at its flipped row, with its colour. It also
  shows that no other cell changes. A ghost multiset counts the writes per
  cell.
- `Controls` (`controls.dfy`): the pure side of the controls.
  - The five button rectangles and the AWT intersection test.
  - The press dispatch `ClickAction`.
  - The effect of each action on the kept parameters (`Apply`).
  - The invariant that `MAX_ITER` stays a non-negative multiple of 10.
- `Viewer` (`viewer.dfy`): `class Mandelbrot` with the mutable parameters,
  the palette array and the framebuffer. Each method is proved against the
  `Controls` and `Frame` functions. The methods are `generateColors`,
  `render`, `increaseMaxIter`, `reset`, `zoom` and `mousePressed`.

Two behaviours of the code are easy to misread; the model follows the
code:

- The multi-core strips all have width `WIDTH / cpuCount`. The last
  `WIDTH % cpuCount` columns are given to no strip and stay black. They are
  not absorbed by the last strip. `RemainderUncovered` and `RemainderBlack`
  state this: in multi-core mode the remainder columns are black whatever
  colour single-core mode gives them. `ModesAgreeWhenDivisible` shows that
  the two modes agree everywhere when `cpuCount` divides 1920.
- Lowering the bound is guarded by `MAX_ITER > 0`; it is not clamped at
  zero. Because the bound starts at 50 and moves only by 10 or back to 50,
  it stays a non-negative multiple of 10 (`ReachableBound`). On those states
  the guard acts as a clamp (`DecreaseClamps`).

Workers of a pass run one after another here. Their tiles are disjoint
(`StripsDisjoint`), and each writes only its own cells (`Calculate`). So the
order in which they run does not change the image.

## Model

| member | source | states |
|---|---|---|
| `Escape.Run` | Process.java:37-42 | the loop run to exit: the count only grows, never passes the bound (unless it started past it), an exit below the bound has \|z\|² ≥ 4, and the loop guard is false at exit |
| `Escape.EscapeTime` | Process.java:32-42 | the count from z = 0 lies in [0, max(0, MAX_ITER)] |
| `Escape.EscapeIterations` | Process.java:32-42 | the worker's `while` loop over `zx`, `zy`, `xt` and `iteration` terminates with exactly the count `EscapeTime` defines, between 0 and the bound |
| `Escape.OriginOrbit` | Process.java:37-42 | with c = 0, z stays 0 on every step and the loop runs until the count reaches the bound |
| `Escape.OriginNeverEscapes` | Process.java:32-42 | the origin's count is the bound itself |
| `Escape.TwoEscapesAtOnce` | Process.java:37-42 | c = 2 escapes after exactly one step |
| `Tiling.Strips` | src/Mandelbrot.java:84-88 | the multi-core schedule has exactly `cpuCount` strips |
| `Tiling.StripsTotalWidth` | src/Mandelbrot.java:65 | the strips together are at most `WIDTH` wide and fall short of it by exactly `WIDTH % cpuCount` |
| `Tiling.StripColumns` | src/Mandelbrot.java:84-88 | strip i holds exactly columns [i·(w/n), (i+1)·(w/n)) at full height |
| `Tiling.StripFits` | src/Mandelbrot.java:84-88 | strip i is the tile (i·(w/n), 0, w/n, h) and lies inside the image |
| `Tiling.StripsDisjoint` | src/Mandelbrot.java:84-88 | two different strips share no pixel |
| `Tiling.StripsCover` | src/Mandelbrot.java:65-88 | a pixel lies in some strip if and only if its column is in [0, n·(w/n)) and its row in [0, h) |
| `Tiling.RemainderUncovered` | src/Mandelbrot.java:65-88 | the last `w % n` columns lie in no strip |
| `Tiling.StripsExactWhenDivisible` | src/Mandelbrot.java:65-88 | when n divides w the strips cover exactly the image |
| `Tiling.WholeImageCover` | src/Mandelbrot.java:70-71 | the single-core tile covers exactly the image |
| `Frame.FlipBijective` | Process.java:46 | the row flip is its own inverse and maps [0, HEIGHT) onto itself |
| `Frame.FlipInjective` | Process.java:46 | distinct rows go to distinct image rows |
| `Frame.PixelShade` | Process.java:47 | a count below the bound picks that palette entry (an in-range index); a count at the bound gives black |
| `Frame.OriginPixelBlack` | Process.java:29-47 | a pixel that stands for the origin is black |
| `Frame.StripsRendered` | src/Mandelbrot.java:81-88 | in multi-core mode an image pixel is coloured if its column is below n·(WIDTH/n) and black otherwise |
| `Frame.SingleCoreComplete` | src/Mandelbrot.java:70-71 | in single-core mode every image pixel gets its colour |
| `Frame.ModesAgree` | src/Mandelbrot.java:69-88 | on every column a strip covers, the multi-core and single-core values agree |
| `Frame.RemainderBlack` | src/Mandelbrot.java:62-88 | in multi-core mode the last `WIDTH % cpuCount` columns stay black |
| `Frame.ModesAgreeWhenDivisible` | src/Mandelbrot.java:62-88 | when `cpuCount` divides `WIDTH` both modes give the same image |
| `Worker.PixelColor` | Process.java:29-47 | the colour one pixel gets from the view, its escape loop and the palette is `PixelValue` |
| `Worker.Process.constructor` | Process.java:12-18 | the worker keeps its tile and the shared framebuffer |
| `Worker.Process.Calculate` | Process.java:24-53 | every pixel (x, y) of the tile is written at image row HEIGHT − y − 1 with its colour; every other cell keeps its old value; each cell of the tile is written exactly once and no other cell is written |
| `Controls.HitIsInside` | src/Mandelbrot.java:224-226 | the one-pixel mouse rectangle intersects a button if and only if the pressed pixel lies inside it |
| `Controls.ButtonsDisjoint` | src/Mandelbrot.java:200-218 | no pixel lies inside two of the five buttons |
| `Controls.ClickDispatch` | src/Mandelbrot.java:224-246 | a press selects each action if and only if it lies inside that action's button, and zooms if and only if it lies inside none |
| `Controls.Home` | src/Mandelbrot.java:22-26 | the home view has a positive scale and the bound 50 |
| `Controls.ZoomAt` | src/Mandelbrot.java:116-126 | a zoom grows the scale and keeps the bound and the mode |
| `Controls.ZoomCentres` | src/Mandelbrot.java:116-123 | after a zoom the pressed point is shown at column WIDTH / 2, and 538.5 rows above the bottom edge |
| `Controls.ZoomScales` | src/Mandelbrot.java:123 | a zoom multiplies the scale by exactly 1.5 |
| `Controls.ApplyAligned` | src/Mandelbrot.java:226-246 | every press keeps the scale positive and the bound a non-negative multiple of 10 |
| `Controls.ApplyAllAligned` | src/Mandelbrot.java:226-246 | any run of presses from such a state keeps that invariant |
| `Controls.ReachableBound` | src/Mandelbrot.java:236-239 | from the start state, the bound is a non-negative multiple of 10 after any run of presses, so the palette is never allocated with a negative size (for the model's unbounded bound) |
| `Controls.DecreaseClamps` | src/Mandelbrot.java:236-239 | on reachable states, lowering the bound subtracts 10 and floors at 0 |
| `Controls.ResetIdempotent` | src/Mandelbrot.java:136-146 | reset restores the bound 50 and the home view, keeps the mode, and resetting twice equals resetting once |
| `Controls.SelectChangesOnlyMode` | src/Mandelbrot.java:226-231 | selecting a mode sets that mode and changes nothing else |
| `Viewer.RunStrips` | src/Mandelbrot.java:81-97 | on a black image, running the `cpuCount` strip workers one after another leaves exactly the multi-core image |
| `Viewer.Mandelbrot.constructor` | src/Mandelbrot.java:37-44 | the viewer starts in the home view, in multi-core mode, with the bound 50, its palette and a rendered image |
| `Viewer.Mandelbrot.GenerateColors` | src/Mandelbrot.java:107-114 | the palette is a new array of exactly `MAX_ITER` entries, each assigned its colour |
| `Viewer.Mandelbrot.Render` | src/Mandelbrot.java:59-105 | a pass leaves in a new framebuffer exactly the image the current mode's schedule renders, and keeps the parameters and palette |
| `Viewer.Mandelbrot.IncreaseMaxIter` | src/Mandelbrot.java:128-134 | the bound moves by the given amount, the palette is regenerated for it and a new image is rendered; nothing else changes |
| `Viewer.Mandelbrot.Reset` | src/Mandelbrot.java:136-146 | the parameters become the home view with the bound 50 in the same mode; palette and image are regenerated |
| `Viewer.Mandelbrot.Zoom` | src/Mandelbrot.java:116-126 | the parameters become `ZoomAt` of the old ones at the pressed position; the palette is kept and a new image is rendered |
| `Viewer.Mandelbrot.MousePressed` | src/Mandelbrot.java:221-247 | the new parameters are `Apply` of the dispatched action; the object invariant and the multiple-of-10 invariant are kept; a new image is rendered unless a decrease was skipped, in which case image and palette are untouched |

## Left out

- Swing and AWT presentation is not modelled, because it is UI rather than
  logic: the window, `paintComponent`, `repaint`, the render-time overlay,
  the OpenGL property and `main`.
- Threads are not modelled: `start`, `join`, the `InterruptedException`
  handlers and the `Thread` subclass. Workers run sequentially in creation
  order. Disjoint tiles and per-tile write sets carry the race-freedom
  argument. The second loop in `render`, which joins the workers, has
  nothing left to do and is absent.
- `System.nanoTime` and the elapsed render time are not modelled; they
  only feed the overlay.
- `Runtime.availableProcessors` becomes the constructor parameter
  `cpuCount`, which must be at least 1.
- `Color.HSBtoRGB` becomes the constructor parameter `swatch`. Palette entry
  i is `swatch(i)`; the HSB arithmetic is a library call in floating point.
- Double-precision arithmetic is not modelled. `xMin`, `yMin`, `SCALE`,
  `cx`, `cy`, `zx` and `zy` are exact `real` numbers, so rounding, overflow
  to infinity and NaN are outside the model. `Math.floor` in `zoom` is
  applied to a value converted from an `int`, so it is the identity and is
  left out.
- `Controls.ReachableBound`: the iteration bound is an unbounded integer in
  the model, while `MAX_ITER` is a 32-bit Java `int`. Wrap-around after
  about 2^31 / 10 increase presses, and running out of memory when
  allocating a huge palette, are not modelled. The non-negative,
  multiple-of-10 invariant is proved for the unbounded bound.
- The overflow branches of AWT's `Rectangle.intersects` are not modelled. Integers are unbounded, and all five buttons and the one-pixel
  mouse rectangle are far from the `int` limits.
- The `try`/`catch` around `zoom` is not modelled, because no exception can
  be raised on the modelled path.
- The empty handlers `mouseClicked`, `mouseReleased`, `mouseEntered` and
  `mouseExited` are not modelled.
- The static fields `MAX_ITER`, `SCALE`, `xMin`, `yMin` and `COLORS` become
  fields of the one `Mandelbrot` object. The workers receive them as
  parameters: the view and the palette array.
- `Viewer.Mandelbrot.IncreaseMaxIter`: requires the new bound to be
  non-negative. In Java a negative bound would make `new int[MAX_ITER]`
  throw after `MAX_ITER` was already changed. The only callers pass +10 or
  a guarded −10, and `Controls.ReachableBound` shows that the bound never
  becomes negative.
