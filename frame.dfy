/** What one render pass puts in the framebuffer, as functions of the view
    parameters: the complex point a pixel stands for, its escape count, its
    colour, the row flip, and which schedule wrote it. */
module Frame {
  import opened Tiling
  import opened Escape

  /** The image size the viewer renders at. */
  const WIDTH: nat := 1920
  const HEIGHT: nat := 1080

  /** The view parameters one pass reads: the complex point at pixel (0, 0),
      pixels per unit, and the iteration bound. */
  datatype View = View(xMin: real, yMin: real, scale: real, maxIter: int)

  /** The image row that mathematical row `y` is stored in: the imaginary
      part grows upwards, image rows grow downwards. */
  function Flip(y: int): int {
    HEIGHT - y - 1
  }

  /** The flip is its own inverse and maps [0, HEIGHT) onto itself, so it is
      a bijection on the rows of the image. */
  lemma FlipBijective(y: int)
    ensures Flip(Flip(y)) == y
    ensures 0 <= y < HEIGHT <==> 0 <= Flip(y) < HEIGHT
  {
  }

  /** Distinct rows go to distinct image rows. */
  lemma FlipInjective(y1: int, y2: int)
    requires Flip(y1) == Flip(y2)
    ensures y1 == y2
  {
  }

  /** The real part of the point pixel column `x` stands for. */
  function Re(v: View, x: int): real
    requires v.scale != 0.0
  {
    v.xMin + x as real / v.scale
  }

  /** The imaginary part of the point pixel row `y` stands for. */
  function Im(v: View, y: int): real
    requires v.scale != 0.0
  {
    v.yMin + y as real / v.scale
  }

  /** The palette lookup with its black sentinel: a count below the bound
      picks its palette entry, the bound itself (never escaped) is black. */
  function Shade(colors: seq<int>, maxIter: int, iteration: int): int
    requires 0 <= iteration && maxIter <= |colors|
  {
    if iteration < maxIter then colors[iteration] else 0
  }

  /** The colour of the pixel at column `x`, mathematical row `y`. It
      depends on (x, y), the view and the palette only. */
  function PixelValue(v: View, colors: seq<int>, x: int, y: int): int
    requires v.scale != 0.0 && v.maxIter <= |colors|
  {
    Shade(colors, v.maxIter, EscapeTime(Re(v, x), Im(v, y), v.maxIter))
  }

  /** The escape count of a pixel lies in [0, max(0, bound)]; a count below
      the bound selects that palette entry (an index in range), and a count
      at the bound gives black. */
  lemma PixelShade(v: View, colors: seq<int>, x: int, y: int)
    requires v.scale != 0.0 && v.maxIter <= |colors|
    ensures var n := EscapeTime(Re(v, x), Im(v, y), v.maxIter);
            0 <= n <= Max(0, v.maxIter) &&
            (n < v.maxIter ==> n < |colors| && PixelValue(v, colors, x, y) == colors[n]) &&
            (n >= v.maxIter ==> PixelValue(v, colors, x, y) == 0)
  {
  }

  /** A pixel that stands for the origin is black: the origin never
      escapes. */
  lemma OriginPixelBlack(v: View, colors: seq<int>, x: int, y: int)
    requires v.scale != 0.0 && 0 <= v.maxIter <= |colors|
    requires Re(v, x) == 0.0 && Im(v, y) == 0.0
    ensures PixelValue(v, colors, x, y) == 0
  {
    OriginNeverEscapes(v.maxIter);
  }

  /** The value at image column `x`, image row `row` after a pass that
      starts from a black image and runs the tiles of the given schedule:
      the pixel's colour where some tile covers it, black elsewhere. */
  function RenderedPixel(singleCore: bool, n: int, v: View, colors: seq<int>, x: int, row: int): int
    requires n >= 1 && v.scale != 0.0 && v.maxIter <= |colors|
  {
    if Covered(Schedule(singleCore, WIDTH, HEIGHT, n), x, Flip(row))
    then PixelValue(v, colors, x, Flip(row))
    else 0
  }

  /** In multi-core mode an in-image pixel is coloured exactly when its
      column is below n * (WIDTH / n). */
  lemma StripsRendered(n: int, v: View, colors: seq<int>, x: int, row: int)
    requires n >= 1 && v.scale != 0.0 && v.maxIter <= |colors|
    requires 0 <= x < WIDTH && 0 <= row < HEIGHT
    ensures RenderedPixel(false, n, v, colors, x, row) ==
            if x < n * (WIDTH / n) then PixelValue(v, colors, x, Flip(row)) else 0
  {
    StripsCover(WIDTH, HEIGHT, n, x, Flip(row));
  }

  /** Single-core mode colours every pixel of the image. */
  lemma SingleCoreComplete(n: int, v: View, colors: seq<int>, x: int, row: int)
    requires n >= 1 && v.scale != 0.0 && v.maxIter <= |colors|
    requires 0 <= x < WIDTH && 0 <= row < HEIGHT
    ensures RenderedPixel(true, n, v, colors, x, row) == PixelValue(v, colors, x, Flip(row))
  {
    WholeImageCover(WIDTH, HEIGHT, x, Flip(row));
  }

  /** On every column some strip covers, the multi-core image equals the
      single-core image: which worker wrote a pixel does not change it. */
  lemma ModesAgree(n: int, v: View, colors: seq<int>, x: int, row: int)
    requires n >= 1 && v.scale != 0.0 && v.maxIter <= |colors|
    requires 0 <= x < n * (WIDTH / n) && 0 <= row < HEIGHT
    ensures RenderedPixel(false, n, v, colors, x, row) == RenderedPixel(true, n, v, colors, x, row)
  {
    StripsTotalWidth(WIDTH, n);
    StripsCover(WIDTH, HEIGHT, n, x, Flip(row));
    WholeImageCover(WIDTH, HEIGHT, x, Flip(row));
  }

  /** The last WIDTH % n columns stay black in multi-core mode. */
  lemma RemainderBlack(n: int, v: View, colors: seq<int>, x: int, row: int)
    requires n >= 1 && v.scale != 0.0 && v.maxIter <= |colors|
    requires WIDTH - WIDTH % n <= x
    ensures RenderedPixel(false, n, v, colors, x, row) == 0
  {
    RemainderUncovered(WIDTH, HEIGHT, n, x, Flip(row));
  }

  /** When the worker count divides the width, both modes give the same
      image everywhere. */
  lemma ModesAgreeWhenDivisible(n: int, v: View, colors: seq<int>, x: int, row: int)
    requires n >= 1 && WIDTH % n == 0 && v.scale != 0.0 && v.maxIter <= |colors|
    ensures RenderedPixel(false, n, v, colors, x, row) == RenderedPixel(true, n, v, colors, x, row)
  {
    StripsExactWhenDivisible(WIDTH, HEIGHT, n, x, Flip(row));
    WholeImageCover(WIDTH, HEIGHT, x, Flip(row));
  }
}
