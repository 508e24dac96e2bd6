/** The viewer: the view parameters, the palette and the framebuffer, the
    render pass over one tile or over vertical strips, and the reaction to a
    mouse press. The workers of a pass run one after the other here; their
    tiles are disjoint, so the order does not change the image. */
module Viewer {
  import opened Tiling
  import opened Frame
  import opened Worker
  import opened Controls

  /** The palette for bound `n`: entry i is the colour `swatch` gives i. */
  function Palette(swatch: int -> int, n: int): (r: seq<int>)
    requires n >= 0
    ensures |r| == n
  {
    seq(n, i => swatch(i))
  }

  /** The multi-core branch of a pass: `n` workers, worker i on the strip of
      columns [i * (WIDTH / n), (i + 1) * (WIDTH / n)), each run to the end
      before the next starts. On a black image this leaves exactly what the
      strip schedule renders. */
  method RunStrips(image: array2<int>, view: View, colors: array<int>, n: int)
    requires image.Length0 == WIDTH && image.Length1 == HEIGHT
    requires forall x, row :: 0 <= x < WIDTH && 0 <= row < HEIGHT ==> image[x, row] == 0
    requires n >= 1 && view.scale != 0.0 && view.maxIter <= colors.Length
    modifies image
    ensures forall x, row :: 0 <= x < WIDTH && 0 <= row < HEIGHT ==>
      image[x, row] == RenderedPixel(false, n, view, colors[..], x, row)
  {
    var width := WIDTH / n;
    ghost var palette := colors[..];
    var processes := new Process?[n];
    for i := 0 to n
      invariant colors[..] == palette
      invariant forall x, row :: 0 <= x < WIDTH && 0 <= row < HEIGHT ==>
        image[x, row] == if 0 <= x < i * width then PixelValue(view, palette, x, Flip(row)) else 0
    {
      var p := new Process(i * width, 0, width, HEIGHT, image);
      processes[i] := p;
      StripFits(WIDTH, HEIGHT, n, i);
      ghost var writes := p.Calculate(view, colors);
      forall x, row | 0 <= x < WIDTH && 0 <= row < HEIGHT
        ensures image[x, row] == if 0 <= x < (i + 1) * width then PixelValue(view, palette, x, Flip(row)) else 0
      {
        FlipBijective(row);
      }
    }
    forall x, row | 0 <= x < WIDTH && 0 <= row < HEIGHT
      ensures image[x, row] == RenderedPixel(false, n, view, palette, x, row)
    {
      StripsRendered(n, view, palette, x, row);
    }
  }

  class Mandelbrot {
    var maxIter: int
    var scale: real
    var xMin: real
    var yMin: real
    var processing: Processing
    /** The palette, one entry per iteration count below the bound. */
    var colors: array<int>
    /** The framebuffer of the last pass, indexed [x, row]. */
    var image: array2<int>
    /** The number of workers in multi-core mode. */
    const cpuCount: int
    /** The colour of palette entry i (hue i / 256, full saturation,
        brightness i / (i + 8), packed as RGB). */
    const swatch: int -> int

    /** The parameters the next pass reads. */
    ghost function State(): Settings
      reads this
    {
      Settings(maxIter, scale, xMin, yMin, processing)
    }

    /** The object invariant: at least one worker, a positive scale, and a
        palette regenerated for the current bound. */
    ghost predicate Valid()
      reads this, colors
    {
      cpuCount >= 1 && scale > 0.0 && maxIter >= 0 &&
      colors.Length == maxIter && colors[..] == Palette(swatch, maxIter)
    }

    /** The framebuffer holds what one pass over the current parameters
        produces. */
    ghost predicate Rendered()
      reads this, colors, image
      requires Valid()
    {
      image.Length0 == WIDTH && image.Length1 == HEIGHT &&
      forall x, row :: 0 <= x < WIDTH && 0 <= row < HEIGHT ==>
        image[x, row] == RenderedPixel(processing == SingleCore, cpuCount, State().View(), colors[..], x, row)
    }

    /** Starts in the home view, multi-core mode, with the palette for 50
        iterations and a first image rendered. */
    constructor (cpuCount: int, swatch: int -> int)
      requires cpuCount >= 1
      ensures Valid() && Aligned(State()) && Rendered()
      ensures State() == Initial()
      ensures this.cpuCount == cpuCount && this.swatch == swatch
    {
      this.cpuCount := cpuCount;
      this.swatch := swatch;
      maxIter := 50;
      scale := (HEIGHT / 4) as real;
      xMin := -(WIDTH as real) / ((HEIGHT / 4) as real) / 2.0;
      yMin := -2.0;
      processing := MultiCore;
      colors := new int[0];
      image := new int[0, 0];
      new;
      GenerateColors();
      Render();
    }

    /** Allocates a palette of exactly `maxIter` entries and fills every
        index. */
    method GenerateColors()
      requires maxIter >= 0
      modifies this`colors
      ensures fresh(colors) && colors.Length == maxIter
      ensures colors[..] == Palette(swatch, maxIter)
    {
      colors := new int[maxIter];
      for i := 0 to maxIter
        invariant fresh(colors) && colors.Length == maxIter
        invariant forall j :: 0 <= j < i ==> colors[j] == swatch(j)
      {
        colors[i] := swatch(i);
      }
    }

    /** One render pass into a fresh black image: one tile covering the image
        in single-core mode, `cpuCount` strips of width WIDTH / cpuCount in
        multi-core mode. */
    method Render()
      requires Valid()
      modifies this`image
      ensures Valid() && fresh(image) && Rendered()
    {
      image := new int[WIDTH, HEIGHT]((i, j) => 0);
      var view := View(xMin, yMin, scale, maxIter);
      ghost var palette := colors[..];
      if processing == SingleCore {
        var p := new Process(0, 0, WIDTH, HEIGHT, image);
        ghost var writes := p.Calculate(view, colors);
        forall x, row | 0 <= x < WIDTH && 0 <= row < HEIGHT
          ensures image[x, row] == RenderedPixel(true, cpuCount, view, palette, x, row)
        {
          SingleCoreComplete(cpuCount, view, palette, x, row);
        }
      } else {
        RunStrips(image, view, colors, cpuCount);
      }
    }

    /** Adds `iterations` to the bound, regenerates the palette and renders. */
    method IncreaseMaxIter(iterations: int)
      requires Valid() && maxIter + iterations >= 0
      modifies this
      ensures Valid() && fresh(colors) && fresh(image) && Rendered()
      ensures State() == old(State()).(maxIter := old(maxIter) + iterations)
    {
      maxIter := maxIter + iterations;
      GenerateColors();
      Render();
    }

    /** Restores the home view and the bound 50, regenerates the palette and
        renders; the worker mode is kept. */
    method Reset()
      requires Valid()
      modifies this
      ensures Valid() && fresh(colors) && fresh(image) && Rendered()
      ensures State() == Home(old(processing))
    {
      scale := (HEIGHT / 4) as real;
      xMin := -(WIDTH as real) / scale / 2.0;
      yMin := -2.0;
      maxIter := 50;
      GenerateColors();
      Render();
    }

    /** Moves the corner by the pressed position shifted by a third of the
        image, at the old scale, then grows the scale by half and renders. */
    method Zoom(xMouse: int, yMouse: int)
      requires Valid()
      modifies this
      ensures Valid() && colors == old(colors) && fresh(image) && Rendered()
      ensures State() == ZoomAt(old(State()), xMouse, yMouse)
    {
      var x := xMouse - WIDTH / 3;
      var y := yMouse + HEIGHT / 3;
      xMin := xMin + x as real / scale;
      yMin := -(y as real) / scale + HEIGHT as real / scale + yMin;
      scale := scale * 1.5;
      Render();
    }

    /** Dispatches a press at (x, y) by the first button hit: select a mode
        and render, reset, increase the bound, decrease it when positive, or
        zoom when no button is hit. The new parameters are those `Apply`
        gives for `ClickAction(x, y)`; a new image is rendered unless the
        press was a skipped decrease. */
    method MousePressed(x: int, y: int)
      requires Valid() && Aligned(State())
      modifies this
      ensures Valid() && Aligned(State())
      ensures State() == Apply(old(State()), ClickAction(x, y))
      ensures Renders(old(State()), ClickAction(x, y)) ==> fresh(image) && Rendered()
      ensures !Renders(old(State()), ClickAction(x, y)) ==> image == old(image) && colors == old(colors)
    {
      var mouse := Mouse(x, y);
      if mouse.Intersects(SingleCoreButton()) {
        processing := SingleCore;
        Render();
      } else if mouse.Intersects(MultiCoreButton()) {
        processing := MultiCore;
        Render();
      } else if mouse.Intersects(ResetButton()) {
        Reset();
      } else if mouse.Intersects(IncreaseMaxIterButton()) {
        IncreaseMaxIter(10);
      } else if mouse.Intersects(DecreaseMaxIterButton()) {
        if maxIter > 0 {
          IncreaseMaxIter(-10);
        }
      } else {
        Zoom(x, y);
      }
      ApplyAligned(old(State()), ClickAction(x, y));
    }
  }
}
