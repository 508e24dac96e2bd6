/** One worker of a render pass: it owns a tile and writes every pixel of
    that tile into the shared framebuffer. */
module Worker {
  import opened Tiling
  import opened Escape
  import opened Frame

  /** The colour of the pixel at column `x`, mathematical row `y`: the
      point it stands for, the escape loop from z = 0, and the palette
      lookup with black for a point that never escaped. */
  method PixelColor(view: View, colors: array<int>, x: int, y: int) returns (pixelColor: int)
    requires view.scale != 0.0 && view.maxIter <= colors.Length
    ensures pixelColor == PixelValue(view, colors[..], x, y)
  {
    var cx := view.xMin + x as real / view.scale;
    var cy := view.yMin + y as real / view.scale;
    var iteration := EscapeIterations(cx, cy, view.maxIter);
    pixelColor := if iteration < view.maxIter then colors[iteration] else 0;
  }

  class Process {
    const xStart: int
    const yStart: int
    const width: int
    const height: int
    /** The framebuffer shared by all workers of a pass, indexed [x, row]. */
    const image: array2<int>

    constructor (xStart: int, yStart: int, width: int, height: int, image: array2<int>)
      ensures this.xStart == xStart && this.yStart == yStart
      ensures this.width == width && this.height == height
      ensures this.image == image
    {
      this.xStart := xStart;
      this.yStart := yStart;
      this.width := width;
      this.height := height;
      this.image := image;
    }

    /** The pixels this worker is responsible for, in mathematical rows. */
    function Region(): Tile {
      Tile(xStart, yStart, width, height)
    }

    /** Pixel (i, y) of the tile is visited before column x, row yEnd by
        the loops of Calculate (columns outer, rows inner). */
    predicate Visited(i: int, y: int, x: int, yEnd: int) {
      yStart <= y < yStart + height && xStart <= i <= x && (i < x || y < yEnd)
    }

    /** Visiting row y of column x adds exactly pixel (x, y). */
    lemma VisitedNext(i: int, y': int, x: int, y: int)
      requires xStart <= x < xStart + width && yStart <= y < yStart + height
      ensures Visited(i, y', x, y + 1) <==> Visited(i, y', x, y) || (i == x && y' == y)
    {
    }

    /** Finishing the rows of column x is starting column x + 1. */
    lemma VisitedColumn(i: int, y': int, x: int, y: int)
      requires xStart <= x < xStart + width && yStart + height <= y
      ensures Visited(i, y', x, y) <==> Visited(i, y', x + 1, yStart)
    {
    }

    /** Colours every pixel of the tile: pixel (x, y) goes to image row
        Flip(y). Every other cell of the image keeps its value. The ghost
        `writes` counts the writes per cell: each cell of the tile is
        written exactly once, and no other cell is written. */
    method Calculate(view: View, colors: array<int>) returns (ghost writes: multiset<(int, int)>)
      requires image.Length0 == WIDTH && image.Length1 == HEIGHT
      requires Region().FitsIn(WIDTH, HEIGHT)
      requires view.scale != 0.0 && view.maxIter <= colors.Length
      modifies image
      ensures forall x, row :: 0 <= x < WIDTH && 0 <= row < HEIGHT ==>
        image[x, row] == if Region().Contains(x, Flip(row))
                         then PixelValue(view, colors[..], x, Flip(row))
                         else old(image[x, row])
      ensures forall x, row :: writes[(x, row)] == if Region().Contains(x, Flip(row)) then 1 else 0
    {
      ghost var palette := colors[..];
      writes := multiset{};
      var x := xStart;
      while x < xStart + width
        invariant xStart <= x && (x <= xStart + width || x == xStart)
        invariant forall i, row :: 0 <= i < WIDTH && 0 <= row < HEIGHT ==>
          image[i, row] == if Visited(i, Flip(row), x, yStart)
                           then PixelValue(view, palette, i, Flip(row))
                           else old(image[i, row])
        invariant forall i, row :: writes[(i, row)] == if Visited(i, Flip(row), x, yStart) then 1 else 0
      {
        var y := yStart;
        while y < yStart + height
          invariant yStart <= y && (y <= yStart + height || y == yStart)
          invariant forall i, row :: 0 <= i < WIDTH && 0 <= row < HEIGHT ==>
            image[i, row] == if Visited(i, Flip(row), x, y)
                             then PixelValue(view, palette, i, Flip(row))
                             else old(image[i, row])
          invariant forall i, row :: writes[(i, row)] == if Visited(i, Flip(row), x, y) then 1 else 0
        {
          var pixelColor := PixelColor(view, colors, x, y);
          var xPixel := x;
          var yPixel := HEIGHT - y - 1;
          FlipBijective(y);
          image[xPixel, yPixel] := pixelColor;
          writes := writes + multiset{(xPixel, yPixel)};
          forall i, row | 0 <= i < WIDTH && 0 <= row < HEIGHT
            ensures image[i, row] == if Visited(i, Flip(row), x, y + 1)
                                     then PixelValue(view, palette, i, Flip(row))
                                     else old(image[i, row])
          {
            VisitedNext(i, Flip(row), x, y);
            FlipBijective(row);
          }
          forall i, row ensures writes[(i, row)] == if Visited(i, Flip(row), x, y + 1) then 1 else 0 {
            VisitedNext(i, Flip(row), x, y);
            FlipBijective(row);
          }
          y := y + 1;
        }
        forall i, row ensures Visited(i, Flip(row), x, y) <==> Visited(i, Flip(row), x + 1, yStart) {
          VisitedColumn(i, Flip(row), x, y);
        }
        x := x + 1;
      }
    }
  }
}
