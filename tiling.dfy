/** Work units of one render pass: rectangular tiles of the image and the
    two schedules the viewer uses (one whole-image tile, or vertical strips). */
module Tiling {

  /** The region one worker computes: columns [xStart, xStart + width) and
      rows [yStart, yStart + height), in unflipped (mathematical) row order. */
  datatype Tile = Tile(xStart: int, yStart: int, width: int, height: int) {

    predicate Contains(x: int, y: int) {
      xStart <= x < xStart + width && yStart <= y < yStart + height
    }

    /** Every pixel the tile asks for lies in a `w` by `h` image (an empty
        tile asks for none, wherever it sits). */
    predicate FitsIn(w: int, h: int) {
      width <= 0 || height <= 0 ||
      (0 <= xStart && xStart + width <= w && 0 <= yStart && yStart + height <= h)
    }
  }

  /** The single-core schedule's one tile. */
  function WholeImage(w: nat, h: nat): Tile {
    Tile(0, 0, w, h)
  }

  /** The multi-core schedule: `n` strips, all `w / n` columns wide and full
      height; strip `i` starts at column `i * (w / n)`. The `w % n` columns
      left over at the right are given to no strip. */
  function Strips(w: nat, h: nat, n: int): (r: seq<Tile>)
    requires n >= 1
    ensures |r| == n
  {
    seq(n, i => Tile(i * (w / n), 0, w / n, h))
  }

  /** The tiles one render pass uses, by worker mode. */
  function Schedule(singleCore: bool, w: nat, h: nat, n: int): (r: seq<Tile>)
    requires n >= 1
    ensures |r| == if singleCore then 1 else n
  {
    if singleCore then [WholeImage(w, h)] else Strips(w, h, n)
  }

  /** Some tile of `tiles` contains pixel (x, y). */
  predicate Covered(tiles: seq<Tile>, x: int, y: int) {
    exists k :: 0 <= k < |tiles| && tiles[k].Contains(x, y)
  }

  lemma MulMonotone(a: int, b: int, c: nat)
    requires a <= b
    ensures a * c <= b * c
  {
  }

  /** n * (w / n) never exceeds w. */
  lemma StripsTotalWidth(w: nat, n: int)
    requires n >= 1
    ensures 0 <= n * (w / n) <= w
    ensures w - n * (w / n) == w % n
  {
  }

  /** Strip `i` is exactly the columns [i * (w / n), (i + 1) * (w / n)) at
      full height. */
  lemma StripColumns(w: nat, h: nat, n: int, i: int, x: int, y: int)
    requires n >= 1 && 0 <= i < n
    ensures Strips(w, h, n)[i].Contains(x, y) <==>
            i * (w / n) <= x < (i + 1) * (w / n) && 0 <= y < h
  {
    assert i * (w / n) + w / n == (i + 1) * (w / n);
  }

  /** Every strip lies inside the image. */
  lemma {:induction false} StripFits(w: nat, h: nat, n: int, i: int)
    requires n >= 1 && 0 <= i < n
    ensures Strips(w, h, n)[i] == Tile(i * (w / n), 0, w / n, h)
    ensures 0 <= i * (w / n) && i * (w / n) + w / n == (i + 1) * (w / n) <= w
    ensures Strips(w, h, n)[i].FitsIn(w, h)
  {
    var q := w / n;
    MulMonotone(i + 1, n, q);
    StripsTotalWidth(w, n);
    assert i * q + q == (i + 1) * q;
    assert 0 <= i * q;
  }

  /** Two distinct strips share no pixel. */
  lemma {:induction false} StripsDisjoint(w: nat, h: nat, n: int, i: int, j: int, x: int, y: int)
    requires n >= 1 && 0 <= i < n && 0 <= j < n && i != j
    ensures !(Strips(w, h, n)[i].Contains(x, y) && Strips(w, h, n)[j].Contains(x, y))
  {
    var q := w / n;
    StripColumns(w, h, n, i, x, y);
    StripColumns(w, h, n, j, x, y);
    if i < j {
      MulMonotone(i + 1, j, q);
    } else {
      MulMonotone(j + 1, i, q);
    }
  }

  /** Column `x` lies in the strip of index x / q. */
  lemma DivStrip(x: nat, q: int)
    requires q > 0
    ensures (x / q) * q <= x < (x / q + 1) * q
  {
    assert x == (x / q) * q + x % q;
    assert (x / q + 1) * q == (x / q) * q + q;
  }

  /** A pixel in some strip lies in [0, n * (w / n)) at full height. */
  lemma {:induction false} CoveredInside(w: nat, h: nat, n: int, x: int, y: int)
    requires n >= 1 && Covered(Strips(w, h, n), x, y)
    ensures 0 <= x < n * (w / n) && 0 <= y < h
  {
    var k :| 0 <= k < n && Strips(w, h, n)[k].Contains(x, y);
    StripFits(w, h, n, k);
    MulMonotone(k + 1, n, w / n);
  }

  /** Every pixel in [0, n * (w / n)) at full height lies in some strip. */
  lemma {:induction false} InsideCovered(w: nat, h: nat, n: int, x: int, y: int)
    requires n >= 1 && 0 <= x < n * (w / n) && 0 <= y < h
    ensures Covered(Strips(w, h, n), x, y)
  {
    var q := w / n;
    assert q > 0;
    var k := x / q;
    DivStrip(x, q);
    if k >= n {
      MulMonotone(n, k, q);
      assert false;
    }
    StripColumns(w, h, n, k, x, y);
    assert Strips(w, h, n)[k].Contains(x, y);
  }

  /** The strips together cover exactly the columns [0, n * (w / n)) at full
      height: nothing outside, nothing missing inside. */
  lemma {:induction false} StripsCover(w: nat, h: nat, n: int, x: int, y: int)
    requires n >= 1
    ensures Covered(Strips(w, h, n), x, y) <==> 0 <= x < n * (w / n) && 0 <= y < h
  {
    if Covered(Strips(w, h, n), x, y) {
      CoveredInside(w, h, n, x, y);
    }
    if 0 <= x < n * (w / n) && 0 <= y < h {
      InsideCovered(w, h, n, x, y);
    }
  }

  /** The last `w % n` columns belong to no strip. */
  lemma RemainderUncovered(w: nat, h: nat, n: int, x: int, y: int)
    requires n >= 1 && w - w % n <= x
    ensures !Covered(Strips(w, h, n), x, y)
  {
    StripsTotalWidth(w, n);
    StripsCover(w, h, n, x, y);
  }

  /** When `n` divides `w` the strips cover the whole image. */
  lemma StripsExactWhenDivisible(w: nat, h: nat, n: int, x: int, y: int)
    requires n >= 1 && w % n == 0
    ensures Covered(Strips(w, h, n), x, y) <==> 0 <= x < w && 0 <= y < h
  {
    StripsTotalWidth(w, n);
    StripsCover(w, h, n, x, y);
  }

  /** The whole-image tile covers exactly the image. */
  lemma WholeImageCover(w: nat, h: nat, x: int, y: int)
    ensures Covered([WholeImage(w, h)], x, y) <==> 0 <= x < w && 0 <= y < h
  {
    if 0 <= x < w && 0 <= y < h {
      assert [WholeImage(w, h)][0].Contains(x, y);
    }
  }
}
