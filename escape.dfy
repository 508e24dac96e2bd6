/** The escape-time iteration of one pixel: z := z * z + c from z = 0,
    multiplied out over real and imaginary parts, counting steps until
    |z|^2 >= 4 or the iteration bound is reached. Arithmetic is exact
    (`real`), not IEEE double. */
module Escape {

  function Max(a: int, b: int): int {
    if a < b then b else a
  }

  /** The loop state: the current z and the number of steps taken. */
  datatype Orbit = Orbit(zx: real, zy: real, iteration: int)

  /** The state before the first step: z = 0, no steps taken. */
  const Start: Orbit := Orbit(0.0, 0.0, 0)

  /** |z|^2 of the loop state. */
  function Modulus2(o: Orbit): real {
    o.zx * o.zx + o.zy * o.zy
  }

  /** The loop's guard: z has not escaped and the bound is not reached. */
  predicate Continues(o: Orbit, maxIter: int) {
    Modulus2(o) < 4.0 && o.iteration < maxIter
  }

  /** One pass of the loop body: both parts are computed from the old z. */
  function Step(o: Orbit, cx: real, cy: real): Orbit {
    Orbit(o.zx * o.zx - o.zy * o.zy + cx, 2.0 * (o.zx * o.zy) + cy, o.iteration + 1)
  }

  /** The loop run to exit from state `o`. The count never passes the bound
      (unless it started past it), and an exit below the bound means z has
      escaped. */
  function Run(o: Orbit, cx: real, cy: real, maxIter: int): (r: Orbit)
    decreases maxIter - o.iteration
    ensures o.iteration <= r.iteration <= Max(o.iteration, maxIter)
    ensures r.iteration < maxIter ==> Modulus2(r) >= 4.0
    ensures !Continues(r, maxIter)
  {
    if Continues(o, maxIter) then Run(Step(o, cx, cy), cx, cy, maxIter) else o
  }

  /** The iteration count reached for c = (cx, cy). */
  function EscapeTime(cx: real, cy: real, maxIter: int): (n: int)
    ensures 0 <= n <= Max(0, maxIter)
  {
    Run(Start, cx, cy, maxIter).iteration
  }

  /** The escape loop as the worker runs it, with local `zx`, `zy` and a
      counter; it computes the count `EscapeTime` defines. */
  method EscapeIterations(cx: real, cy: real, maxIter: int) returns (iteration: int)
    ensures iteration == EscapeTime(cx, cy, maxIter)
    ensures 0 <= iteration && (iteration <= maxIter || iteration == 0)
  {
    var zx, zy := 0.0, 0.0;
    iteration := 0;
    while zx * zx + zy * zy < 4.0 && iteration < maxIter
      invariant 0 <= iteration
      invariant Run(Orbit(zx, zy, iteration), cx, cy, maxIter) == Run(Start, cx, cy, maxIter)
      decreases maxIter - iteration
    {
      Guard(zx, zy, iteration, maxIter);
      RunStep(Orbit(zx, zy, iteration), cx, cy, maxIter);
      StepParts(zx, zy, iteration, cx, cy);
      var xt := zx * zy;
      zx := zx * zx - zy * zy + cx;
      zy := 2.0 * xt + cy;
      iteration := iteration + 1;
    }
    Guard(zx, zy, iteration, maxIter);
    RunStops(Orbit(zx, zy, iteration), cx, cy, maxIter);
  }

  // Verifier aids for `EscapeIterations`: the four lemmas below only unfold
  // `Continues`, `Step` and `Run`; they state no property of the model.

  /** The loop's guard, written on the locals, is `Continues`. */
  lemma Guard(zx: real, zy: real, i: int, maxIter: int)
    ensures Continues(Orbit(zx, zy, i), maxIter) <==> zx * zx + zy * zy < 4.0 && i < maxIter
  {
  }

  /** The loop body, written on the locals, is `Step`. */
  lemma StepParts(zx: real, zy: real, i: int, cx: real, cy: real)
    ensures Step(Orbit(zx, zy, i), cx, cy) == Orbit(zx * zx - zy * zy + cx, 2.0 * (zx * zy) + cy, i + 1)
  {
    var re, im := zx * zx - zy * zy + cx, 2.0 * (zx * zy) + cy;
    assert Step(Orbit(zx, zy, i), cx, cy) == Orbit(re, im, i + 1);
  }

  /** One more pass of the loop leaves the final state unchanged. */
  lemma RunStep(o: Orbit, cx: real, cy: real, maxIter: int)
    requires Continues(o, maxIter)
    ensures Run(o, cx, cy, maxIter) == Run(Step(o, cx, cy), cx, cy, maxIter)
  {
  }

  /** A state where the guard fails is final. */
  lemma RunStops(o: Orbit, cx: real, cy: real, maxIter: int)
    requires !Continues(o, maxIter)
    ensures Run(o, cx, cy, maxIter) == o
  {
  }

  /** From z = 0 with c = 0, z stays 0 forever, so the loop runs up to the
      bound. */
  lemma {:induction false} OriginOrbit(i: int, maxIter: int)
    ensures Run(Orbit(0.0, 0.0, i), 0.0, 0.0, maxIter) == Orbit(0.0, 0.0, Max(i, maxIter))
    decreases maxIter - i
  {
    if i < maxIter {
      assert Step(Orbit(0.0, 0.0, i), 0.0, 0.0) == Orbit(0.0, 0.0, i + 1);
      OriginOrbit(i + 1, maxIter);
    }
  }

  /** The origin never escapes: its count is the bound itself. */
  lemma OriginNeverEscapes(maxIter: int)
    requires maxIter >= 0
    ensures EscapeTime(0.0, 0.0, maxIter) == maxIter
  {
    OriginOrbit(0, maxIter);
  }

  /** c = 2 reaches |z|^2 = 4 after one step and escapes with count 1. */
  lemma TwoEscapesAtOnce(maxIter: int)
    requires maxIter >= 1
    ensures EscapeTime(2.0, 0.0, maxIter) == 1
  {
    var o1 := Step(Start, 2.0, 0.0);
    assert o1 == Orbit(2.0, 0.0, 1);
    assert Run(o1, 2.0, 0.0, maxIter) == o1;
  }
}
