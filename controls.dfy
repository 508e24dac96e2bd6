/** The viewer's on-screen controls and the parameters they change: five
    button rectangles, the hit test a mouse press is dispatched by, and the
    effect of each action on the view parameters. */
module Controls {
  import opened Frame

  /** An AWT rectangle: top-left corner and size. */
  datatype Rect = Rect(x: int, y: int, w: int, h: int) {

    /** Point (px, py) lies inside the rectangle. */
    predicate Inside(px: int, py: int) {
      x <= px < x + w && y <= py < y + h
    }

    /** AWT's intersection test: both rectangles are non-empty and overlap
        on both axes. */
    predicate Intersects(r: Rect) {
      w > 0 && h > 0 && r.w > 0 && r.h > 0 &&
      r.x + r.w > x && r.y + r.h > y && x + w > r.x && y + h > r.y
    }
  }

  function SingleCoreButton(): Rect { Rect(20, 120, 115, 40) }
  function MultiCoreButton(): Rect { Rect(145, 120, 115, 40) }
  function DecreaseMaxIterButton(): Rect { Rect(20, 170, 115, 40) }
  function IncreaseMaxIterButton(): Rect { Rect(145, 170, 115, 40) }
  function ResetButton(): Rect { Rect(20, 220, 240, 40) }

  /** The five buttons, in the order they are drawn. */
  function Buttons(): seq<Rect> {
    [SingleCoreButton(), MultiCoreButton(), DecreaseMaxIterButton(), IncreaseMaxIterButton(), ResetButton()]
  }

  /** The one-pixel rectangle at the mouse position. */
  function Mouse(x: int, y: int): Rect {
    Rect(x, y, 1, 1)
  }

  /** A press hits a non-empty rectangle exactly when the pressed pixel lies
      inside it. */
  lemma HitIsInside(r: Rect, x: int, y: int)
    ensures Mouse(x, y).Intersects(r) <==> r.Inside(x, y)
  {
  }

  /** No pixel lies inside two different buttons. */
  lemma ButtonsDisjoint(i: int, j: int, x: int, y: int)
    requires 0 <= i < 5 && 0 <= j < 5 && i != j
    ensures !(Buttons()[i].Inside(x, y) && Buttons()[j].Inside(x, y))
  {
  }

  datatype Processing = SingleCore | MultiCore

  /** What a mouse press asks for. */
  datatype Action =
    | SelectSingleCore
    | SelectMultiCore
    | Reset
    | IncreaseMaxIter
    | DecreaseMaxIter
    | Zoom(x: int, y: int)

  /** The mouse-press dispatch: the first button hit decides, a press on no
      button zooms at the pressed pixel. */
  function ClickAction(x: int, y: int): Action {
    var mouse := Mouse(x, y);
    if mouse.Intersects(SingleCoreButton()) then SelectSingleCore
    else if mouse.Intersects(MultiCoreButton()) then SelectMultiCore
    else if mouse.Intersects(ResetButton()) then Reset
    else if mouse.Intersects(IncreaseMaxIterButton()) then IncreaseMaxIter
    else if mouse.Intersects(DecreaseMaxIterButton()) then DecreaseMaxIter
    else Zoom(x, y)
  }

  /** Each press triggers the action of the one button it lies inside, and
      a press outside all five zooms at the pressed pixel. */
  lemma {:induction false} ClickDispatch(x: int, y: int)
    ensures ClickAction(x, y) == SelectSingleCore <==> SingleCoreButton().Inside(x, y)
    ensures ClickAction(x, y) == SelectMultiCore <==> MultiCoreButton().Inside(x, y)
    ensures ClickAction(x, y) == Reset <==> ResetButton().Inside(x, y)
    ensures ClickAction(x, y) == IncreaseMaxIter <==> IncreaseMaxIterButton().Inside(x, y)
    ensures ClickAction(x, y) == DecreaseMaxIter <==> DecreaseMaxIterButton().Inside(x, y)
    ensures ClickAction(x, y) == Zoom(x, y) <==>
            !SingleCoreButton().Inside(x, y) && !MultiCoreButton().Inside(x, y) &&
            !DecreaseMaxIterButton().Inside(x, y) && !IncreaseMaxIterButton().Inside(x, y) &&
            !ResetButton().Inside(x, y)
  {
    HitIsInside(SingleCoreButton(), x, y);
    HitIsInside(MultiCoreButton(), x, y);
    HitIsInside(ResetButton(), x, y);
    HitIsInside(IncreaseMaxIterButton(), x, y);
    HitIsInside(DecreaseMaxIterButton(), x, y);
  }

  /** The parameters kept between render passes. */
  datatype Settings = Settings(maxIter: int, scale: real, xMin: real, yMin: real, processing: Processing) {

    /** The view one render pass reads. */
    function View(): View {
      Frame.View(xMin, yMin, scale, maxIter)
    }
  }

  /** The view the program starts in and returns to on reset: 270 pixels per
      unit, the real axis centred, the imaginary part from -2 at the top. */
  function Home(processing: Processing): (s: Settings)
    ensures s.scale > 0.0 && s.maxIter == 50
  {
    var scale := (HEIGHT / 4) as real;
    Settings(50, scale, -(WIDTH as real) / scale / 2.0, -2.0, processing)
  }

  /** The initial parameters: the home view in multi-core mode. */
  function Initial(): Settings {
    Home(MultiCore)
  }

  /** The zoom at mouse position (xMouse, yMouse): the new corner is offset
      from the old one by the pressed position shifted by a third of the
      image, at the old scale; then the scale grows by half. */
  function ZoomAt(s: Settings, xMouse: int, yMouse: int): (r: Settings)
    requires s.scale > 0.0
    ensures r.scale > s.scale && r.maxIter == s.maxIter && r.processing == s.processing
  {
    var x := xMouse - WIDTH / 3;
    var y := yMouse + HEIGHT / 3;
    s.(xMin := s.xMin + x as real / s.scale,
       yMin := -(y as real) / s.scale + HEIGHT as real / s.scale + s.yMin,
       scale := s.scale * 1.5)
  }

  /** Where the zoom puts the pressed point: the point shown at column
      xMouse is shown at column WIDTH / 2 afterwards, and the point shown at
      image row yMouse lies 538.5 mathematical rows above the bottom edge,
      half-way between image rows 540 and 541. */
  lemma ZoomCentres(s: Settings, xMouse: int, yMouse: int)
    requires s.scale > 0.0
    ensures Re(ZoomAt(s, xMouse, yMouse).View(), WIDTH / 2) == Re(s.View(), xMouse)
    ensures ZoomAt(s, xMouse, yMouse).yMin + 538.5 / ZoomAt(s, xMouse, yMouse).scale ==
            Im(s.View(), Flip(yMouse))
  {
    var k := s.scale;
    assert 960.0 / (k * 1.5) == 640.0 / k;
    assert 538.5 / (k * 1.5) == 359.0 / k;
    assert (xMouse - 640) as real / k + 640.0 / k == xMouse as real / k;
    assert -((yMouse + 360) as real) / k + 1080.0 / k + 359.0 / k == (1079 - yMouse) as real / k;
  }

  /** The parameters after an action. Decreasing is skipped when the bound
      is not positive. */
  function Apply(s: Settings, a: Action): Settings
    requires s.scale > 0.0
  {
    match a
    case SelectSingleCore => s.(processing := SingleCore)
    case SelectMultiCore => s.(processing := MultiCore)
    case Reset => Home(s.processing)
    case IncreaseMaxIter => s.(maxIter := s.maxIter + 10)
    case DecreaseMaxIter => if s.maxIter > 0 then s.(maxIter := s.maxIter - 10) else s
    case Zoom(x, y) => ZoomAt(s, x, y)
  }

  /** Whether an action starts a new render pass: all do, except a decrease
      that the guard skips. */
  predicate Renders(s: Settings, a: Action) {
    !(a == DecreaseMaxIter && s.maxIter <= 0)
  }

  /** The parameters after a run of actions. */
  function ApplyAll(s: Settings, actions: seq<Action>): Settings
    requires s.scale > 0.0
    decreases |actions|
  {
    if actions == [] then s
    else
      var t := Apply(s, actions[0]);
      ApplyAll(t, actions[1..])
  }

  /** The invariant the controls keep: a positive scale and an iteration
      bound that is a non-negative multiple of the step 10. */
  predicate Aligned(s: Settings) {
    s.scale > 0.0 && s.maxIter >= 0 && s.maxIter % 10 == 0
  }

  /** One action keeps the invariant; a decrease from a positive multiple of
      10 never goes below zero. */
  lemma ApplyAligned(s: Settings, a: Action)
    requires Aligned(s)
    ensures Aligned(Apply(s, a))
  {
  }

  /** Any run of presses from an aligned state keeps the bound a
      non-negative multiple of 10, so the palette is never allocated with a
      negative size. */
  lemma {:induction false} ApplyAllAligned(s: Settings, actions: seq<Action>)
    requires Aligned(s)
    ensures Aligned(ApplyAll(s, actions))
    decreases |actions|
  {
    if actions != [] {
      ApplyAligned(s, actions[0]);
      ApplyAllAligned(Apply(s, actions[0]), actions[1..]);
    }
  }

  /** Every state reachable from the start has a non-negative bound. */
  lemma ReachableBound(actions: seq<Action>)
    ensures ApplyAll(Initial(), actions).maxIter >= 0
    ensures ApplyAll(Initial(), actions).maxIter % 10 == 0
  {
    ApplyAllAligned(Initial(), actions);
  }

  /** Decreasing clamps at zero: on aligned states it is a subtraction of
      10 floored at 0. */
  lemma DecreaseClamps(s: Settings)
    requires Aligned(s)
    ensures Apply(s, DecreaseMaxIter).maxIter == if s.maxIter >= 10 then s.maxIter - 10 else 0
  {
  }

  /** Reset restores the bound to 50 and the home view, keeps the worker
      mode, and resetting twice is resetting once. */
  lemma ResetIdempotent(s: Settings)
    requires s.scale > 0.0
    ensures Apply(s, Reset).maxIter == 50 && Apply(s, Reset).processing == s.processing
    ensures Apply(s, Reset) == Home(s.processing)
    ensures Apply(Apply(s, Reset), Reset) == Apply(s, Reset)
  {
  }

  /** Selecting a worker mode changes the mode and nothing else. */
  lemma SelectChangesOnlyMode(s: Settings, a: Action)
    requires s.scale > 0.0 && (a == SelectSingleCore || a == SelectMultiCore)
    ensures Apply(s, a).processing == (if a == SelectSingleCore then SingleCore else MultiCore)
    ensures Apply(s, a).(processing := s.processing) == s
  {
  }

  /** Zooming multiplies the scale by 1.5 and keeps the bound and mode. */
  lemma ZoomScales(s: Settings, x: int, y: int)
    requires s.scale > 0.0
    ensures Apply(s, Zoom(x, y)).scale == s.scale * 1.5
    ensures Apply(s, Zoom(x, y)).maxIter == s.maxIter
  {
  }
}
