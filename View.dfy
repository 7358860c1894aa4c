/** The view state of the 3D visualisation (components/visualization-3d.tsx): the zoom factor
    and the rules that update it (mouse wheel, the zoom buttons, the two reset buttons and the
    one-shot auto-fit), the animation toggle, and the "values tend to infinity" flag that the
    surface pass sets. Every rule keeps the zoom inside [0.5, 3]. */
module View {
  import opened JsValues
  import opened Evaluation
  import opened SurfaceSampling

  /** The zoom range every update keeps to. */
  predicate InZoomRange(z: real) {
    0.5 <= z <= 3.0
  }

  /** The wheel multiplies by 0.9 when scrolling down (`deltaY > 0`) and by 1.1 otherwise,
      then clamps into [0.5, 3]. */
  function WheelZoom(prev: real, deltaY: real): (z: real)
    ensures InZoomRange(z)
    ensures deltaY > 0.0 && InZoomRange(prev * 0.9) ==> z == prev * 0.9
    ensures deltaY <= 0.0 && InZoomRange(prev * 1.1) ==> z == prev * 1.1
    ensures InZoomRange(prev) ==> (deltaY > 0.0 ==> z <= prev) && (deltaY <= 0.0 ==> z >= prev)
  {
    var delta := if deltaY > 0.0 then 0.9 else 1.1;
    MaxReal(0.5, MinReal(3.0, prev * delta))
  }

  /** The "zoom in" button: `× 1.2`, capped at 3 (no lower clamp). */
  function ZoomIn(prev: real): (z: real)
    ensures z <= 3.0
    ensures prev * 1.2 <= 3.0 ==> z == prev * 1.2
    ensures InZoomRange(prev) ==> InZoomRange(z) && z >= prev
  {
    MinReal(3.0, prev * 1.2)
  }

  /** The "zoom out" button: `× 0.8`, floored at 0.5 (no upper clamp). */
  function ZoomOut(prev: real): (z: real)
    ensures z >= 0.5
    ensures prev * 0.8 >= 0.5 ==> z == prev * 0.8
    ensures InZoomRange(prev) ==> InZoomRange(z) && z <= prev
  {
    MaxReal(0.5, prev * 0.8)
  }

  /** Both reset buttons put the zoom back to its initial value. */
  const ResetZoom: real := 1.2

  /** `Math.max(...) || 1`: an extent of 0 falls back to 1. */
  function OrOne(m: real): (r: real)
    ensures r != 0.0
    ensures m == 0.0 ==> r == 1.0
    ensures m != 0.0 ==> r == m
  {
    if m == 0.0 then 1.0 else m
  }

  /** `Math.min(targetZoomX, targetZoomY)`: the zoom at which the projected corners of the
      domain fill 45% of the canvas in the tighter axis, before clamping. */
  function UnclampedTarget(width: real, height: real, maxAbsX1: real, maxAbsY1: real): real {
    MinReal((width * 0.45) / (30.0 * OrOne(maxAbsX1)), (height * 0.45) / (30.0 * OrOne(maxAbsY1)))
  }

  /** The unclamped target already lies in [0.6, 2.2]. */
  predicate FitsInRange(width: real, height: real, maxAbsX1: real, maxAbsY1: real) {
    0.6 <= UnclampedTarget(width, height, maxAbsX1, maxAbsY1) <= 2.2
  }

  /** The auto-fit target: the zoom at which the projected corners of the domain fill 45% of
      the canvas in each axis (30 pixels per unit at zoom 1), the smaller of the two, clamped
      into [0.6, 2.2]. `maxAbsX1`/`maxAbsY1` are the largest projected corner coordinates. */
  function FitTarget(width: real, height: real, maxAbsX1: real, maxAbsY1: real): (t: real)
    ensures 0.6 <= t <= 2.2
    ensures FitsInRange(width, height, maxAbsX1, maxAbsY1) ==> t == UnclampedTarget(width, height, maxAbsX1, maxAbsY1)
    ensures UnclampedTarget(width, height, maxAbsX1, maxAbsY1) < 0.6 ==> t == 0.6
    ensures UnclampedTarget(width, height, maxAbsX1, maxAbsY1) > 2.2 ==> t == 2.2
  {
    MaxReal(0.6, MinReal(2.2, UnclampedTarget(width, height, maxAbsX1, maxAbsY1)))
  }

  /** Auto-fit moves to the target only when it is more than 0.08 away. */
  function FitZoom(zoom: real, target: real): (z: real)
    ensures z == zoom || z == target
    ensures -0.08 <= z - target <= 0.08
    ensures -0.08 <= zoom - target <= 0.08 ==> z == zoom
  {
    if Abs(target - zoom) > 0.08 then target else zoom
  }

  /** One zoom-changing user action or effect. */
  datatype Event =
    | Wheel(deltaY: real)
    | ZoomInButton
    | ZoomOutButton
    | ResetButton
    | AutoFitPass(width: real, height: real, maxAbsX1: real, maxAbsY1: real)

  /** The zoom after one event. */
  function Step(zoom: real, ev: Event): real {
    match ev
    case Wheel(deltaY) => WheelZoom(zoom, deltaY)
    case ZoomInButton => ZoomIn(zoom)
    case ZoomOutButton => ZoomOut(zoom)
    case ResetButton => ResetZoom
    case AutoFitPass(width, height, mx, my) => FitZoom(zoom, FitTarget(width, height, mx, my))
  }

  /** The zoom after a sequence of events. */
  function Replay(zoom: real, evs: seq<Event>): real
    decreases |evs|
  {
    if |evs| == 0 then zoom else Replay(Step(zoom, evs[0]), evs[1..])
  }

  /** Each event keeps the zoom inside [0.5, 3]. */
  lemma StepInRange(zoom: real, ev: Event)
    requires InZoomRange(zoom)
    ensures InZoomRange(Step(zoom, ev))
  {
    if ev.AutoFitPass? {
      var t := FitTarget(ev.width, ev.height, ev.maxAbsX1, ev.maxAbsY1);
      assert InZoomRange(t);
    }
  }

  /** Starting at the initial zoom 1.2, no sequence of events leaves [0.5, 3]. */
  lemma {:induction false} ReplayInRange(zoom: real, evs: seq<Event>)
    requires InZoomRange(zoom)
    ensures InZoomRange(Replay(zoom, evs))
    decreases |evs|
  {
    if |evs| > 0 {
      StepInRange(zoom, evs[0]);
      ReplayInRange(Step(zoom, evs[0]), evs[1..]);
    }
  }

  /** Zooming in and then out never ends further in than where it started. */
  lemma InThenOut(zoom: real)
    requires InZoomRange(zoom)
    ensures ZoomOut(ZoomIn(zoom)) <= zoom
  {
    assert ZoomIn(zoom) <= zoom * 1.2;
  }

  /** The wheel rule is monotone in the current zoom. */
  lemma WheelMonotone(p: real, q: real, deltaY: real)
    requires p <= q
    ensures WheelZoom(p, deltaY) <= WheelZoom(q, deltaY)
  {
    if deltaY > 0.0 {
      assert p * 0.9 <= q * 0.9;
    } else {
      assert p * 1.1 <= q * 1.1;
    }
  }

  /** A second auto-fit pass towards the same target changes nothing. */
  lemma FitIdempotent(zoom: real, target: real)
    ensures FitZoom(FitZoom(zoom, target), target) == FitZoom(zoom, target)
  {
  }

  /** The component's view state. */
  class Viewer {
    var zoom: real
    var isAnimating: bool
    var hasInfiniteValues: bool
    /** `autoFitDoneRef`: set once auto-fit has run for the current inputs. */
    var autoFitDone: bool

    /** Every reachable state has its zoom inside [0.5, 3]. */
    predicate Valid()
      reads this
    {
      InZoomRange(zoom)
    }

    /** The initial state: zoom 1.2, not animating, no warning, auto-fit pending. */
    constructor()
      ensures Valid()
      ensures zoom == 1.2 && !isAnimating && !hasInfiniteValues && !autoFitDone
    {
      zoom := ResetZoom;
      isAnimating := false;
      hasInfiniteValues := false;
      autoFitDone := false;
    }

    /** `wheelListener` / `handleWheel`. */
    method OnWheel(deltaY: real)
      modifies this
      ensures zoom == Step(old(zoom), Wheel(deltaY)) && Valid()
      ensures isAnimating == old(isAnimating) && hasInfiniteValues == old(hasInfiniteValues)
      ensures autoFitDone == old(autoFitDone)
    {
      var delta := if deltaY > 0.0 then 0.9 else 1.1;
      zoom := MaxReal(0.5, MinReal(3.0, zoom * delta));
    }

    /** The "zoom in" button. */
    method OnZoomIn()
      requires Valid()
      modifies this
      ensures zoom == Step(old(zoom), ZoomInButton) && Valid()
      ensures isAnimating == old(isAnimating) && hasInfiniteValues == old(hasInfiniteValues)
      ensures autoFitDone == old(autoFitDone)
    {
      zoom := MinReal(3.0, zoom * 1.2);
    }

    /** The "zoom out" button. */
    method OnZoomOut()
      requires Valid()
      modifies this
      ensures zoom == Step(old(zoom), ZoomOutButton) && Valid()
      ensures isAnimating == old(isAnimating) && hasInfiniteValues == old(hasInfiniteValues)
      ensures autoFitDone == old(autoFitDone)
    {
      zoom := MaxReal(0.5, zoom * 0.8);
    }

    /** Either reset button (the rotation they also set is not modelled). */
    method OnReset()
      modifies this
      ensures zoom == Step(old(zoom), ResetButton) && Valid()
      ensures isAnimating == old(isAnimating) && hasInfiniteValues == old(hasInfiniteValues)
      ensures autoFitDone == old(autoFitDone)
    {
      zoom := ResetZoom;
    }

    /** The play/pause button. */
    method OnToggleAnimation()
      modifies this
      ensures isAnimating == !old(isAnimating)
      ensures zoom == old(zoom) && hasInfiniteValues == old(hasInfiniteValues)
      ensures autoFitDone == old(autoFitDone)
    {
      isAnimating := !isAnimating;
    }

    /** The effect that re-arms auto-fit when the formula or the ranges change. */
    method OnInputsChanged()
      modifies this
      ensures !autoFitDone
      ensures zoom == old(zoom) && isAnimating == old(isAnimating)
      ensures hasInfiniteValues == old(hasInfiniteValues)
    {
      autoFitDone := false;
    }

    /** The auto-fit effect: once per set of inputs, move towards the fit target when it is
        more than 0.08 away, then mark auto-fit as done. */
    method AutoFit(width: real, height: real, maxAbsX1: real, maxAbsY1: real)
      requires Valid()
      modifies this
      ensures old(autoFitDone) ==> zoom == old(zoom)
      ensures !old(autoFitDone) ==> zoom == Step(old(zoom), AutoFitPass(width, height, maxAbsX1, maxAbsY1))
      ensures autoFitDone && Valid()
      ensures isAnimating == old(isAnimating) && hasInfiniteValues == old(hasInfiniteValues)
    {
      if autoFitDone {
        return;
      }
      var targetZoomX := (width * 0.45) / (30.0 * OrOne(maxAbsX1));
      var targetZoomY := (height * 0.45) / (30.0 * OrOne(maxAbsY1));
      var targetZoom := MinReal(targetZoomX, targetZoomY);
      targetZoom := MaxReal(0.6, MinReal(2.2, targetZoom));
      if Abs(targetZoom - zoom) > 0.08 {
        zoom := targetZoom;
      }
      autoFitDone := true;
    }

    /** `generateSurfaceData` on the component's own evaluator: samples the formula at the
        current zoom and animation state and sets the warning flag. With the wrapped
        evaluator no sample is ever non-finite, so the flag is always cleared. */
    method RefreshSurface(host: Host, expr: string, xMin: real, xMax: real, yMin: real, yMax: real)
      returns (surface: Surface)
      modifies this
      ensures var s := FormulaSampler(host, expr);
              var g := MakeGrid(xMin, xMax, yMin, yMax, Resolution(old(zoom), old(isAnimating)));
              surface == Surface(PointRows(s, g, Padded(Survey(Samples(s, g))), g.res + 1),
                                 Padded(Survey(Samples(s, g))).zLo, Padded(Survey(Samples(s, g))).zHi)
      ensures !hasInfiniteValues
      ensures zoom == old(zoom) && isAnimating == old(isAnimating) && autoFitDone == old(autoFitDone)
    {
      var s := FormulaSampler(host, expr);
      var flag;
      surface, flag := GenerateSurfaceData(s, zoom, isAnimating, xMin, xMax, yMin, yMax);
      var g := MakeGrid(xMin, xMax, yMin, yMax, Resolution(zoom, isAnimating));
      FormulaSurfaceExact(host, expr, g);
      hasInfiniteValues := flag;
    }
  }
}
