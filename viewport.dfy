/**
 * The arithmetic the annotator applies to the visible data-space window (panning
 * and zooming around the pointer) and to a dragged edge (clamping it between its
 * neighbours). Coordinates are exact reals.
 */
module Viewport {

  /** Scale applied to a scroll step to get the fraction of the window to zoom by. */
  const ZOOM_STEP_SCALE: real := 0.15
  /** Limit used for a dragged edge that has no previous annotation. */
  const NO_PREVIOUS_LIMIT: real := -1000000000.0
  /** Limit used for a dragged edge that has no next annotation. */
  const NO_NEXT_LIMIT: real := 1000000000.0

  /** A visible window `[lo, hi]` in data coordinates. */
  datatype Window = Window(lo: real, hi: real)

  function Width(w: Window): real
  {
    w.hi - w.lo
  }

  /** The viewport invariant: a non-empty window inside the data bounds. */
  predicate WithinData(w: Window, dataMin: real, dataMax: real)
  {
    dataMin <= w.lo < w.hi <= dataMax
  }

  /**
   * One pan step: the window shifted by `delta` when the shifted window stays
   * inside the data bounds, and the window unchanged otherwise (never a partial shift).
   */
  function Pan(w: Window, delta: real, dataMin: real, dataMax: real): (r: Window)
    ensures dataMin <= w.lo + delta && w.hi + delta <= dataMax ==> r == Window(w.lo + delta, w.hi + delta)
    ensures !(dataMin <= w.lo + delta && w.hi + delta <= dataMax) ==> r == w
    ensures Width(r) == Width(w)
  {
    var lo := w.lo + delta;
    var hi := w.hi + delta;
    if lo >= dataMin && hi <= dataMax then Window(lo, hi) else w
  }

  /** Panning keeps a valid window valid. */
  lemma PanPreservesViewport(w: Window, delta: real, dataMin: real, dataMax: real)
    requires WithinData(w, dataMin, dataMax)
    ensures WithinData(Pan(w, delta, dataMin, dataMax), dataMin, dataMax)
  {
  }

  /**
   * The window with its lower bound raised by `a` and its upper bound lowered
   * by `b`, then each bound clamped into the data independently.
   */
  function ShiftedClamp(w: Window, a: real, b: real, dataMin: real, dataMax: real): Window
  {
    Window(if w.lo + a > dataMin then w.lo + a else dataMin, if w.hi - b < dataMax then w.hi - b else dataMax)
  }

  /**
   * One scroll step around pointer `m`: each bound moves towards the pointer by
   * the fraction `step * ZOOM_STEP_SCALE` of its distance to it, and the lower
   * bound is then raised to the data minimum and the upper one lowered to the
   * data maximum, independently. The result never leaves the data bounds, and
   * a moved bound that is still inside the data is kept as it is.
   */
  function Zoom(w: Window, m: real, step: real, dataMin: real, dataMax: real): (r: Window)
    ensures dataMin <= r.lo && r.hi <= dataMax
    ensures r.lo == dataMin || r.lo == w.lo + step * ZOOM_STEP_SCALE * (m - w.lo)
    ensures r.hi == dataMax || r.hi == w.hi - step * ZOOM_STEP_SCALE * (w.hi - m)
    ensures dataMin <= w.lo + step * ZOOM_STEP_SCALE * (m - w.lo) ==> r.lo == w.lo + step * ZOOM_STEP_SCALE * (m - w.lo)
    ensures w.hi - step * ZOOM_STEP_SCALE * (w.hi - m) <= dataMax ==> r.hi == w.hi - step * ZOOM_STEP_SCALE * (w.hi - m)
  {
    ShiftedClamp(w, step * ZOOM_STEP_SCALE * (m - w.lo), step * ZOOM_STEP_SCALE * (w.hi - m), dataMin, dataMax)
  }

  /** A product of two non-negative reals is non-negative. */
  lemma MulNonNegative(a: real, b: real)
    requires a >= 0.0 && b >= 0.0
    ensures a * b >= 0.0
  {
  }

  /** A product of two positive reals is positive. */
  lemma MulPositive(a: real, b: real)
    requires a > 0.0 && b > 0.0
    ensures a * b > 0.0
  {
  }

  /** A fraction between 0 and 1 of a non-negative distance is between 0 and that distance. */
  lemma ScaleAtMost(k: real, x: real)
    requires 0.0 <= k <= 1.0 && x >= 0.0
    ensures 0.0 <= k * x <= x
  {
    MulNonNegative(k, x);
    MulNonNegative(1.0 - k, x);
    assert k * x + (1.0 - k) * x == x;
  }

  /** A positive fraction of two non-negative distances, not both zero, is positive in total. */
  lemma ScaledSumPositive(k: real, x: real, y: real)
    requires 0.0 < k && 0.0 <= x && 0.0 <= y && 0.0 < x + y
    ensures 0.0 < k * x + k * y
  {
    MulPositive(k, x + y);
    assert k * x + k * y == k * (x + y);
  }

  /**
   * The moves of a zoom-in step by fraction `k` for bounds at distances `x`
   * and `y` from the pointer: each move is no more than its distance, and the
   * total is positive when the fraction is positive and the distances are not
   * both zero.
   */
  lemma ZoomInMoves(k: real, x: real, y: real) returns (a: real, b: real)
    requires 0.0 <= k <= 1.0 && 0.0 <= x && 0.0 <= y
    ensures a == k * x && b == k * y
    ensures 0.0 <= a <= x && 0.0 <= b <= y
    ensures 0.0 < k && 0.0 < x + y ==> 0.0 < a + b
  {
    a, b := k * x, k * y;
    ScaleAtMost(k, x);
    ScaleAtMost(k, y);
    if 0.0 < k && 0.0 < x + y {
      ScaledSumPositive(k, x, y);
    }
  }

  /** A zoom step is the shifted clamp by the fraction of the pointer's distance to each bound. */
  lemma ZoomIsShiftedClamp(w: Window, m: real, step: real, a: real, b: real, dataMin: real, dataMax: real)
    requires a == step * ZOOM_STEP_SCALE * (m - w.lo) && b == step * ZOOM_STEP_SCALE * (w.hi - m)
    ensures Zoom(w, m, step, dataMin, dataMax) == ShiftedClamp(w, a, b, dataMin, dataMax)
  {
  }

  /**
   * A zoom-in step is a shifted clamp whose moves are bounded by the pointer's
   * distances to the bounds (and positive in total for a positive fraction).
   */
  lemma ZoomInIsBoundedShift(w: Window, m: real, step: real, dataMin: real, dataMax: real) returns (a: real, b: real)
    requires w.lo <= m <= w.hi && 0.0 <= step * ZOOM_STEP_SCALE <= 1.0
    ensures Zoom(w, m, step, dataMin, dataMax) == ShiftedClamp(w, a, b, dataMin, dataMax)
    ensures 0.0 <= a <= m - w.lo && 0.0 <= b <= w.hi - m
    ensures 0.0 < step * ZOOM_STEP_SCALE && w.lo < w.hi ==> 0.0 < a + b
  {
    a, b := ZoomInMoves(step * ZOOM_STEP_SCALE, m - w.lo, w.hi - m);
    ZoomIsShiftedClamp(w, m, step, a, b, dataMin, dataMax);
  }

  /**
   * Moving the bounds of a valid window towards an inner point by no more than
   * their distances to it, then clamping into the data, keeps the point inside
   * and never widens the window; it narrows the window whenever the moves are
   * not both zero.
   */
  lemma ShiftedClampKeepsPointer(w: Window, m: real, a: real, b: real, dataMin: real, dataMax: real)
    requires WithinData(w, dataMin, dataMax) && w.lo <= m <= w.hi
    requires 0.0 <= a <= m - w.lo && 0.0 <= b <= w.hi - m
    ensures var r := ShiftedClamp(w, a, b, dataMin, dataMax);
      && r.lo <= m <= r.hi && Width(r) <= Width(w)
      && (a + b > 0.0 ==> Width(r) < Width(w))
  {
  }

  /**
   * Zooming in (a fraction between 0 and 1) with the pointer inside a valid
   * window keeps the pointer visible and never widens the window.
   */
  lemma ZoomInKeepsPointer(w: Window, m: real, step: real, dataMin: real, dataMax: real)
    requires WithinData(w, dataMin, dataMax) && w.lo <= m <= w.hi
    requires 0.0 <= step * ZOOM_STEP_SCALE <= 1.0
    ensures var r := Zoom(w, m, step, dataMin, dataMax);
      r.lo <= m <= r.hi && Width(r) <= Width(w)
  {
    var a, b := ZoomInIsBoundedShift(w, m, step, dataMin, dataMax);
    ShiftedClampKeepsPointer(w, m, a, b, dataMin, dataMax);
  }

  /** A positive zoom-in step with the pointer inside a valid window makes the window strictly narrower. */
  lemma ZoomInNarrows(w: Window, m: real, step: real, dataMin: real, dataMax: real)
    requires WithinData(w, dataMin, dataMax) && w.lo <= m <= w.hi
    requires 0.0 < step * ZOOM_STEP_SCALE <= 1.0
    ensures Width(Zoom(w, m, step, dataMin, dataMax)) < Width(w)
  {
    var a, b := ZoomInIsBoundedShift(w, m, step, dataMin, dataMax);
    ShiftedClampKeepsPointer(w, m, a, b, dataMin, dataMax);
  }

  /**
   * Any zoom whose fraction is below 1 (every zoom out, and every zoom in that
   * does not collapse onto the pointer) keeps a valid window valid.
   */
  lemma ZoomPreservesViewport(w: Window, m: real, step: real, dataMin: real, dataMax: real)
    requires WithinData(w, dataMin, dataMax) && w.lo <= m <= w.hi
    requires step * ZOOM_STEP_SCALE < 1.0
    ensures WithinData(Zoom(w, m, step, dataMin, dataMax), dataMin, dataMax)
  {
    var k := step * ZOOM_STEP_SCALE;
    var lo := w.lo + k * (m - w.lo);
    var hi := w.hi - k * (w.hi - m);
    var shrink, below, above := 1.0 - k, m - w.lo, w.hi - m;
    assert m - lo == shrink * below;
    assert hi - m == shrink * above;
    MulNonNegative(shrink, below);
    MulNonNegative(shrink, above);
    if below == 0.0 {
      MulPositive(shrink, above);
      assert lo == m < hi && lo < dataMax;
    } else {
      MulPositive(shrink, below);
      assert lo < m <= hi && dataMin < hi;
    }
  }

  /**
   * The edge position a drag writes: the pointer, raised to the previous
   * neighbour's upper bound when below it, but lowered to the next neighbour's
   * lower bound whenever it exceeds that (the second test wins).
   */
  function NeighbourClamp(m: real, previousXMax: real, nextXMin: real): (r: real)
    ensures previousXMax <= nextXMin ==> previousXMax <= r <= nextXMin
    ensures previousXMax <= m <= nextXMin ==> r == m
    ensures r == m || r == previousXMax || r == nextXMin
  {
    if m > nextXMin then nextXMin else if m < previousXMax then previousXMax else m
  }

  /** Clamping an already clamped position changes nothing when the neighbours are in order. */
  lemma NeighbourClampIdempotent(m: real, previousXMax: real, nextXMin: real)
    requires previousXMax <= nextXMin
    ensures NeighbourClamp(NeighbourClamp(m, previousXMax, nextXMin), previousXMax, nextXMin)
         == NeighbourClamp(m, previousXMax, nextXMin)
  {
  }
}
