/**
 * What each event handler of the annotator does to its list of annotations,
 * stated as functions on annotation records. The handlers of the `Annotator`
 * module are proved to produce exactly these lists; the lemmas here say what
 * the lists mean.
 */
module AnnotatorSteps {
  import opened Wrappers
  import opened Annotations
  import opened Viewport
  import opened AnnotationLists

  /** The interaction mode. */
  datatype GUIState = Idle | NewArea | MovingArea | MovingEdge | Panning

  /** The keys the key handler tells apart; every other key leaves the state as it is. */
  datatype Key = Delete | OtherKey

  const MINIMUM_NEW_AREA_WIDTH_PIXELS: real := 5.0

  /** Bounds a new area is created with on the vertical axis. */
  const NEW_AREA_Y_MIN: real := -1.0
  const NEW_AREA_Y_MAX: real := 2.0

  /**
   * The pixel box the renderer reports (`get_extents`) for a rectangle with
   * data-space left edge `x` and width `w` under the current view.
   */
  type Renderer = (real, real) -> Extents

  /**
   * The pixel box of an annotation's rectangle. It is keyed by the rectangle's
   * own `x` and width, not by the bounds: after an area move the rectangle has
   * not been redrawn, so hover and width tests still see its old place.
   */
  function BoxOf(r: AnnotationRecord, box: Renderer): Extents
  {
    box(r.rectX, r.rectWidth)
  }

  // ------------------------------------------------------------------
  // Press
  // ------------------------------------------------------------------

  /** The list after every annotation has been deselected: only the two selection flags change. */
  function DeselectAll(rs: seq<AnnotationRecord>): (r: seq<AnnotationRecord>)
    ensures |r| == |rs|
    ensures forall k :: 0 <= k < |r| ==> !r[k].flags.active && !r[k].flags.selected
    ensures forall k :: 0 <= k < |r| ==> r[k] == rs[k].(flags := rs[k].flags.(active := false, selected := false))
  {
    seq(|rs|, k requires 0 <= k < |rs| => rs[k].Deselected())
  }

  /**
   * The press hit test of the body: `is_hovering(x=m, y=0)`. The vertical
   * coordinate is fixed at 0, so the test hits exactly when the pointer is
   * between the bounds and 0 is inside the vertical span.
   */
  predicate HitAt(r: AnnotationRecord, m: real)
    ensures HitAt(r, m) <==> r.xMin <= m <= r.xMax && r.yMin <= 0.0 <= r.yMax
  {
    r.IsHovering(Some(m), Some(0.0))
  }

  /**
   * One pass of the press loop over one annotation, in mode `st`: arm the
   * hovered edges; grab an edge-hovered annotation and enter MovingEdge; then,
   * if the mode is still Idle and the pointer is inside, grab it and enter
   * MovingArea. The loop has no early exit.
   */
  function PressStep(st: GUIState, r: AnnotationRecord, m: real): (GUIState, AnnotationRecord)
  {
    var armed := r.EdgesArmed();
    var (st2, r2) := if armed.IsEdgeHovering() then (MovingEdge, armed.Activated(m)) else (st, armed);
    if st2 == Idle && HitAt(r2, m) then (MovingArea, r2.Activated(m)) else (st2, r2)
  }

  /** The mode after one pass: an edge grab wins; otherwise an Idle pass over a hit grabs the area. */
  lemma PressStepMode(st: GUIState, r: AnnotationRecord, m: real)
    ensures PressStep(st, r, m).0 ==
      if r.IsEdgeHovering() then MovingEdge else if st == Idle && HitAt(r, m) then MovingArea else st
  {
  }

  /** The record after one pass: its hovered edges armed, and grabbed at `m` when the pass grabs it. */
  lemma PressStepRecord(st: GUIState, r: AnnotationRecord, m: real)
    ensures PressStep(st, r, m).1 ==
      if r.IsEdgeHovering() || (st == Idle && HitAt(r, m)) then r.EdgesArmed().Activated(m) else r.EdgesArmed()
  {
  }

  /**
   * One pass of the press loop: the mode can only become MovingEdge, or
   * MovingArea from Idle; an edge-hovered annotation always gives MovingEdge
   * and is grabbed; a pass that changes the mode grabs the annotation at `m`;
   * hovered edges are armed and armed ones stay armed; bounds and rectangle
   * never change.
   */
  lemma PressStepShape(st: GUIState, r: AnnotationRecord, m: real)
    ensures var p := PressStep(st, r, m);
      && (p.0 == st || p.0 == MovingEdge || (p.0 == MovingArea && st == Idle))
      && (r.IsEdgeHovering() ==> p.0 == MovingEdge && p.1.flags.active)
      && (p.0 != st ==> p.1.flags.active && p.1.flags.selected && p.1.mouseOffsetXMin == r.xMin - m)
      && p.1.left.active == (r.left.active || r.left.hovering) && p.1.right.active == (r.right.active || r.right.hovering)
      && p.1.xMin == r.xMin && p.1.xMax == r.xMax && p.1.hasHandle == r.hasHandle
      && p.1.rectX == r.rectX && p.1.rectWidth == r.rectWidth
  {
  }

  /** The press loop over a whole list: the final mode and the new records, in order. */
  function PressScan(st: GUIState, rs: seq<AnnotationRecord>, m: real): (r: (GUIState, seq<AnnotationRecord>))
    ensures |r.1| == |rs|
    ensures r.0 == st || r.0 == MovingEdge || r.0 == MovingArea
    decreases |rs|
  {
    if rs == [] then (st, [])
    else
      var p := PressScan(st, rs[..|rs| - 1], m);
      var q := PressStep(p.0, rs[|rs| - 1], m);
      (q.0, p.1 + [q.1])
  }

  /** No annotation before position `n` is edge-hovered or under the pointer. */
  ghost predicate NothingHitBefore(rs: seq<AnnotationRecord>, m: real, n: int)
  {
    forall j :: 0 <= j < n && j < |rs| ==> !rs[j].IsEdgeHovering() && !HitAt(rs[j], m)
  }

  /**
   * The mode a press scan starting in Idle ends in: MovingEdge exactly when
   * some annotation is edge-hovered (an edge grab later in the list overrides
   * an earlier area grab), otherwise MovingArea exactly when the pointer is
   * inside some annotation, otherwise Idle.
   */
  lemma {:induction false} PressScanMode(rs: seq<AnnotationRecord>, m: real)
    ensures PressScan(Idle, rs, m).0 == MovingEdge <==> exists k :: 0 <= k < |rs| && rs[k].IsEdgeHovering()
    ensures PressScan(Idle, rs, m).0 == MovingArea <==>
      (forall k :: 0 <= k < |rs| ==> !rs[k].IsEdgeHovering()) && exists k :: 0 <= k < |rs| && HitAt(rs[k], m)
    ensures PressScan(Idle, rs, m).0 == Idle <==> NothingHitBefore(rs, m, |rs|)
    decreases |rs|
  {
    if rs != [] {
      var init, last := rs[..|rs| - 1], rs[|rs| - 1];
      PressScanMode(init, m);
      PressStepMode(PressScan(Idle, init, m).0, last, m);
      assert forall k :: 0 <= k < |init| ==> init[k] == rs[k];
    }
  }

  /**
   * The record the press scan leaves for annotation `k`: its hovered edges armed,
   * and grabbed at `m` exactly when it is edge-hovered or it is the first
   * annotation under the pointer with nothing edge-hovered or hit before it.
   */
  lemma {:induction false} PressScanRecord(rs: seq<AnnotationRecord>, m: real, k: nat)
    requires k < |rs|
    ensures PressScan(Idle, rs, m).1[k] ==
      if rs[k].IsEdgeHovering() || (HitAt(rs[k], m) && NothingHitBefore(rs, m, k))
      then rs[k].EdgesArmed().Activated(m)
      else rs[k].EdgesArmed()
    decreases |rs|
  {
    var init, last := rs[..|rs| - 1], rs[|rs| - 1];
    assert forall j :: 0 <= j < |init| ==> init[j] == rs[j];
    if k < |init| {
      PressScanRecord(init, m, k);
      assert NothingHitBefore(init, m, k) == NothingHitBefore(rs, m, k);
    } else {
      PressScanMode(init, m);
      PressStepRecord(PressScan(Idle, init, m).0, last, m);
      assert NothingHitBefore(init, m, |init|) == NothingHitBefore(rs, m, k);
    }
  }

  /** A press that hits nothing changes no record. */
  lemma PressScanMissChangesNothing(rs: seq<AnnotationRecord>, m: real)
    requires NothingHitBefore(rs, m, |rs|)
    ensures PressScan(Idle, rs, m) == (Idle, rs)
  {
    PressScanMode(rs, m);
    forall k | 0 <= k < |rs| ensures PressScan(Idle, rs, m).1[k] == rs[k] {
      PressScanRecord(rs, m, k);
    }
    assert PressScan(Idle, rs, m).1 == rs;
  }

  /** At most one annotation is grabbed by its body rather than by an edge. */
  lemma PressGrabsAtMostOneArea(rs: seq<AnnotationRecord>, m: real, i: nat, j: nat)
    requires i < |rs| && j < |rs|
    requires HitAt(rs[i], m) && NothingHitBefore(rs, m, i)
    requires HitAt(rs[j], m) && NothingHitBefore(rs, m, j)
    ensures i == j
  {
  }

  /**
   * The scan after a deselect: an annotation ends up active exactly when it was
   * grabbed, the scan never changes a bound or a rectangle, and a scan that
   * grabs by the body grabs exactly one annotation.
   */
  lemma PressScanActive(rs: seq<AnnotationRecord>, m: real)
    requires forall k :: 0 <= k < |rs| ==> !rs[k].flags.active
    ensures var out := PressScan(Idle, rs, m).1;
      forall k :: 0 <= k < |rs| ==>
        && (out[k].flags.active <==> rs[k].IsEdgeHovering() || (HitAt(rs[k], m) && NothingHitBefore(rs, m, k)))
        && out[k].xMin == rs[k].xMin && out[k].xMax == rs[k].xMax && out[k].hasHandle == rs[k].hasHandle
    ensures PressScan(Idle, rs, m).0 == MovingArea ==> AtMostOneActive(PressScan(Idle, rs, m).1)
  {
    var out := PressScan(Idle, rs, m).1;
    forall k | 0 <= k < |rs|
      ensures (out[k].flags.active <==> rs[k].IsEdgeHovering() || (HitAt(rs[k], m) && NothingHitBefore(rs, m, k)))
      ensures out[k].xMin == rs[k].xMin && out[k].xMax == rs[k].xMax && out[k].hasHandle == rs[k].hasHandle
    {
      PressScanRecord(rs, m, k);
    }
    PressScanMode(rs, m);
  }

  /**
   * The record of the area a left press on empty space creates: an annotation
   * at the pointer with the vertical span of new areas and the default
   * margins, given a rectangle, grabbed at the pointer, and with its right edge
   * armed so that the drag that follows moves the upper bound.
   */
  function NewAreaRecord(m: real): (r: AnnotationRecord)
    ensures r.xMin == m && r.xMax == m && r.yMin == NEW_AREA_Y_MIN && r.yMax == NEW_AREA_Y_MAX
    ensures r.hasHandle && r.attachedToAxis && r.RectMatchesBounds()
    ensures r.flags.active && r.flags.selected && r.mouseOffsetXMin == 0.0
    ensures r.right.active && !r.left.active
    ensures r.edgeGrabMarginX == DEFAULT_EDGE_GRAB_MARGIN && r.edgeGrabMarginY == DEFAULT_EDGE_GRAB_MARGIN
  {
    NewRecord(m, m, NEW_AREA_Y_MIN, NEW_AREA_Y_MAX, DEFAULT_EDGE_GRAB_MARGIN, DEFAULT_EDGE_GRAB_MARGIN)
      .Attached().Activated(m).(right := EdgeFlags(false, true))
  }

  /**
   * The new area is under the pointer that created it, centred on it, of zero
   * width, and not edge-hovered until the next pointer move refreshes its flags.
   */
  lemma NewAreaRecordFields(m: real)
    ensures var r := NewAreaRecord(m);
      && HitAt(r, m) && r.XCentre() == m && r.RectWidth() == 0.0
      && !r.IsEdgeHovering()
  {
  }

  /**
   * The list and mode after a press, given the mode before it, the list before
   * it, the button flags after the press has updated them, and the pointer. Every
   * annotation is first deselected. A left press in Idle on the axes runs the
   * press scan; when that grabs nothing a new area at the pointer is added and
   * the list is re-sorted. Otherwise a right press in Idle on the axes starts a
   * pan. In every other case only the deselection happens.
   */
  function PressOutcome(st: GUIState, rs: seq<AnnotationRecord>, leftDown: bool, rightDown: bool, mouseX: Option<real>): (GUIState, seq<AnnotationRecord>)
  {
    var cleared := DeselectAll(rs);
    if st == Idle && leftDown && mouseX.Some? then LeftPressOutcome(cleared, mouseX.value)
    else if st == Idle && rightDown && mouseX.Some? then (Panning, cleared)
    else (st, cleared)
  }

  /** The left-press branch in Idle: the press scan, and a new area at the pointer, re-sorted in, when the scan grabs nothing. */
  function LeftPressOutcome(cleared: seq<AnnotationRecord>, m: real): (GUIState, seq<AnnotationRecord>)
  {
    var scan := PressScan(Idle, cleared, m);
    if scan.0 == Idle then (NewArea, SortByXMin(scan.1 + [NewAreaRecord(m)])) else scan
  }

  /**
   * The left-press branch ends in NewArea, MovingEdge or MovingArea. In NewArea
   * the list is the scanned list plus the new area, as a multiset, and sorted;
   * otherwise the list keeps its length.
   */
  lemma LeftPressOutcomeShape(cleared: seq<AnnotationRecord>, m: real)
    ensures var r := LeftPressOutcome(cleared, m);
      && (r.0 == NewArea || r.0 == MovingEdge || r.0 == MovingArea)
      && (r.0 == NewArea ==> multiset(r.1) == multiset(PressScan(Idle, cleared, m).1) + multiset{NewAreaRecord(m)})
      && (r.0 == NewArea ==> SortedByXMin(r.1) && NewAreaRecord(m) in r.1)
      && (r.0 != NewArea ==> |r.1| == |cleared|)
  {
    var scan := PressScan(Idle, cleared, m);
    if scan.0 == Idle {
      var added := scan.1 + [NewAreaRecord(m)];
      assert NewAreaRecord(m) in multiset(added);
    }
  }

  /**
   * What any press does: the mode changes only from Idle with a pointer on the
   * axes; when it does not change, the list is only deselected; a pan starts
   * only on a right press and only deselects; a new area, created only on a
   * left press, adds exactly one annotation, the new area; every other press
   * keeps the length of the list.
   */
  lemma PressOutcomeShape(st: GUIState, rs: seq<AnnotationRecord>, leftDown: bool, rightDown: bool, mouseX: Option<real>)
    ensures var r := PressOutcome(st, rs, leftDown, rightDown, mouseX);
      && (r.0 != st ==> st == Idle && mouseX.Some?)
      && (r.0 == st ==> r.1 == DeselectAll(rs))
      && (r.0 == Panning && st == Idle ==> r.1 == DeselectAll(rs) && rightDown)
      && (r.0 == NewArea && st == Idle ==> |r.1| == |rs| + 1 && leftDown && NewAreaRecord(mouseX.value) in r.1)
      && (!(r.0 == NewArea && st == Idle) ==> |r.1| == |rs|)
  {
    if st == Idle && leftDown && mouseX.Some? {
      LeftPressOutcomeShape(DeselectAll(rs), mouseX.value);
    }
  }

  /** A press without a pointer position, or in any mode but Idle, only deselects. */
  lemma PressWithoutPointerOnlyDeselects(st: GUIState, rs: seq<AnnotationRecord>, leftDown: bool, rightDown: bool, mouseX: Option<real>)
    requires mouseX.None? || st != Idle
    ensures PressOutcome(st, rs, leftDown, rightDown, mouseX) == (st, DeselectAll(rs))
  {
  }

  /** A right press in Idle on the axes, with the left button up, enters Panning and only deselects. */
  lemma RightPressStartsPan(rs: seq<AnnotationRecord>, m: real)
    ensures PressOutcome(Idle, rs, false, true, Some(m)) == (Panning, DeselectAll(rs))
  {
  }

  /** A left press in Idle on empty space enters NewArea with the new area added to the deselected list, which is re-sorted. */
  lemma LeftPressOnEmptySpaceCreatesArea(rs: seq<AnnotationRecord>, rightDown: bool, m: real)
    requires NothingHitBefore(DeselectAll(rs), m, |rs|)
    ensures PressOutcome(Idle, rs, true, rightDown, Some(m)) == (NewArea, SortByXMin(DeselectAll(rs) + [NewAreaRecord(m)]))
  {
    PressScanMissChangesNothing(DeselectAll(rs), m);
  }

  /**
   * Adding the new area to a list with nothing active and re-sorting: the list
   * gains exactly that one annotation, is sorted, and the new area is its only
   * active annotation.
   */
  lemma NewAreaListFacts(cleared: seq<AnnotationRecord>, m: real)
    requires forall k :: 0 <= k < |cleared| ==> !cleared[k].flags.active
    ensures var r := SortByXMin(cleared + [NewAreaRecord(m)]);
      && multiset(r) == multiset(cleared) + multiset{NewAreaRecord(m)}
      && SortedByXMin(r)
      && AtMostOneActive(r)
      && (forall k :: 0 <= k < |r| && r[k].flags.active ==> r[k] == NewAreaRecord(m))
      && (AllAttached(cleared) ==> AllAttached(r))
  {
    var u := cleared + [NewAreaRecord(m)];
    var r := SortByXMin(u);
    assert forall k :: 0 <= k < |cleared| ==> u[k] == cleared[k];
    ActiveOnlyAtEnd(u);
    SortKeepsAtMostOneActive(u);
    forall k | 0 <= k < |r|
      ensures r[k].flags.active ==> r[k] == NewAreaRecord(m)
      ensures AllAttached(cleared) ==> r[k].hasHandle
    {
      var j := MemberIsElement(u, r[k]);
    }
  }

  /** When only the last element may be active, at most one element is active. */
  lemma ActiveOnlyAtEnd(u: seq<AnnotationRecord>)
    requires |u| > 0 && forall k :: 0 <= k < |u| - 1 ==> !u[k].flags.active
    ensures AtMostOneActive(u)
  {
  }

  // ------------------------------------------------------------------
  // Move
  // ------------------------------------------------------------------

  /** The hover update of a pointer move over the whole list, each with its rectangle's pixel box. */
  function HoverAll(rs: seq<AnnotationRecord>, box: Renderer, xPixels: real): (r: seq<AnnotationRecord>)
    ensures |r| == |rs|
    ensures forall k :: 0 <= k < |r| ==> r[k] == rs[k].Hovered(BoxOf(rs[k], box), xPixels)
  {
    seq(|rs|, k requires 0 <= k < |rs| => rs[k].Hovered(BoxOf(rs[k], box), xPixels))
  }

  /** Hover updates never move a bound, grab an annotation or remove a rectangle. */
  lemma HoverKeepsGeometry(rs: seq<AnnotationRecord>, box: Renderer, xPixels: real)
    ensures var h := HoverAll(rs, box, xPixels);
      forall k :: 0 <= k < |rs| ==>
        && h[k].xMin == rs[k].xMin && h[k].xMax == rs[k].xMax
        && h[k].flags.active == rs[k].flags.active && h[k].hasHandle == rs[k].hasHandle
        && h[k].left.active == rs[k].left.active && h[k].right.active == rs[k].right.active
  {
  }

  /**
   * One annotation in the edge-drag loop: an active annotation's armed edges
   * are set with `set_x_min`/`set_x_max` to the pointer kept between the
   * previous annotation's upper bound and the next one's lower bound; an
   * inactive one is left alone.
   */
  function DragOne(r: AnnotationRecord, m: real, previousXMax: real, nextXMin: real): (r': AnnotationRecord)
    requires r.hasHandle
    ensures r'.hasHandle
    ensures r'.xMin == (if r.flags.active && r.left.active then NeighbourClamp(m, previousXMax, nextXMin) else r.xMin)
    ensures r'.xMax == (if r.flags.active && r.right.active then NeighbourClamp(m, previousXMax, nextXMin) else r.xMax)
    ensures r.flags.active && (r.left.active || r.right.active) ==> r'.RectMatchesBounds()
    ensures !(r.flags.active && (r.left.active || r.right.active)) ==> r' == r
    ensures r'.(xMin := r.xMin, xMax := r.xMax, rectX := r.rectX, rectWidth := r.rectWidth) == r
  {
    if !r.flags.active then r
    else
      var v := NeighbourClamp(m, previousXMax, nextXMin);
      var r1 := if r.left.active then r.XMinSet(v, None) else r;
      if r1.right.active then r1.XMaxSet(v, None) else r1
  }

  /** The lower limit for a dragged edge at position `k`: the previous annotation's upper bound, if there is one. */
  function PreviousXMax(out: seq<AnnotationRecord>, k: nat): real
    requires k <= |out|
  {
    if k > 0 then out[k - 1].xMax else NO_PREVIOUS_LIMIT
  }

  /** The upper limit for a dragged edge at position `k`: the next annotation's lower bound, if there is one. */
  function NextXMin(rs: seq<AnnotationRecord>, k: nat): real
  {
    if k + 1 < |rs| then rs[k + 1].xMin else NO_NEXT_LIMIT
  }

  /**
   * The first `n` records after the edge-drag loop. The previous neighbour's
   * upper bound is read after that neighbour has itself been dragged; the next
   * neighbour's lower bound is read before.
   */
  function DragPrefix(rs: seq<AnnotationRecord>, m: real, n: nat): (r: seq<AnnotationRecord>)
    requires n <= |rs| && AllAttached(rs)
    ensures |r| == n && AllAttached(r)
  {
    if n == 0 then []
    else
      var out := DragPrefix(rs, m, n - 1);
      out + [DragOne(rs[n - 1], m, PreviousXMax(out, n - 1), NextXMin(rs, n - 1))]
  }

  /** Extending the drag to more annotations does not change the records already produced. */
  lemma {:induction false} DragPrefixStable(rs: seq<AnnotationRecord>, m: real, n: nat, k: nat)
    requires k < n <= |rs| && AllAttached(rs)
    ensures DragPrefix(rs, m, n)[k] == DragPrefix(rs, m, k + 1)[k]
  {
    if n > k + 1 {
      DragPrefixStable(rs, m, n - 1, k);
    }
  }

  function Drag(rs: seq<AnnotationRecord>, m: real): (r: seq<AnnotationRecord>)
    requires AllAttached(rs)
    ensures |r| == |rs| && AllAttached(r)
  {
    DragPrefix(rs, m, |rs|)
  }

  /**
   * The edge drag record by record: only the bounds of active annotations can
   * change, each armed edge goes to the pointer clamped between the dragged
   * previous neighbour and the undragged next neighbour (or the sentinels at
   * the ends of the list), and an edge that is not armed keeps its value. The
   * rectangle of an annotation with an armed edge is redrawn over its new
   * bounds; every other annotation is left exactly as it was.
   */
  lemma DragRecord(rs: seq<AnnotationRecord>, m: real, k: nat)
    requires k < |rs| && AllAttached(rs)
    ensures var out := Drag(rs, m);
      var v := NeighbourClamp(m, PreviousXMax(out, k), NextXMin(rs, k));
      && out[k].(xMin := rs[k].xMin, xMax := rs[k].xMax, rectX := rs[k].rectX, rectWidth := rs[k].rectWidth) == rs[k]
      && (rs[k].flags.active && (rs[k].left.active || rs[k].right.active) ==> out[k].RectMatchesBounds())
      && (!(rs[k].flags.active && (rs[k].left.active || rs[k].right.active)) ==> out[k] == rs[k])
      && out[k].xMin == (if rs[k].flags.active && rs[k].left.active then v else rs[k].xMin)
      && out[k].xMax == (if rs[k].flags.active && rs[k].right.active then v else rs[k].xMax)
  {
    DragPrefixStable(rs, m, |rs|, k);
    if k > 0 {
      DragPrefixStable(rs, m, |rs|, k - 1);
      DragPrefixStable(rs, m, k + 1, k - 1);
    }
  }

  /** Inactive annotations are never changed by a drag. */
  lemma DragLeavesInactive(rs: seq<AnnotationRecord>, m: real, k: nat)
    requires k < |rs| && AllAttached(rs) && !rs[k].flags.active
    ensures Drag(rs, m)[k] == rs[k]
  {
    DragRecord(rs, m, k);
  }

  /**
   * When a single annotation is being dragged and its neighbours do not overlap
   * each other, every dragged edge lands between the previous neighbour's upper
   * bound and the next neighbour's lower bound, and lands on the pointer itself
   * whenever the pointer is between them.
   */
  lemma DragStaysBetweenNeighbours(rs: seq<AnnotationRecord>, m: real, k: nat)
    requires k < |rs| && AllAttached(rs) && rs[k].flags.active
    requires forall j :: 0 <= j < |rs| && j != k ==> !rs[j].flags.active
    requires PreviousXMax(rs, k) <= NextXMin(rs, k)
    ensures var lo, hi := PreviousXMax(rs, k), NextXMin(rs, k);
      var out := Drag(rs, m);
      && (rs[k].left.active ==> lo <= out[k].xMin <= hi && (lo <= m <= hi ==> out[k].xMin == m))
      && (rs[k].right.active ==> lo <= out[k].xMax <= hi && (lo <= m <= hi ==> out[k].xMax == m))
  {
    DragRecord(rs, m, k);
    if k > 0 {
      DragLeavesInactive(rs, m, k - 1);
    }
  }

  /**
   * The area move over the whole list: every active annotation is moved with
   * `move_x_range(m)`, to the pointer plus its grab offset, keeping its width.
   */
  function MoveAll(rs: seq<AnnotationRecord>, m: real): (r: seq<AnnotationRecord>)
    ensures |r| == |rs|
    ensures forall k :: 0 <= k < |r| ==> r[k].xMax - r[k].xMin == rs[k].xMax - rs[k].xMin
    ensures forall k :: 0 <= k < |r| && rs[k].flags.active ==> r[k].xMin == m + rs[k].mouseOffsetXMin
    ensures forall k :: 0 <= k < |r| && !rs[k].flags.active ==> r[k] == rs[k]
    ensures forall k :: 0 <= k < |r| ==> r[k].(xMin := rs[k].xMin, xMax := rs[k].xMax) == rs[k]
  {
    seq(|rs|, k requires 0 <= k < |rs| => if rs[k].flags.active then rs[k].XRangeMoved(m, true) else rs[k])
  }

  /** Moving the annotations to the pointer at which they were grabbed puts them back where they were. */
  lemma MoveToGrabPointIsIdentity(rs: seq<AnnotationRecord>, m: real)
    requires forall k :: 0 <= k < |rs| && rs[k].flags.active ==> rs[k].mouseOffsetXMin == rs[k].xMin - m
    ensures MoveAll(rs, m) == rs
  {
    assert forall k :: 0 <= k < |rs| ==> MoveAll(rs, m)[k] == rs[k];
  }

  /**
   * The list after a pointer move in mode `st`: hover flags refreshed, then an
   * edge drag in MovingEdge and NewArea, or an area move in MovingArea; the
   * drag is skipped without a pointer position, and the area move is then only
   * possible with nothing active.
   */
  function MoveOutcome(st: GUIState, rs: seq<AnnotationRecord>, box: Renderer, xPixels: real, mouseX: Option<real>): (r: seq<AnnotationRecord>)
    requires AllAttached(rs)
    requires st == MovingArea && mouseX.None? ==> forall k :: 0 <= k < |rs| ==> !rs[k].flags.active
    ensures |r| == |rs| && AllAttached(r)
  {
    var hovered := HoverAll(rs, box, xPixels);
    if (st == MovingEdge || st == NewArea) && mouseX.Some? then Drag(hovered, mouseX.value)
    else if st == MovingArea && mouseX.Some? then MoveAll(hovered, mouseX.value)
    else hovered
  }

  /** A move without a pointer position, or in Idle or Panning, only refreshes the hover flags. */
  lemma MoveWithoutPointerOnlyHovers(st: GUIState, rs: seq<AnnotationRecord>, box: Renderer, xPixels: real, mouseX: Option<real>)
    requires AllAttached(rs)
    requires st == MovingArea && mouseX.None? ==> forall k :: 0 <= k < |rs| ==> !rs[k].flags.active
    requires mouseX.None? || st == Idle || st == Panning
    ensures MoveOutcome(st, rs, box, xPixels, mouseX) == HoverAll(rs, box, xPixels)
  {
  }

  /**
   * In MovingArea every annotation keeps its width, active annotations move to
   * the pointer plus their grab offset, and inactive annotations stay where
   * they are.
   */
  lemma AreaMoveKeepsWidths(rs: seq<AnnotationRecord>, box: Renderer, xPixels: real, m: real)
    requires AllAttached(rs)
    ensures var r := MoveOutcome(MovingArea, rs, box, xPixels, Some(m));
      forall k :: 0 <= k < |rs| ==>
        && r[k].xMax - r[k].xMin == rs[k].xMax - rs[k].xMin
        && (rs[k].flags.active ==> r[k].xMin == m + rs[k].mouseOffsetXMin)
        && (!rs[k].flags.active ==> r[k].xMin == rs[k].xMin)
  {
    HoverKeepsGeometry(rs, box, xPixels);
  }

  /**
   * `move_x_range` does not redraw the rectangle, so after an area move every
   * annotation still reports the pixel box it had before, even when its bounds
   * have moved: the next hover test and the release's width test see the old box.
   */
  lemma AreaMoveKeepsPixelBoxes(rs: seq<AnnotationRecord>, box: Renderer, xPixels: real, m: real)
    requires AllAttached(rs)
    ensures var r := MoveOutcome(MovingArea, rs, box, xPixels, Some(m));
      forall k :: 0 <= k < |rs| ==> BoxOf(r[k], box) == BoxOf(rs[k], box)
  {
    var hovered := HoverAll(rs, box, xPixels);
    assert forall k :: 0 <= k < |rs| ==> hovered[k].rectX == rs[k].rectX && hovered[k].rectWidth == rs[k].rectWidth;
  }

  // ------------------------------------------------------------------
  // Release
  // ------------------------------------------------------------------

  /**
   * The width test of the release: the rectangle's reported pixel width is
   * under the minimum. Without a rectangle both pixel getters answer 0, so such
   * an annotation always counts as too narrow.
   */
  predicate TooNarrow(r: AnnotationRecord, box: Renderer)
  {
    Abs(r.XMaxPixels(BoxOf(r, box)) - r.XMinPixels(BoxOf(r, box))) < MINIMUM_NEW_AREA_WIDTH_PIXELS
  }

  /** Whether the release loop, visiting `r` in mode `st`, removes it: a new area too narrow once its bounds are fixed. */
  predicate Dropped(st: GUIState, r: AnnotationRecord, box: Renderer)
  {
    st == NewArea && r.flags.active && TooNarrow(r.BoundsFixed(), box)
  }

  /**
   * The release's width test. Without a rectangle both pixel getters answer 0,
   * so such an annotation always counts as too narrow. Only an active
   * annotation released from NewArea is ever dropped, and for one with a
   * rectangle the test measures the rectangle as `fix_min_and_max` redraws it:
   * over the ordered bounds, whatever box it had before.
   */
  lemma ReleaseWidthTest(st: GUIState, r: AnnotationRecord, box: Renderer)
    ensures !r.hasHandle ==> TooNarrow(r, box)
    ensures r.hasHandle ==> (TooNarrow(r, box) <==> Abs(BoxOf(r, box).xmax - BoxOf(r, box).x0) < MINIMUM_NEW_AREA_WIDTH_PIXELS)
    ensures Dropped(st, r, box) ==> st == NewArea && r.flags.active
    ensures st == NewArea && r.flags.active && r.hasHandle ==>
      var p := OrderedPair(r.xMin, r.xMax);
      (Dropped(st, r, box) <==> Abs(box(p.0, p.1 - p.0).xmax - box(p.0, p.1 - p.0).x0) < MINIMUM_NEW_AREA_WIDTH_PIXELS)
  {
  }

  /** What the release loop makes of a visited annotation it keeps: in NewArea and MovingEdge an active annotation's bounds are put in order. */
  function Released(st: GUIState, r: AnnotationRecord): (r': AnnotationRecord)
    ensures r.flags.active && (st == NewArea || st == MovingEdge) ==> r'.xMin <= r'.xMax
    ensures r'.flags.active == r.flags.active && r'.hasHandle == r.hasHandle
    ensures !r.flags.active || (st != NewArea && st != MovingEdge) ==> r' == r
  {
    if r.flags.active && (st == NewArea || st == MovingEdge) then r.BoundsFixed() else r
  }

  /**
   * The release loop from iterator position `i`: a visited annotation is
   * removed when `Dropped`, and otherwise replaced by its `Released` record.
   * After a removal the iterator still moves on by one, so the element that
   * slid into the freed position is never visited.
   */
  function ReleaseLoop(st: GUIState, s: seq<AnnotationRecord>, i: nat, box: Renderer): (r: seq<AnnotationRecord>)
    ensures |r| <= |s|
    ensures st != NewArea ==> |r| == |s|
    decreases |s| - i
  {
    if i >= |s| then s
    else if Dropped(st, s[i], box) then ReleaseLoop(st, s[..i] + s[i + 1..], i + 1, box)
    else ReleaseLoop(st, s[i := Released(st, s[i])], i + 1, box)
  }

  /** The release as intended: every annotation visited once, the dropped ones removed, the others released. */
  function ReleaseReference(st: GUIState, s: seq<AnnotationRecord>, box: Renderer): (r: seq<AnnotationRecord>)
    ensures |r| <= |s|
  {
    if s == [] then []
    else (if Dropped(st, s[0], box) then [] else [Released(st, s[0])]) + ReleaseReference(st, s[1..], box)
  }

  /** The annotation following a removed one is never active, so skipping it changes nothing. */
  ghost predicate SkipsAreHarmless(st: GUIState, s: seq<AnnotationRecord>, box: Renderer)
  {
    forall j :: 0 <= j < |s| - 1 && Dropped(st, s[j], box) ==> !s[j + 1].flags.active
  }

  lemma SkipsAreHarmlessSuffix(st: GUIState, s: seq<AnnotationRecord>, box: Renderer, k: nat)
    requires k <= |s| && SkipsAreHarmless(st, s, box)
    ensures SkipsAreHarmless(st, s[k..], box)
  {
    forall j | 0 <= j < |s[k..]| - 1 && Dropped(st, s[k..][j], box) ensures !s[k..][j + 1].flags.active {
      assert s[k..][j] == s[k + j] && s[k..][j + 1] == s[k + j + 1];
    }
  }

  /** One step of the reference, for a list written as head and tail. */
  lemma ReleaseReferenceCons(st: GUIState, x: AnnotationRecord, t: seq<AnnotationRecord>, box: Renderer)
    ensures ReleaseReference(st, [x] + t, box) ==
      (if Dropped(st, x, box) then [] else [Released(st, x)]) + ReleaseReference(st, t, box)
  {
    assert ([x] + t)[1..] == t;
  }

  /** Visiting a kept annotation: the released prefix grows by its released record. */
  lemma ReleaseKeepStep(st: GUIState, s: seq<AnnotationRecord>, i: nat, box: Renderer)
    requires i < |s| && !Dropped(st, s[i], box)
    ensures var t := s[i := Released(st, s[i])];
      t[..i + 1] + ReleaseReference(st, t[i + 1..], box) == s[..i] + ReleaseReference(st, s[i..], box)
  {
    var t := s[i := Released(st, s[i])];
    assert s[i..] == [s[i]] + s[i + 1..];
    ReleaseReferenceCons(st, s[i], s[i + 1..], box);
    assert t[i + 1..] == s[i + 1..];
    assert t[..i + 1] == s[..i] + [Released(st, s[i])];
  }

  /** Removing a visited annotation whose inactive successor is then skipped. */
  lemma ReleaseDropStep(st: GUIState, p: seq<AnnotationRecord>, x: AnnotationRecord, y: AnnotationRecord, w: seq<AnnotationRecord>, box: Renderer)
    requires Dropped(st, x, box) && !y.flags.active
    ensures (p + [y]) + ReleaseReference(st, w, box) == p + ReleaseReference(st, [x] + ([y] + w), box)
  {
    ReleaseReferenceCons(st, x, [y] + w, box);
    ReleaseReferenceCons(st, y, w, box);
  }

  /** Removing the last annotation. */
  lemma ReleaseDropLastStep(st: GUIState, s: seq<AnnotationRecord>, i: nat, box: Renderer)
    requires i + 1 == |s| && Dropped(st, s[i], box)
    ensures s[..i] + s[i + 1..] == s[..i] + ReleaseReference(st, s[i..], box)
  {
    assert s[i..] == [s[i]] + [];
    ReleaseReferenceCons(st, s[i], [], box);
  }

  lemma {:induction false} ReleaseLoopFrom(st: GUIState, s: seq<AnnotationRecord>, i: nat, box: Renderer)
    requires i <= |s| && SkipsAreHarmless(st, s[i..], box)
    ensures ReleaseLoop(st, s, i, box) == s[..i] + ReleaseReference(st, s[i..], box)
    decreases |s| - i
  {
    if i == |s| {
      assert s[..i] == s;
      assert s[i..] == [];
    } else if !Dropped(st, s[i], box) {
      var t := s[i := Released(st, s[i])];
      SkipsAreHarmlessSuffix(st, s[i..], box, 1);
      assert s[i..][1..] == s[i + 1..] == t[i + 1..];
      ReleaseLoopFrom(st, t, i + 1, box);
      ReleaseKeepStep(st, s, i, box);
    } else if i + 1 == |s| {
      ReleaseDropLastStep(st, s, i, box);
    } else {
      var t := s[..i] + s[i + 1..];
      assert s[i..][0] == s[i] && s[i..][1] == s[i + 1];
      SkipsAreHarmlessSuffix(st, s[i..], box, 2);
      assert s[i..][2..] == s[i + 2..] == t[i + 1..];
      ReleaseLoopFrom(st, t, i + 1, box);
      assert t[..i + 1] == s[..i] + [s[i + 1]];
      assert s[i..] == [s[i]] + ([s[i + 1]] + s[i + 2..]);
      ReleaseDropStep(st, s[..i], s[i], s[i + 1], s[i + 2..], box);
    }
  }

  /**
   * When no annotation right after a removed one is active (in particular when
   * at most one annotation is active), the release loop visits every
   * annotation that matters and gives the reference result.
   */
  lemma ReleaseLoopIsReference(st: GUIState, s: seq<AnnotationRecord>, box: Renderer)
    requires SkipsAreHarmless(st, s, box)
    ensures ReleaseLoop(st, s, 0, box) == ReleaseReference(st, s, box)
  {
    assert s[0..] == s;
    ReleaseLoopFrom(st, s, 0, box);
  }

  /** With at most one active annotation no skip can matter. */
  lemma SingleActiveSkipsAreHarmless(st: GUIState, s: seq<AnnotationRecord>, box: Renderer)
    requires AtMostOneActive(s)
    ensures SkipsAreHarmless(st, s, box)
  {
  }

  /**
   * Two neighbouring new areas that are both too narrow: the loop removes the
   * first and never visits the second, which survives with its bounds unfixed.
   */
  lemma ReleaseSkipsNeighbour(a: AnnotationRecord, b: AnnotationRecord, box: Renderer)
    requires Dropped(NewArea, a, box) && Dropped(NewArea, b, box)
    ensures ReleaseLoop(NewArea, [a, b], 0, box) == [b]
    ensures ReleaseReference(NewArea, [a, b], box) == []
  {
    assert [a, b][..0] + [a, b][1..] == [b];
    ReleaseReferenceCons(NewArea, a, [b], box);
    ReleaseReferenceCons(NewArea, b, [], box);
  }

  /**
   * What the reference release keeps: each element is a released, undropped
   * original; in NewArea and MovingEdge each active one has ordered bounds;
   * in NewArea no active one is too narrow; no rectangle is lost; and each
   * inactive original survives.
   */
  lemma {:induction false} ReleaseReferenceMembers(st: GUIState, s: seq<AnnotationRecord>, box: Renderer)
    ensures var r := ReleaseReference(st, s, box);
      && (forall x :: x in r ==> exists y :: y in s && !Dropped(st, y, box) && x == Released(st, y))
      && (forall x :: x in r && x.flags.active && (st == NewArea || st == MovingEdge) ==> x.xMin <= x.xMax)
      && (forall x :: x in r && x.flags.active && st == NewArea ==> !TooNarrow(x, box))
      && (AllAttached(s) ==> AllAttached(r))
      && (forall y :: y in s && !y.flags.active ==> y in r)
  {
    if s != [] {
      ReleaseReferenceMembers(st, s[1..], box);
      assert s == [s[0]] + s[1..];
      var r := ReleaseReference(st, s, box);
      var rest := ReleaseReference(st, s[1..], box);
      assert r == (if Dropped(st, s[0], box) then [] else [Released(st, s[0])]) + rest;
      if AllAttached(s) {
        assert AllAttached(s[1..]);
        forall k | 0 <= k < |r| ensures r[k].hasHandle {
          assert r[k] in r;
        }
      }
    }
  }

  /** In MovingEdge nothing is removed: every active annotation has its bounds put in order. */
  lemma {:induction false} ReleaseEdgeFixesAll(s: seq<AnnotationRecord>, box: Renderer)
    ensures var r := ReleaseReference(MovingEdge, s, box);
      |r| == |s| && forall k :: 0 <= k < |s| ==> r[k] == Released(MovingEdge, s[k])
  {
    if s != [] {
      ReleaseEdgeFixesAll(s[1..], box);
      var r := ReleaseReference(MovingEdge, s, box);
      var t := ReleaseReference(MovingEdge, s[1..], box);
      assert r == [Released(MovingEdge, s[0])] + t;
      forall k | 0 < k < |s| ensures r[k] == Released(MovingEdge, s[k]) {
        assert r[k] == t[k - 1] && s[k] == s[1..][k - 1];
      }
    }
  }

  /** A release in Idle, MovingArea or Panning changes no annotation. */
  lemma {:induction false} ReleaseOutsideDrawingKeepsAll(st: GUIState, s: seq<AnnotationRecord>, box: Renderer)
    requires st != NewArea && st != MovingEdge
    ensures ReleaseReference(st, s, box) == s
  {
    if s != [] {
      ReleaseOutsideDrawingKeepsAll(st, s[1..], box);
      assert s == [s[0]] + s[1..];
    }
  }

  /** `left_edge_active = right_edge_active = False` on every annotation. */
  function DisarmAll(rs: seq<AnnotationRecord>): (r: seq<AnnotationRecord>)
    ensures |r| == |rs|
    ensures forall k :: 0 <= k < |r| ==> !r[k].left.active && !r[k].right.active
    ensures forall k :: 0 <= k < |r| ==> r[k] == rs[k].(left := rs[k].left.(active := false), right := rs[k].right.(active := false))
  {
    seq(|rs|, k requires 0 <= k < |rs| => rs[k].EdgesDisarmed())
  }

  /** A release in Idle, MovingArea or Panning only disarms every edge and re-sorts the list. */
  lemma ReleaseOutsideDrawingOnlySorts(st: GUIState, s: seq<AnnotationRecord>, box: Renderer)
    requires st != NewArea && st != MovingEdge
    ensures multiset(ReleaseOutcome(st, s, box)) == multiset(DisarmAll(s))
  {
    ReleaseLoopIsReferenceAtMostOne(st, s, box);
    ReleaseOutsideDrawingKeepsAll(st, s, box);
  }

  /** The list after a release in mode `st`: the release loop, all edges disarmed, and the list re-sorted. */
  function ReleaseOutcome(st: GUIState, s: seq<AnnotationRecord>, box: Renderer): seq<AnnotationRecord>
  {
    SortByXMin(DisarmAll(ReleaseLoop(st, s, 0, box)))
  }

  /**
   * What any release does to the list, whatever the mode and however many
   * annotations are active: it is sorted, no edge is armed, and it only loses
   * annotations, and only new areas released from NewArea.
   */
  lemma ReleaseOutcomeShape(st: GUIState, s: seq<AnnotationRecord>, box: Renderer)
    ensures var r := ReleaseOutcome(st, s, box);
      && SortedByXMin(r)
      && (forall k :: 0 <= k < |r| ==> !r[k].left.active && !r[k].right.active)
      && |r| <= |s|
      && (st != NewArea ==> |r| == |s|)
  {
    SortKeepsDisarmed(DisarmAll(ReleaseLoop(st, s, 0, box)));
  }

  /** Sorting a disarmed list keeps its length and leaves every edge disarmed. */
  lemma SortKeepsDisarmed(d: seq<AnnotationRecord>)
    requires forall k :: 0 <= k < |d| ==> !d[k].left.active && !d[k].right.active
    ensures |SortByXMin(d)| == |d|
    ensures forall k :: 0 <= k < |SortByXMin(d)| ==> !SortByXMin(d)[k].left.active && !SortByXMin(d)[k].right.active
  {
    var r := SortByXMin(d);
    assert |multiset(r)| == |multiset(d)|;
    forall k | 0 <= k < |r| ensures !r[k].left.active && !r[k].right.active {
      assert r[k] in multiset(d);
      var j := MemberIsElement(d, r[k]);
    }
  }

  /** With at most one active new area, the release loop gives the reference release. */
  lemma ReleaseLoopIsReferenceAtMostOne(st: GUIState, s: seq<AnnotationRecord>, box: Renderer)
    requires st == NewArea ==> AtMostOneActive(s)
    ensures ReleaseLoop(st, s, 0, box) == ReleaseReference(st, s, box)
  {
    if st == NewArea {
      SingleActiveSkipsAreHarmless(st, s, box);
    } else {
      assert SkipsAreHarmless(st, s, box);
    }
    ReleaseLoopIsReference(st, s, box);
  }

  /** Every annotation after a release is the disarmed version of one the reference release keeps. */
  lemma ReleaseOutcomeOrigin(st: GUIState, s: seq<AnnotationRecord>, box: Renderer, x: AnnotationRecord) returns (y: AnnotationRecord)
    requires st == NewArea ==> AtMostOneActive(s)
    requires x in ReleaseOutcome(st, s, box)
    ensures y in ReleaseReference(st, s, box) && x == y.EdgesDisarmed()
  {
    ReleaseLoopIsReferenceAtMostOne(st, s, box);
    var d := DisarmAll(ReleaseReference(st, s, box));
    SortMembers(d);
    var k :| 0 <= k < |d| && d[k] == x;
    y := ReleaseReference(st, s, box)[k];
  }

  /**
   * After a release from a state with at most one active new area: the list is
   * sorted, no edge is armed, every active annotation released from NewArea or
   * MovingEdge has ordered bounds, no active annotation released from NewArea
   * is too narrow, every inactive annotation is still there with its edges
   * disarmed, and no rectangle is lost.
   */
  lemma ReleaseOutcomeProperties(st: GUIState, s: seq<AnnotationRecord>, box: Renderer)
    requires st == NewArea ==> AtMostOneActive(s)
    ensures var r := ReleaseOutcome(st, s, box);
      && SortedByXMin(r)
      && (forall x :: x in r ==> !x.left.active && !x.right.active)
      && (forall x :: x in r && x.flags.active && (st == NewArea || st == MovingEdge) ==> x.xMin <= x.xMax)
      && (forall x :: x in r && x.flags.active && st == NewArea ==> !TooNarrow(x, box))
      && (forall y :: y in s && !y.flags.active ==> y.EdgesDisarmed() in r)
      && (AllAttached(s) ==> AllAttached(r))
  {
    ReleaseReferenceMembers(st, s, box);
    var l := ReleaseReference(st, s, box);
    var r := ReleaseOutcome(st, s, box);
    forall x | x in r
      ensures !x.left.active && !x.right.active
      ensures x.flags.active && (st == NewArea || st == MovingEdge) ==> x.xMin <= x.xMax
      ensures x.flags.active && st == NewArea ==> !TooNarrow(x, box)
    {
      var y := ReleaseOutcomeOrigin(st, s, box, x);
    }
    ReleaseLoopIsReferenceAtMostOne(st, s, box);
    var d := DisarmAll(l);
    SortMembers(d);
    forall y | y in s && !y.flags.active ensures y.EdgesDisarmed() in r {
      var k :| 0 <= k < |l| && l[k] == y;
      assert d[k] == y.EdgesDisarmed();
    }
    if AllAttached(s) {
      forall k | 0 <= k < |r| ensures r[k].hasHandle {
        var y := ReleaseOutcomeOrigin(st, s, box, r[k]);
        var j :| 0 <= j < |l| && l[j] == y;
      }
    }
  }

  // ------------------------------------------------------------------
  // Key press
  // ------------------------------------------------------------------

  /**
   * The list after a key press: on Delete, the loop over the list removes each
   * active annotation it visits (with the iterator skipping the element after
   * each removal); any other key changes nothing.
   */
  function KeyOutcome(s: seq<AnnotationRecord>, key: Key): (r: seq<AnnotationRecord>)
    ensures key != Delete ==> r == s
    ensures |r| <= |s|
    ensures forall k :: 0 <= k < |r| ==> r[k] in s
    ensures forall k :: 0 <= k < |s| && !s[k].flags.active ==> s[k] in r
  {
    RemovingLoopShrinks(s, 0, ActiveSet(s));
    if key == Delete then RemovingLoop(s, 0, ActiveSet(s)) else s
  }

  /** With at most one active annotation, Delete removes exactly the active annotations and keeps the others in order. */
  lemma DeleteRemovesActive(s: seq<AnnotationRecord>)
    requires AtMostOneActive(s)
    ensures KeyOutcome(s, Delete) == Without(s, ActiveSet(s))
    ensures var r := KeyOutcome(s, Delete);
      (forall k :: 0 <= k < |r| ==> !r[k].flags.active && r[k] in s)
      && (forall k :: 0 <= k < |s| && !s[k].flags.active ==> s[k] in r)
  {
    var drop := ActiveSet(s);
    assert NoAdjacentDrops(s, drop);
    RemovingLoopIsWithout(s, drop);
    WithoutMembers(s, drop);
  }

  /** Without an active annotation, Delete changes nothing. */
  lemma DeleteWithoutActiveKeepsAll(s: seq<AnnotationRecord>)
    requires forall k :: 0 <= k < |s| ==> !s[k].flags.active
    ensures KeyOutcome(s, Delete) == s
  {
    var drop := ActiveSet(s);
    assert NoAdjacentDrops(s, drop);
    RemovingLoopIsWithout(s, drop);
    WithoutAbsent(s, drop);
  }

  /** Two neighbouring active annotations: the second is skipped by the loop and survives Delete. */
  lemma DeleteSkipsNeighbour(a: AnnotationRecord, b: AnnotationRecord)
    requires a.flags.active && b.flags.active && a != b
    ensures KeyOutcome([a, b], Delete) == [b]
  {
    assert ActiveSet([a, b]) == {a, b};
    RemovingLoopSkipsNeighbour(a, b);
  }

  /** The list after `_remove_areas(targets)`: each target in turn removed with `list.remove`. */
  function RemoveAll(s: seq<AnnotationRecord>, targets: seq<AnnotationRecord>): (r: seq<AnnotationRecord>)
    requires AllPresent(s, targets)
    ensures |r| == |s| - |targets|
    ensures multiset(r) + multiset(targets) == multiset(s)
    decreases |targets|
  {
    if targets == [] then s
    else
      assert targets == [targets[0]] + targets[1..];
      RemoveAll(ListRemove(s, targets[0]), targets[1..])
  }

  /** Each target is still in the list when its turn to be removed comes. */
  predicate AllPresent(s: seq<AnnotationRecord>, targets: seq<AnnotationRecord>)
    decreases |targets|
  {
    targets == [] || (targets[0] in s && AllPresent(ListRemove(s, targets[0]), targets[1..]))
  }

  // ------------------------------------------------------------------
  // The invariant the handlers keep
  // ------------------------------------------------------------------

  /**
   * Every annotation in the list has a rectangle; the list is ordered by lower
   * bound whenever nothing is being drawn, dragged or moved; and while a new
   * area is drawn or an area is moved, only one annotation is active.
   */
  predicate ValidState(st: GUIState, rs: seq<AnnotationRecord>)
  {
    && AllAttached(rs)
    && ((st == Idle || st == Panning) ==> SortedByXMin(rs))
    && ((st == NewArea || st == MovingArea) ==> AtMostOneActive(rs))
  }

  /** A press keeps the invariant. */
  lemma PressKeepsValid(st: GUIState, rs: seq<AnnotationRecord>, leftDown: bool, rightDown: bool, mouseX: Option<real>)
    requires ValidState(st, rs)
    ensures ValidState(PressOutcome(st, rs, leftDown, rightDown, mouseX).0, PressOutcome(st, rs, leftDown, rightDown, mouseX).1)
  {
    var cleared := DeselectAll(rs);
    assert AllAttached(cleared);
    assert AtMostOneActive(cleared);
    assert (st == Idle || st == Panning) ==> SortedByXMin(cleared);
    if st == Idle && leftDown && mouseX.Some? {
      var m := mouseX.value;
      var scan := PressScan(Idle, cleared, m);
      PressScanActive(cleared, m);
      assert AllAttached(scan.1);
      if scan.0 == Idle {
        PressScanMissChangesNothing(cleared, m) by {
          PressScanMode(cleared, m);
        }
        NewAreaListFacts(cleared, m);
      }
    }
  }

  /** A pointer move changes no annotation's activity or rectangle, and in Idle and Panning no bound. */
  lemma MoveKeepsFlags(st: GUIState, rs: seq<AnnotationRecord>, box: Renderer, xPixels: real, mouseX: Option<real>, k: nat)
    requires AllAttached(rs) && k < |rs|
    requires st == MovingArea && mouseX.None? ==> forall j :: 0 <= j < |rs| ==> !rs[j].flags.active
    ensures var r := MoveOutcome(st, rs, box, xPixels, mouseX);
      && r[k].flags.active == rs[k].flags.active
      && ((st == Idle || st == Panning || mouseX.None?) ==> r[k].xMin == rs[k].xMin)
  {
    var hovered := HoverAll(rs, box, xPixels);
    HoverKeepsGeometry(rs, box, xPixels);
    if (st == MovingEdge || st == NewArea) && mouseX.Some? {
      DragRecord(hovered, mouseX.value, k);
    }
  }

  /** A pointer move keeps the invariant. */
  lemma MoveKeepsValid(st: GUIState, rs: seq<AnnotationRecord>, box: Renderer, xPixels: real, mouseX: Option<real>)
    requires ValidState(st, rs)
    requires st == MovingArea && mouseX.None? ==> forall j :: 0 <= j < |rs| ==> !rs[j].flags.active
    ensures ValidState(st, MoveOutcome(st, rs, box, xPixels, mouseX))
  {
    forall k | 0 <= k < |rs|
      ensures MoveOutcome(st, rs, box, xPixels, mouseX)[k].flags.active == rs[k].flags.active
      ensures (st == Idle || st == Panning) ==> MoveOutcome(st, rs, box, xPixels, mouseX)[k].xMin == rs[k].xMin
    {
      MoveKeepsFlags(st, rs, box, xPixels, mouseX, k);
    }
  }

  /** A release ends in Idle with the invariant; only a release from NewArea needs at most one active annotation. */
  lemma ReleaseKeepsValid(st: GUIState, s: seq<AnnotationRecord>, box: Renderer)
    requires AllAttached(s) && (st == NewArea ==> AtMostOneActive(s))
    ensures ValidState(Idle, ReleaseOutcome(st, s, box))
  {
    ReleaseOutcomeProperties(st, s, box);
  }

  /** A key press keeps the invariant; while an area is drawn or moved, Delete leaves nothing active. */
  lemma KeyKeepsValid(st: GUIState, s: seq<AnnotationRecord>, key: Key)
    requires ValidState(st, s)
    ensures ValidState(st, KeyOutcome(s, key))
    ensures key == Delete && (st == NewArea || st == MovingArea) ==>
      forall k :: 0 <= k < |KeyOutcome(s, key)| ==> !KeyOutcome(s, key)[k].flags.active
  {
    if key == Delete {
      var drop := ActiveSet(s);
      var r := RemovingLoop(s, 0, drop);
      RemovingLoopShrinks(s, 0, drop);
      forall k | 0 <= k < |r| ensures r[k].hasHandle {
        var j :| 0 <= j < |s| && s[j] == r[k];
      }
      if st == Idle || st == Panning {
        RemovingLoopKeepsSorted(s, 0, drop);
      }
      if st == NewArea || st == MovingArea {
        DeleteRemovesActive(s);
      }
    }
  }

  // ------------------------------------------------------------------
  // What a release does not guarantee
  // ------------------------------------------------------------------

  /**
   * A release does not always leave every annotation's bounds in order. A left
   * press at `m` on an empty plot draws a new area; dragging to `m' < m` moves
   * its right edge to `m'`; a right press while the area is drawn deselects it
   * without leaving NewArea; the release loop then skips the inactive area, so
   * the list it leaves in Idle holds an annotation whose lower bound `m`
   * exceeds its upper bound `m'`. The handlers keep `ValidState` at every
   * step, so this is a state the invariant allows.
   */
  lemma InvertedAreaSurvivesRelease(m: real, m': real, box: Renderer, xPixels: real)
    requires NO_PREVIOUS_LIMIT <= m' < m <= NO_NEXT_LIMIT
    ensures PressOutcome(Idle, [], true, false, Some(m)) == (NewArea, [NewAreaRecord(m)])
    ensures var dragged := MoveOutcome(NewArea, [NewAreaRecord(m)], box, xPixels, Some(m'));
      var pressed := PressOutcome(NewArea, dragged, true, true, Some(m'));
      var released := ReleaseOutcome(pressed.0, pressed.1, box);
      && pressed.0 == NewArea && |released| == 1 && released[0].hasHandle
      && released[0].xMin == m && released[0].xMax == m'
  {
    PressOnEmptyPlotDrawsNewArea(m);
    var a := NewAreaRecord(m);
    var dragged := MoveOutcome(NewArea, [a], box, xPixels, Some(m'));
    DragLoneArea(a, m', box, xPixels);
    PressOutcomeShape(NewArea, dragged, true, true, Some(m'));
    ReleaseLoneInactive(NewArea, DeselectAll(dragged), box);
  }

  /** A left press on an empty plot starts a new area at the pointer. */
  lemma PressOnEmptyPlotDrawsNewArea(m: real)
    ensures PressOutcome(Idle, [], true, false, Some(m)) == (NewArea, [NewAreaRecord(m)])
  {
    assert DeselectAll([]) == [];
    assert PressScan(Idle, [], m) == (Idle, []);
    assert SortByXMin([NewAreaRecord(m)]) == [NewAreaRecord(m)] by {
      assert [NewAreaRecord(m)][1..] == [];
    }
  }

  /** Dragging a lone annotation: each armed edge of an active one goes to the pointer, which no neighbour limits. */
  lemma DragLoneArea(r: AnnotationRecord, m: real, box: Renderer, xPixels: real)
    requires r.hasHandle && NO_PREVIOUS_LIMIT <= m <= NO_NEXT_LIMIT
    ensures var d := MoveOutcome(NewArea, [r], box, xPixels, Some(m));
      && |d| == 1 && d[0].flags.active == r.flags.active && d[0].hasHandle
      && d[0].xMin == (if r.flags.active && r.left.active then m else r.xMin)
      && d[0].xMax == (if r.flags.active && r.right.active then m else r.xMax)
  {
    var hovered := HoverAll([r], box, xPixels);
    HoverKeepsGeometry([r], box, xPixels);
    DragRecord(hovered, m, 0);
  }

  /** Releasing a lone inactive annotation, in any mode, only disarms its edges. */
  lemma ReleaseLoneInactive(st: GUIState, s: seq<AnnotationRecord>, box: Renderer)
    requires |s| == 1 && !s[0].flags.active
    ensures ReleaseOutcome(st, s, box) == [s[0].EdgesDisarmed()]
  {
    var r := s[0];
    assert s == [r];
    assert ReleaseLoop(st, [r], 0, box) == [r] by {
      assert [r][0 := Released(st, r)] == [r];
    }
    assert DisarmAll([r]) == [r.EdgesDisarmed()];
    assert SortByXMin([r.EdgesDisarmed()]) == [r.EdgesDisarmed()] by {
      assert [r.EdgesDisarmed()][1..] == [];
    }
  }

  /**
   * An area move is not limited by its neighbours, so two annotations can end
   * up overlapping. Take two ordered, non-overlapping areas, the first one
   * grabbed by its body (`PressGrabsFirstOfTwo` shows a left press inside it
   * does this): a move that puts its lower bound on the second one's lower
   * bound is not clamped, and after the release the first annotation's upper
   * bound exceeds the next one's lower bound.
   */
  lemma AreaMoveCanOverlap(grabbed: seq<AnnotationRecord>, box: Renderer, xPixels: real)
    requires |grabbed| == 2 && ValidState(MovingArea, grabbed)
    requires grabbed[0].flags.active && !grabbed[1].flags.active
    requires grabbed[0].xMin < grabbed[0].xMax <= grabbed[1].xMin < grabbed[1].xMax
    ensures var moved := MoveOutcome(MovingArea, grabbed, box, xPixels, Some(grabbed[1].xMin - grabbed[0].mouseOffsetXMin));
      var released := ReleaseOutcome(MovingArea, moved, box);
      ValidState(Idle, released) && |released| == 2 && released[0].xMax > released[1].xMin
  {
    AreaMoveOntoNeighbour(grabbed, box, xPixels);
    var moved := MoveOutcome(MovingArea, grabbed, box, xPixels, Some(grabbed[1].xMin - grabbed[0].mouseOffsetXMin));
    ReleaseOfTwoAtOneStart(moved, grabbed[1].xMin, box);
  }

  /** Moving the first of two areas by the distance between their lower bounds puts both on the same lower bound. */
  lemma AreaMoveOntoNeighbour(grabbed: seq<AnnotationRecord>, box: Renderer, xPixels: real)
    requires |grabbed| == 2 && ValidState(MovingArea, grabbed)
    requires grabbed[0].flags.active && !grabbed[1].flags.active
    requires grabbed[0].xMin < grabbed[0].xMax <= grabbed[1].xMin < grabbed[1].xMax
    ensures var moved := MoveOutcome(MovingArea, grabbed, box, xPixels, Some(grabbed[1].xMin - grabbed[0].mouseOffsetXMin));
      forall k :: 0 <= k < |moved| ==> moved[k].xMin == grabbed[1].xMin < moved[k].xMax
  {
    AreaMoveKeepsWidths(grabbed, box, xPixels, grabbed[1].xMin - grabbed[0].mouseOffsetXMin);
  }

  /** Releasing two moved areas that start at the same point leaves the first one reaching past the start of the second. */
  lemma ReleaseOfTwoAtOneStart(moved: seq<AnnotationRecord>, c: real, box: Renderer)
    requires |moved| == 2 && AllAttached(moved)
    requires forall k :: 0 <= k < |moved| ==> moved[k].xMin == c < moved[k].xMax
    ensures var released := ReleaseOutcome(MovingArea, moved, box);
      ValidState(Idle, released) && |released| == 2 && released[0].xMax > released[1].xMin
  {
    var released := ReleaseOutcome(MovingArea, moved, box);
    assert ValidState(Idle, released) by {
      ReleaseKeepsValid(MovingArea, moved, box);
    }
    assert ReleaseLoop(MovingArea, moved, 0, box) == moved by {
      ReleaseLoopIsReferenceAtMostOne(MovingArea, moved, box);
      ReleaseOutsideDrawingKeepsAll(MovingArea, moved, box);
    }
    SortOfTwoAtOneStart(DisarmAll(moved), c);
  }

  /** Sorting two annotations that start at the same point keeps two annotations, each still starting there. */
  lemma SortOfTwoAtOneStart(d: seq<AnnotationRecord>, c: real)
    requires |d| == 2 && forall k :: 0 <= k < |d| ==> d[k].xMin == c < d[k].xMax
    ensures var sorted := SortByXMin(d);
      |sorted| == 2 && forall k :: 0 <= k < |sorted| ==> sorted[k].xMin == c < sorted[k].xMax
  {
    SortMembers(d);
    var sorted := SortByXMin(d);
    assert |sorted| == |d| by {
      assert |multiset(sorted)| == |multiset(d)|;
    }
    assert sorted[0] in d && sorted[1] in d;
  }

  /** A left press inside the first of two annotations, neither edge-hovered, grabs that one by its body and leaves the other alone. */
  lemma PressGrabsFirstOfTwo(a: AnnotationRecord, b: AnnotationRecord, m: real) returns (grabbed: seq<AnnotationRecord>)
    requires a.hasHandle && b.hasHandle && !a.IsEdgeHovering() && !b.IsEdgeHovering() && HitAt(a, m)
    ensures PressOutcome(Idle, [a, b], true, false, Some(m)) == (MovingArea, grabbed) && ValidState(MovingArea, grabbed)
    ensures |grabbed| == 2
    ensures grabbed[0].xMin == a.xMin && grabbed[0].xMax == a.xMax && grabbed[0].flags.active && grabbed[0].mouseOffsetXMin == a.xMin - m
    ensures grabbed[1].xMin == b.xMin && grabbed[1].xMax == b.xMax && !grabbed[1].flags.active
  {
    var cleared := DeselectAll([a, b]);
    assert !cleared[0].IsEdgeHovering() && !cleared[1].IsEdgeHovering() && HitAt(cleared[0], m);
    assert PressScan(Idle, cleared, m).0 == MovingArea by {
      PressScanMode(cleared, m);
    }
    grabbed := PressScan(Idle, cleared, m).1;
    assert ValidState(MovingArea, grabbed) by {
      PressScanActive(cleared, m);
    }
    assert grabbed[0] == cleared[0].EdgesArmed().Activated(m) by {
      assert NothingHitBefore(cleared, m, 0);
      PressScanRecord(cleared, m, 0);
    }
    assert grabbed[1] == cleared[1].EdgesArmed() by {
      PressScanRecord(cleared, m, 1);
    }
  }

  // ------------------------------------------------------------------
  // Constructor argument binding
  // ------------------------------------------------------------------

  /** An argument value at the call that creates a new area. */
  datatype Arg = Text(s: string) | Number(v: real)

  /** The parameter names of the annotation constructor, in order. */
  const ANNOTATION_PARAMETERS: seq<string> :=
    ["x_min", "x_max", "y_min", "y_max", "edge_grab_offset_pixels_x", "edge_grab_offset_pixels_y"]

  /**
   * Python's binding of a call's arguments to the annotation constructor's
   * parameters: positional arguments fill parameters in order, keywords fill
   * them by name, and the call fails when there are too many positional
   * arguments, when a keyword names no parameter, or when a parameter gets a
   * value both ways.
   */
  function BindAnnotationArgs(positional: seq<Arg>, keywords: map<string, Arg>): (r: Option<map<string, Arg>>)
    ensures r.Some? ==> forall name :: name in keywords ==> name in r.value && r.value[name] == keywords[name]
    ensures r.Some? ==> forall i :: 0 <= i < |positional| && i < |ANNOTATION_PARAMETERS| ==>
      ANNOTATION_PARAMETERS[i] in r.value && r.value[ANNOTATION_PARAMETERS[i]] == positional[i]
    ensures r.None? <==>
      || |positional| > |ANNOTATION_PARAMETERS|
      || (exists name :: name in keywords && name !in ANNOTATION_PARAMETERS)
      || (exists i :: 0 <= i < |positional| && i < |ANNOTATION_PARAMETERS| && ANNOTATION_PARAMETERS[i] in keywords)
  {
    if |positional| > |ANNOTATION_PARAMETERS| then None
    else if exists name :: name in keywords && name !in ANNOTATION_PARAMETERS then None
    else if exists i :: 0 <= i < |positional| && ANNOTATION_PARAMETERS[i] in keywords then None
    else Some(keywords + map i | 0 <= i < |positional| :: ANNOTATION_PARAMETERS[i] := positional[i])
  }

  /** The keyword arguments of the new-area call. */
  function NewAreaKeywords(m: real): map<string, Arg>
  {
    map["x_min" := Number(m), "y_min" := Number(NEW_AREA_Y_MIN), "x_max" := Number(m), "y_max" := Number(NEW_AREA_Y_MAX)]
  }

  /**
   * The new-area call as written passes a label positionally before the
   * keywords; the label lands in `x_min`, which the keywords also name, so the
   * call fails for every pointer position.
   */
  lemma NewAreaCallAsWrittenFails(m: real)
    ensures BindAnnotationArgs([Text("debug")], NewAreaKeywords(m)).None?
  {
    assert ANNOTATION_PARAMETERS[0] in NewAreaKeywords(m);
  }

  /**
   * Without the positional label the call binds, and gives exactly the bounds
   * of `NewAreaRecord`, leaving the edge margins at their defaults.
   */
  lemma NewAreaCallCorrected(m: real)
    ensures var b := BindAnnotationArgs([], NewAreaKeywords(m));
      && b.Some?
      && b.value["x_min"] == Number(NewAreaRecord(m).xMin) && b.value["x_max"] == Number(NewAreaRecord(m).xMax)
      && b.value["y_min"] == Number(NewAreaRecord(m).yMin) && b.value["y_max"] == Number(NewAreaRecord(m).yMax)
      && "edge_grab_offset_pixels_x" !in b.value && "edge_grab_offset_pixels_y" !in b.value
  {
    var kw := NewAreaKeywords(m);
    assert forall name :: name in kw ==> name in ANNOTATION_PARAMETERS by {
      forall name | name in kw ensures name in ANNOTATION_PARAMETERS {
        assert name == ANNOTATION_PARAMETERS[0] || name == ANNOTATION_PARAMETERS[1]
          || name == ANNOTATION_PARAMETERS[2] || name == ANNOTATION_PARAMETERS[3];
      }
    }
    BindKeywordsOnly(kw);
  }

  /** A call with keywords only, all of them parameter names, binds exactly those keywords. */
  lemma BindKeywordsOnly(kw: map<string, Arg>)
    requires forall name :: name in kw ==> name in ANNOTATION_PARAMETERS
    ensures BindAnnotationArgs([], kw) == Some(kw)
  {
    var r := BindAnnotationArgs([], kw);
    assert r.Some?;
    assert r.value.Keys == kw.Keys;
    assert forall name :: name in kw ==> r.value[name] == kw[name];
    assert r.value == kw;
  }
}
