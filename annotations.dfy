/**
 * One time-range annotation: its data-space bounds, its selection, activity and
 * hover flags, and the pointer offset recorded when it was grabbed.
 *
 * `AnnotationRecord` is the value of an annotation at one moment; each of its
 * update functions is the effect of one operation of the annotation, and each
 * read-only query of the annotation is a member of the record. The class
 * `Annotation` is the object that the operations update in place; each of its
 * methods is proved to produce the record its update function describes.
 *
 * The rectangle the renderer draws for an annotation is represented by the fact
 * that it exists (`hasHandle`, `attachedToAxis`) and by its own data-space `x`
 * and `width` (`rectX`, `rectWidth`). These are copied from the bounds only by
 * the operations that redraw the rectangle (`attach_to_axis`, `fix_min_and_max`,
 * `set_x_min`, `set_x_max`); `move_x_range` changes the bounds and leaves the
 * rectangle where it was. The pixel bounding box the renderer reports for the
 * rectangle is an input (`Extents`) to the operations that use it.
 */
module Annotations {
  import opened Wrappers

  /** Pixel tolerance around an edge within which the pointer grabs that edge. */
  const DEFAULT_EDGE_GRAB_MARGIN: real := 5.0

  /** The pixel-space bounding box the renderer reports for a drawn rectangle. */
  datatype Extents = Extents(x0: real, xmax: real)

  function Abs(v: real): (r: real)
    ensures r >= 0.0 && (r == v || r == -v)
  {
    if v < 0.0 then -v else v
  }

  /**
   * NumPy's clip of a scalar: the smaller of `hi` and the larger of `x` and `lo`,
   * so that when `lo > hi` every value is sent to `hi`.
   */
  function Clip(x: real, lo: real, hi: real): (r: real)
    ensures lo <= hi ==> lo <= r <= hi
    ensures lo <= x <= hi ==> r == x
    ensures r <= hi
    ensures hi < lo ==> r == hi
  {
    var atLeastLo := if x < lo then lo else x;
    if atLeastLo < hi then atLeastLo else hi
  }

  /** The value a setter with an optional `valid_range` stores: `x` itself, or `x` clipped into the range. */
  function RangeClip(x: real, validRange: Option<(real, real)>): (v: real)
    ensures validRange.None? ==> v == x
    ensures validRange.Some? && validRange.value.0 <= validRange.value.1 ==>
      validRange.value.0 <= v <= validRange.value.1
    ensures validRange.Some? && validRange.value.0 <= x <= validRange.value.1 ==> v == x
  {
    if validRange.None? then x else Clip(x, validRange.value.0, validRange.value.1)
  }

  /** The strict edge test: the pointer pixel lies less than `margin` away from the edge pixel. */
  predicate NearEdge(edgePixel: real, xPixels: real, margin: real)
  {
    Abs(edgePixel - xPixels) < margin
  }

  /** The bound pair after normalisation: the same two values, swapped only when inverted. */
  function OrderedPair(lo: real, hi: real): (r: (real, real))
    ensures r.0 <= r.1
    ensures r == (lo, hi) || r == (hi, lo)
    ensures lo <= hi ==> r == (lo, hi)
  {
    if hi < lo then (hi, lo) else (lo, hi)
  }

  /** Normalising twice is normalising once. */
  lemma OrderedPairIdempotent(lo: real, hi: real)
    ensures OrderedPair(OrderedPair(lo, hi).0, OrderedPair(lo, hi).1) == OrderedPair(lo, hi)
  {
  }

  /** The pointer flags of an annotation as a whole. */
  datatype Flags = Flags(active: bool, selected: bool, hovering: bool, moving: bool)

  /** The pointer flags of one edge of an annotation: within the grab margin, and armed for dragging. */
  datatype EdgeFlags = EdgeFlags(hovering: bool, active: bool)

  /**
   * Every field of an annotation at one moment, so that one equation can state
   * a whole new state. The flags of the annotation and of each edge are grouped
   * (`flags.active` is `active`, `left.hovering` is `left_edge_hovering`,
   * `right.active` is `right_edge_active`, and so on).
   */
  datatype AnnotationRecord = AnnotationRecord(
    labelText: string,
    hasHandle: bool,
    attachedToAxis: bool,
    rectX: real,
    rectWidth: real,
    flags: Flags,
    left: EdgeFlags,
    right: EdgeFlags,
    xMin: real,
    xMax: real,
    yMin: real,
    yMax: real,
    edgeGrabMarginX: real,
    edgeGrabMarginY: real,
    mouseOffsetXMin: real,
    xmin: Option<real>)
  {
    // ---------------------------------------------------------------
    // Updates
    // ---------------------------------------------------------------

    /** `update_select_offset(x)`: the offset from the pointer to the lower bound. */
    function WithSelectOffset(x: real): (r: AnnotationRecord)
      ensures r.xMin - x == r.mouseOffsetXMin
      ensures r.(mouseOffsetXMin := mouseOffsetXMin) == this
    {
      this.(mouseOffsetXMin := xMin - x)
    }

    /**
     * `update_hovering(x_pixels)` with the rectangle's pixel box: the body flag
     * holds when the pointer pixel is inside the box, inclusive; each edge flag
     * when the pointer is strictly within the margin of that edge, so both edge
     * flags can hold at once. Without a rectangle nothing changes.
     */
    function Hovered(box: Extents, xPixels: real): (r: AnnotationRecord)
      ensures hasHandle ==> (r.flags.hovering <==> box.x0 <= xPixels <= box.xmax)
      ensures hasHandle ==> (r.left.hovering <==> Abs(box.x0 - xPixels) < edgeGrabMarginX)
      ensures hasHandle ==> (r.right.hovering <==> Abs(box.xmax - xPixels) < edgeGrabMarginX)
      ensures r.(flags := r.flags.(hovering := flags.hovering),
                 left := r.left.(hovering := left.hovering),
                 right := r.right.(hovering := right.hovering)) == this
      ensures !hasHandle ==> r == this
    {
      var inside := box.x0 <= xPixels <= box.xmax;
      var nearLeft := NearEdge(box.x0, xPixels, edgeGrabMarginX);
      var nearRight := NearEdge(box.xmax, xPixels, edgeGrabMarginX);
      if hasHandle then
        this.(flags := flags.(hovering := inside), left := left.(hovering := nearLeft), right := right.(hovering := nearRight))
      else this
    }

    /** `update_activated_edges`: a hovered edge becomes armed; an armed edge is never disarmed. */
    function EdgesArmed(): (r: AnnotationRecord)
      ensures r.left.active <==> left.active || left.hovering
      ensures r.right.active <==> right.active || right.hovering
      ensures r.(left := r.left.(active := left.active), right := r.right.(active := right.active)) == this
    {
      this.(left := left.(active := left.active || left.hovering),
            right := right.(active := right.active || right.hovering))
    }

    /** `activate(x)`: the grab offset from pointer `x` recorded, and the annotation selected and active. */
    function Activated(x: real): (r: AnnotationRecord)
      ensures r.flags.active && r.flags.selected && r.xMin - x == r.mouseOffsetXMin
      ensures r.(flags := r.flags.(active := flags.active, selected := flags.selected), mouseOffsetXMin := mouseOffsetXMin) == this
    {
      this.(mouseOffsetXMin := xMin - x, flags := flags.(selected := true, active := true))
    }

    /** `deselect`: neither active nor selected. */
    function Deselected(): (r: AnnotationRecord)
      ensures !r.flags.active && !r.flags.selected
      ensures r.(flags := r.flags.(active := flags.active, selected := flags.selected)) == this
    {
      this.(flags := flags.(active := false, selected := false))
    }

    /** `deactivate`: no longer active, still selected if it was. */
    function Deactivated(): (r: AnnotationRecord)
      ensures !r.flags.active && r.flags.selected == flags.selected
      ensures r.(flags := r.flags.(active := flags.active)) == this
    {
      this.(flags := flags.(active := false))
    }

    /** The rectangle's left edge and width agree with the bounds, as they do right after the rectangle is redrawn. */
    predicate RectMatchesBounds()
    {
      rectX == xMin && rectWidth == xMax - xMin
    }

    /** The rectangle moved and resized over the current bounds (`set_x(get_rect_x())`, `set_width(get_rect_width())`). */
    function RectRedrawn(): (r: AnnotationRecord)
      ensures r.RectMatchesBounds()
      ensures r.(rectX := rectX, rectWidth := rectWidth) == this
    {
      this.(rectX := xMin, rectWidth := xMax - xMin)
    }

    /** `attach_to_axis`: a rectangle created over the bounds and added to the axis. */
    function Attached(): (r: AnnotationRecord)
      ensures r.hasHandle && r.attachedToAxis && r.RectMatchesBounds()
      ensures r.(hasHandle := hasHandle, attachedToAxis := attachedToAxis, rectX := rectX, rectWidth := rectWidth) == this
    {
      this.(hasHandle := true, attachedToAxis := true).RectRedrawn()
    }

    /**
     * `fix_min_and_max`: the bounds in order, the same two values, swapped only
     * when inverted; a rectangle, if there is one, is redrawn over them.
     */
    function BoundsFixed(): (r: AnnotationRecord)
      ensures r.xMin <= r.xMax
      ensures (r.xMin, r.xMax) == (xMin, xMax) || (r.xMin, r.xMax) == (xMax, xMin)
      ensures xMin <= xMax ==> r.xMin == xMin && r.xMax == xMax
      ensures hasHandle ==> r.RectMatchesBounds()
      ensures !hasHandle ==> r.rectX == rectX && r.rectWidth == rectWidth
      ensures r.(xMin := xMin, xMax := xMax, rectX := rectX, rectWidth := rectWidth) == this
    {
      var p := OrderedPair(xMin, xMax);
      var fixed := this.(xMin := p.0, xMax := p.1);
      if hasHandle then fixed.RectRedrawn() else fixed
    }

    /** `deactivate_edges`: both edges disarmed. */
    function EdgesDisarmed(): (r: AnnotationRecord)
      ensures !r.left.active && !r.right.active
      ensures r.(left := r.left.(active := left.active), right := r.right.(active := right.active)) == this
    {
      this.(left := left.(active := false), right := right.(active := false))
    }

    /**
     * `move_x_range(new_x_min, include_offset)`: shifted to `newXMin` (plus the
     * grab offset), keeping its width. The rectangle is not redrawn, so it stays
     * where it was.
     */
    function XRangeMoved(newXMin: real, includeOffset: bool): (r: AnnotationRecord)
      ensures r.xMin == if includeOffset then newXMin + mouseOffsetXMin else newXMin
      ensures r.xMax - r.xMin == xMax - xMin
      ensures r.rectX == rectX && r.rectWidth == rectWidth
      ensures r.(xMin := xMin, xMax := xMax) == this
    {
      var lo := if includeOffset then newXMin + mouseOffsetXMin else newXMin;
      this.(xMin := lo, xMax := lo + (xMax - xMin))
    }

    /**
     * `set_x_min(x, valid_range)`: without a range the lower bound becomes `x`.
     * With a range the clipped value goes to the misspelled attribute `xmin`
     * and the lower bound keeps its value. The rectangle is then redrawn over
     * the bounds, unconditionally, so a rectangle must exist.
     */
    function XMinSet(x: real, validRange: Option<(real, real)>): (r: AnnotationRecord)
      requires hasHandle
      ensures r.xMin == (if validRange.None? then x else xMin)
      ensures r.xmin == (if validRange.None? then xmin else Some(RangeClip(x, validRange)))
      ensures r.RectMatchesBounds()
      ensures r.(xMin := xMin, xmin := xmin, rectX := rectX, rectWidth := rectWidth) == this
    {
      if validRange.None? then this.(xMin := x).RectRedrawn()
      else this.(xmin := Some(RangeClip(x, validRange))).RectRedrawn()
    }

    /**
     * `set_x_max(x, valid_range)`: the upper bound becomes `x`, clipped into the
     * range when one is given, and the rectangle is redrawn over the bounds.
     */
    function XMaxSet(x: real, validRange: Option<(real, real)>): (r: AnnotationRecord)
      requires hasHandle
      ensures r.xMax == RangeClip(x, validRange)
      ensures r.RectMatchesBounds()
      ensures r.(xMax := xMax, rectX := rectX, rectWidth := rectWidth) == this
    {
      this.(xMax := RangeClip(x, validRange)).RectRedrawn()
    }

    // ---------------------------------------------------------------
    // Queries
    // ---------------------------------------------------------------

    /** `get_x_centre`: the midpoint, as far from the lower bound as from the upper one. */
    function XCentre(): (c: real)
      ensures c - xMin == xMax - c
    {
      (xMin + xMax) * 0.5
    }

    /** `get_rect_width`: the signed width of the rectangle, negative while the bounds are inverted. */
    function RectWidth(): (w: real)
      ensures xMin + w == xMax
      ensures w >= 0.0 <==> xMin <= xMax
    {
      xMax - xMin
    }

    /** `get_rect_height`. */
    function RectHeight(): (h: real)
      ensures yMin + h == yMax
    {
      yMax - yMin
    }

    /** `get_x_min_pixels`: the rectangle's left pixel edge, or 0 while there is no rectangle. */
    function XMinPixels(box: Extents): (p: real)
      ensures hasHandle ==> p == box.x0
      ensures !hasHandle ==> p == 0.0
    {
      if hasHandle then box.x0 else 0.0
    }

    /** `get_x_max_pixels`: the rectangle's right pixel edge, or 0 while there is no rectangle. */
    function XMaxPixels(box: Extents): (p: real)
      ensures hasHandle ==> p == box.xmax
      ensures !hasHandle ==> p == 0.0
    {
      if hasHandle then box.xmax else 0.0
    }

    /** `is_edge_hovering`. */
    predicate IsEdgeHovering()
    {
      left.hovering || right.hovering
    }

    /**
     * `is_hovering(x, y)`: the inclusive hit test in data space. An absent
     * coordinate never hits, a point outside either range never hits, and only
     * an annotation with ordered bounds can be hit at all.
     */
    predicate IsHovering(x: Option<real>, y: Option<real>)
      ensures x.None? || y.None? ==> !IsHovering(x, y)
      ensures x.Some? && (x.value < xMin || xMax < x.value) ==> !IsHovering(x, y)
      ensures y.Some? && (y.value < yMin || yMax < y.value) ==> !IsHovering(x, y)
      ensures IsHovering(x, y) ==> xMin <= xMax && yMin <= yMax
    {
      x.Some? && y.Some? && xMin <= x.value <= xMax && yMin <= y.value <= yMax
    }
  }

  const NO_FLAGS := Flags(false, false, false, false)
  const NO_EDGE_FLAGS := EdgeFlags(false, false)

  /** The record of `Annotation(x_min, x_max, y_min, y_max, margin_x, margin_y)`: no label, no rectangle, no flag set. */
  function NewRecord(xMin: real, xMax: real, yMin: real, yMax: real, marginX: real, marginY: real): (r: AnnotationRecord)
    ensures !r.hasHandle && r.flags == NO_FLAGS && r.left == NO_EDGE_FLAGS && r.right == NO_EDGE_FLAGS
    ensures r.xMin == xMin && r.xMax == xMax && r.yMin == yMin && r.yMax == yMax
    ensures r.edgeGrabMarginX == marginX && r.edgeGrabMarginY == marginY && r.mouseOffsetXMin == 0.0
  {
    AnnotationRecord("", false, false, 0.0, 0.0, NO_FLAGS, NO_EDGE_FLAGS, NO_EDGE_FLAGS,
      xMin, xMax, yMin, yMax, marginX, marginY, 0.0, None)
  }

  class Annotation {
    var labelText: string
    /** A rectangle has been created for this annotation. */
    var hasHandle: bool
    var attachedToAxis: bool
    /** The rectangle's data-space left edge and width, as last drawn. */
    var rectX: real
    var rectWidth: real
    var active: bool
    var selected: bool
    var hovering: bool
    var moving: bool
    var leftEdgeHovering: bool
    var rightEdgeHovering: bool
    var leftEdgeActive: bool
    var rightEdgeActive: bool
    var xMin: real
    var xMax: real
    var yMin: real
    var yMax: real
    var edgeGrabMarginX: real
    var edgeGrabMarginY: real
    /** Offset from the pointer to `xMin`, recorded when the annotation is grabbed. */
    var mouseOffsetXMin: real
    /**
     * The attribute that `set_x_min` writes when it is given a valid range: the
     * name differs from `x_min` by one underscore, so the bound itself is not
     * changed. It does not exist until that first write.
     */
    var xmin: Option<real>

    /** The annotation's fields as one value. */
    function Record(): AnnotationRecord
      reads this
    {
      AnnotationRecord(labelText, hasHandle, attachedToAxis, rectX, rectWidth,
        Flags(active, selected, hovering, moving),
        EdgeFlags(leftEdgeHovering, leftEdgeActive), EdgeFlags(rightEdgeHovering, rightEdgeActive),
        xMin, xMax, yMin, yMax, edgeGrabMarginX, edgeGrabMarginY, mouseOffsetXMin, xmin)
    }

    constructor (xMin: real, xMax: real, yMin: real, yMax: real, marginX: real, marginY: real)
      ensures Record() == NewRecord(xMin, xMax, yMin, yMax, marginX, marginY)
    {
      labelText := "";
      hasHandle := false;
      attachedToAxis := false;
      rectX := 0.0;
      rectWidth := 0.0;
      active := false;
      selected := false;
      hovering := false;
      moving := false;
      leftEdgeHovering := false;
      rightEdgeHovering := false;
      leftEdgeActive := false;
      rightEdgeActive := false;
      this.xMin := xMin;
      this.xMax := xMax;
      this.yMin := yMin;
      this.yMax := yMax;
      edgeGrabMarginX := marginX;
      edgeGrabMarginY := marginY;
      mouseOffsetXMin := 0.0;
      xmin := None;
    }

    method UpdateSelectOffset(x: real)
      modifies this`mouseOffsetXMin
      ensures Record() == old(Record()).WithSelectOffset(x)
    {
      mouseOffsetXMin := xMin - x;
    }

    method UpdateHovering(xPixels: real, box: Extents)
      modifies this`hovering, this`leftEdgeHovering, this`rightEdgeHovering
      ensures Record() == old(Record()).Hovered(box, xPixels)
    {
      if hasHandle {
        hovering := box.x0 <= xPixels <= box.xmax;
        leftEdgeHovering := Abs(box.x0 - xPixels) < edgeGrabMarginX;
        rightEdgeHovering := Abs(box.xmax - xPixels) < edgeGrabMarginX;
      }
    }

    method UpdateActivatedEdges()
      modifies this`leftEdgeActive, this`rightEdgeActive
      ensures Record() == old(Record()).EdgesArmed()
    {
      if leftEdgeHovering {
        leftEdgeActive := true;
      }
      if rightEdgeHovering {
        rightEdgeActive := true;
      }
    }

    method Activate(x: real)
      modifies this`mouseOffsetXMin, this`selected, this`active
      ensures Record() == old(Record()).Activated(x)
    {
      mouseOffsetXMin := xMin - x;
      selected := true;
      active := true;
    }

    method Deselect()
      modifies this`active, this`selected
      ensures Record() == old(Record()).Deselected()
    {
      active := false;
      selected := false;
    }

    method Deactivate()
      modifies this`active
      ensures Record() == old(Record()).Deactivated()
    {
      active := false;
    }

    method AttachToAxis()
      modifies this`hasHandle, this`attachedToAxis, this`rectX, this`rectWidth
      ensures Record() == old(Record()).Attached()
    {
      rectX := xMin;
      rectWidth := xMax - xMin;
      hasHandle := true;
      attachedToAxis := true;
    }

    /** The geometry half of `update_rect_handle`, which `fix_min_and_max`, `set_x_min` and `set_x_max` repeat inline. */
    method RedrawRect()
      modifies this`rectX, this`rectWidth
      ensures Record() == old(Record()).RectRedrawn()
    {
      rectX := xMin;
      rectWidth := xMax - xMin;
    }

    method FixMinAndMax()
      modifies this`xMin, this`xMax, this`rectX, this`rectWidth
      ensures Record() == old(Record()).BoundsFixed()
    {
      if xMax < xMin {
        xMin, xMax := xMax, xMin;
      }
      if hasHandle {
        RedrawRect();
      }
    }

    method DeactivateEdges()
      modifies this`leftEdgeActive, this`rightEdgeActive
      ensures Record() == old(Record()).EdgesDisarmed()
    {
      leftEdgeActive := false;
      rightEdgeActive := false;
    }

    method MoveXRange(newXMin: real, includeOffset: bool)
      modifies this`xMin, this`xMax
      ensures Record() == old(Record()).XRangeMoved(newXMin, includeOffset)
    {
      var width := xMax - xMin;
      xMin := if includeOffset then newXMin + mouseOffsetXMin else newXMin;
      xMax := xMin + width;
    }

    method SetXMin(x: real, validRange: Option<(real, real)>)
      requires hasHandle
      modifies this`xMin, this`xmin, this`rectX, this`rectWidth
      ensures Record() == old(Record()).XMinSet(x, validRange)
    {
      if validRange.None? {
        xMin := x;
      } else {
        xmin := Some(Clip(x, validRange.value.0, validRange.value.1));
      }
      RedrawRect();
    }

    method SetXMax(x: real, validRange: Option<(real, real)>)
      requires hasHandle
      modifies this`xMax, this`rectX, this`rectWidth
      ensures Record() == old(Record()).XMaxSet(x, validRange)
    {
      if validRange.None? {
        xMax := x;
      } else {
        xMax := Clip(x, validRange.value.0, validRange.value.1);
      }
      RedrawRect();
    }
  }

  // ------------------------------------------------------------------
  // Properties of the operations
  // ------------------------------------------------------------------

  /** The hit test is inclusive at both bounds and at the centre, and fails without a coordinate. */
  lemma HitTestBoundaries(r: AnnotationRecord, y: real)
    requires r.xMin <= r.xMax && r.yMin <= y <= r.yMax
    ensures r.IsHovering(Some(r.xMin), Some(y)) && r.IsHovering(Some(r.xMax), Some(y))
    ensures r.IsHovering(Some(r.XCentre()), Some(y))
    ensures !r.IsHovering(None, Some(y)) && !r.IsHovering(Some(r.xMin), None)
  {
  }

  /**
   * `is_edge_hovering` after `update_hovering`: with a rectangle, the annotation
   * is edge-hovered exactly when the pointer pixel is strictly within the
   * margin of either side of the box; without one, the flags are those it had.
   */
  lemma EdgeHoveringAfterHover(r: AnnotationRecord, box: Extents, xPixels: real)
    ensures r.hasHandle ==> (r.Hovered(box, xPixels).IsEdgeHovering() <==>
      NearEdge(box.x0, xPixels, r.edgeGrabMarginX) || NearEdge(box.xmax, xPixels, r.edgeGrabMarginX))
    ensures !r.hasHandle ==> r.Hovered(box, xPixels).IsEdgeHovering() == r.IsEdgeHovering()
  {
  }

  /** Grabbing at pointer `x` and then moving with the offset to the same pointer leaves both bounds where they were. */
  lemma ActivateThenMoveKeepsBounds(r: AnnotationRecord, x: real)
    ensures r.Activated(x).XRangeMoved(x, true) == r.Activated(x)
  {
  }

  /** Normalising the bounds twice is normalising them once. */
  lemma BoundsFixedIdempotent(r: AnnotationRecord)
    ensures r.BoundsFixed().BoundsFixed() == r.BoundsFixed()
  {
    OrderedPairIdempotent(r.xMin, r.xMax);
  }

  /** Deselecting clears what activating set, except the recorded offset. */
  lemma DeselectUndoesActivate(r: AnnotationRecord, x: real)
    requires !r.flags.active && !r.flags.selected
    ensures r.Activated(x).Deselected() == r.WithSelectOffset(x)
  {
  }

  /** Arming the edges is idempotent and never disarms an edge. */
  lemma EdgesArmedMonotone(r: AnnotationRecord)
    ensures r.EdgesArmed().EdgesArmed() == r.EdgesArmed()
    ensures r.left.active ==> r.EdgesArmed().left.active
    ensures r.right.active ==> r.EdgesArmed().right.active
  {
  }

  /** Without a range, setting the lower bound and then the upper one gives exactly the pair asked for. */
  lemma SetBoundsGivesPair(r: AnnotationRecord, lo: real, hi: real)
    requires r.hasHandle
    ensures var s := r.XMinSet(lo, None).XMaxSet(hi, None);
      s.xMin == lo && s.xMax == hi && s.RectMatchesBounds()
      && s.(xMin := r.xMin, xMax := r.xMax, rectX := r.rectX, rectWidth := r.rectWidth) == r
  {
  }
}
