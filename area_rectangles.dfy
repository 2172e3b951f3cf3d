/**
 * The earlier rectangle model of an annotation: a position `x` and a signed
 * `width` instead of two bounds. Most setters act only once a rectangle has been
 * attached to an axis (`hasHandle`) and when their argument is present.
 */
module AreaRectangles {
  import opened Wrappers
  import opened Annotations

  datatype Edge = Left | Right

  /** The span after `fix_negative_width`: a non-negative width over the same two endpoints. */
  function NonNegativeSpan(x: real, width: real): (r: (real, real))
    ensures r.1 >= 0.0
    ensures {r.0, r.0 + r.1} == {x, x + width}
    ensures width >= 0.0 ==> r == (x, width)
  {
    if width < 0.0 then (x + width, Abs(width)) else (x, width)
  }

  class AreaRectangle {
    var labelText: string
    var hasHandle: bool
    var attached: bool
    var selected: bool
    var leftEdgeSelected: bool
    var rightEdgeSelected: bool
    var stage: string
    var x: real
    var y: real
    var width: real
    var height: real
    var edgeGrabMarginX: real
    var edgeGrabMarginY: real
    /** Offset from the pointer to `x` at selection; absent until first recorded. */
    var mouseOffsetX: Option<real>

    constructor (x: real, y: real, width: real, height: real, marginX: real, marginY: real)
      ensures this.x == x && this.y == y && this.width == width && this.height == height
      ensures edgeGrabMarginX == marginX && edgeGrabMarginY == marginY
      ensures !hasHandle && !attached && !selected && !leftEdgeSelected && !rightEdgeSelected
      ensures labelText == "" && stage == "idle" && mouseOffsetX == None
    {
      labelText := "";
      hasHandle := false;
      attached := false;
      selected := false;
      leftEdgeSelected := false;
      rightEdgeSelected := false;
      stage := "idle";
      this.x := x;
      this.y := y;
      this.width := width;
      this.height := height;
      edgeGrabMarginX := marginX;
      edgeGrabMarginY := marginY;
      mouseOffsetX := None;
    }

    method Select(mouseX: real)
      modifies this`mouseOffsetX, this`selected
      ensures hasHandle ==> mouseOffsetX == Some(x - mouseX) && selected
      ensures !hasHandle ==> unchanged(this)
    {
      if hasHandle {
        mouseOffsetX := Some(x - mouseX);
        selected := true;
      }
    }

    method UpdateSelectOffset(mouseX: real)
      modifies this`mouseOffsetX
      ensures mouseOffsetX == Some(x - mouseX)
    {
      mouseOffsetX := Some(x - mouseX);
    }

    method Deselect()
      modifies this`selected
      ensures hasHandle ==> !selected
      ensures !hasHandle ==> unchanged(this)
    {
      if hasHandle {
        selected := false;
      }
    }

    /** Creating and adding the rectangle, reduced to the two facts the rest of the model reads. */
    method Attach()
      modifies this`hasHandle, this`attached
      ensures hasHandle && attached
    {
      hasHandle := true;
      attached := true;
    }

    /**
     * Inclusive hit test in data space. An absent coordinate never hits, a point
     * outside either span never hits, and a rectangle whose width or height is
     * negative (before `fix_negative_width`) is never hit.
     */
    predicate IsHovering(px: Option<real>, py: Option<real>)
      reads this
      ensures px.None? || py.None? ==> !IsHovering(px, py)
      ensures px.Some? && (px.value < x || x + width < px.value) ==> !IsHovering(px, py)
      ensures py.Some? && (py.value < y || y + height < py.value) ==> !IsHovering(px, py)
      ensures IsHovering(px, py) ==> width >= 0.0 && height >= 0.0
    {
      px.Some? && py.Some? && x <= px.value <= x + width && y <= py.value <= y + height
    }

    /**
     * The edge under the pointer pixel: the left one when it is within the margin,
     * otherwise the right one when that is, otherwise none; none without a rectangle.
     */
    function IsHoveringEdge(xPixels: real, box: Extents): (r: Option<Edge>)
      reads this
      ensures r == Some(Left) <==> hasHandle && NearEdge(box.x0, xPixels, edgeGrabMarginX)
      ensures r == Some(Right) <==>
        hasHandle && !NearEdge(box.x0, xPixels, edgeGrabMarginX) && NearEdge(box.xmax, xPixels, edgeGrabMarginX)
      ensures r.None? <==>
        !hasHandle || (!NearEdge(box.x0, xPixels, edgeGrabMarginX) && !NearEdge(box.xmax, xPixels, edgeGrabMarginX))
    {
      if !hasHandle then None
      else if Abs(box.x0 - xPixels) < edgeGrabMarginX then Some(Left)
      else if Abs(box.xmax - xPixels) < edgeGrabMarginX then Some(Right)
      else None
    }

    /** Move the left edge to `v`, keeping the right edge `x + width` where it is. */
    method SetXMin(v: Option<real>)
      modifies this`x, this`width
      ensures hasHandle && v.Some? ==> x == v.value && x + width == old(x + width)
      ensures !(hasHandle && v.Some?) ==> unchanged(this)
    {
      if hasHandle && v.Some? {
        width := x + width - v.value;
        x := v.value;
      }
    }

    /** Move the right edge to `v`, keeping `x`. */
    method SetXMax(v: Option<real>)
      modifies this`width
      ensures hasHandle && v.Some? ==> x + width == v.value
      ensures !(hasHandle && v.Some?) ==> unchanged(this)
    {
      if hasHandle && v.Some? {
        width := v.value - x;
      }
    }

    /** Move the rectangle to `v`, or to `v` plus the recorded offset; the width never changes. */
    method SetX(v: Option<real>, withOffset: bool)
      requires hasHandle && v.Some? && withOffset ==> mouseOffsetX.Some?
      modifies this`x
      ensures hasHandle && v.Some? ==>
        x == if withOffset then v.value + mouseOffsetX.value else v.value
      ensures !(hasHandle && v.Some?) ==> unchanged(this)
    {
      if hasHandle && v.Some? {
        x := if !withOffset then v.value else v.value + mouseOffsetX.value;
      }
    }

    method SetWidth(w: Option<real>)
      modifies this`width
      ensures hasHandle && w.Some? ==> width == w.value
      ensures !(hasHandle && w.Some?) ==> unchanged(this)
    {
      if hasHandle && w.Some? {
        width := w.value;
      }
    }

    method FixNegativeWidth()
      modifies this`x, this`width
      ensures (x, width) == NonNegativeSpan(old(x), old(width))
    {
      if width < 0.0 {
        x := x + width;
        width := Abs(width);
      }
    }
  }

  /**
   * A rectangle and an annotation that cover the same spans agree on every hit
   * test: the two representations describe the same region.
   */
  lemma HitTestsAgree(r: AreaRectangle, a: AnnotationRecord, px: Option<real>, py: Option<real>)
    requires a.xMin == r.x && a.xMax == r.x + r.width
    requires a.yMin == r.y && a.yMax == r.y + r.height
    ensures r.IsHovering(px, py) == a.IsHovering(px, py)
  {
  }

  /**
   * The edge the rectangle reports agrees with the annotation's hover flags for
   * the same box and margin: left whenever the left flag would be set, right only
   * when the right flag would be set and the left one would not.
   */
  lemma EdgeReportMatchesHoverFlags(r: AreaRectangle, xPixels: real, box: Extents)
    requires r.hasHandle
    ensures r.IsHoveringEdge(xPixels, box) == Some(Left) <==> NearEdge(box.x0, xPixels, r.edgeGrabMarginX)
    ensures NearEdge(box.x0, xPixels, r.edgeGrabMarginX) && NearEdge(box.xmax, xPixels, r.edgeGrabMarginX) ==>
      r.IsHoveringEdge(xPixels, box) == Some(Left)
  {
  }

  /** Selecting at pointer `m` and then moving with the offset to the same pointer leaves `x` in place. */
  method SelectThenSetX(r: AreaRectangle, m: real)
    requires r.hasHandle
    modifies r
    ensures r.x == old(r.x) && r.width == old(r.width) && r.selected
  {
    r.Select(m);
    r.SetX(Some(m), true);
  }

  /**
   * Dragging the right edge past the left one and normalising gives a
   * non-negative width over the same two endpoints.
   */
  method DragRightEdgeThenFix(r: AreaRectangle, v: real)
    requires r.hasHandle
    modifies r
    ensures r.width >= 0.0
    ensures {r.x, r.x + r.width} == {old(r.x), v}
  {
    r.SetXMax(Some(v));
    r.FixNegativeWidth();
  }
}
