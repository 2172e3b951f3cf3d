/**
 * The interactive annotator: a list of annotations over a one-dimensional
 * signal, a visible window on its sample axis, and the handlers for pointer
 * presses, moves, releases, scrolls and key presses that create, grab, drag,
 * move and delete annotations and pan and zoom the view.
 *
 * Event data come in as parameters: the button number, the pointer position in
 * data coordinates (absent when the pointer is outside the axes), the pointer
 * position in pixels, the scroll step, the key, and the renderer that reports
 * the pixel box of a rectangle. Each handler is proved to leave exactly the
 * list the matching function of `AnnotatorSteps` or `BottomAxis` describes,
 * and to keep the invariant `ValidState`. The press and release handlers
 * report whether the update of the lower plot raised and stopped them.
 */
module Annotator {
  import opened Wrappers
  import opened Annotations
  import opened AnnotationLists
  import opened Viewport
  import opened AnnotatorSteps
  import opened BottomAxis

  /** Button numbers of the pointer events. */
  const MOUSE_BUTTON_LEFT: int := 1
  const MOUSE_BUTTON_RIGHT: int := 3

  class AudioAnnotator {
    var state: GUIState
    /** The annotations, in list order; each entry is the state of one annotation object. */
    var annotations: seq<AnnotationRecord>
    var currentZoom: real
    var dataXMin: real
    var dataXMax: real
    /** The visible window of the top axis, in data coordinates. */
    var view: Window
    var panningXMinOriginal: real
    var panningXMaxOriginal: real
    var panningMouseX: real
    var mouseLeftDown: bool
    var mouseRightDown: bool
    /** The length of the sample axis (0 before a signal is loaded). */
    var sampleCount: nat
    /** Whether the signal has been plotted on the lower axis. */
    var bottomPlotted: bool

    /** The invariant every handler keeps. */
    predicate Valid()
      reads this
    {
      ValidState(state, annotations)
    }

    /**
     * A new annotator: Idle, no annotations, the data range and the view both
     * the unit interval, no button down, and no signal and no lower plot.
     */
    constructor ()
      ensures Valid()
      ensures state == Idle && annotations == [] && currentZoom == 1.0
      ensures dataXMin == 0.0 && dataXMax == 1.0 && view == Window(0.0, 1.0)
      ensures panningXMinOriginal == 0.0 && panningXMaxOriginal == 0.0 && panningMouseX == 0.0
      ensures !mouseLeftDown && !mouseRightDown
      ensures sampleCount == 0 && !bottomPlotted
    {
      state := Idle;
      annotations := [];
      currentZoom := 1.0;
      dataXMin := 0.0;
      dataXMax := 1.0;
      view := Window(0.0, 1.0);
      panningXMinOriginal := 0.0;
      panningXMaxOriginal := 0.0;
      panningMouseX := 0.0;
      mouseLeftDown := false;
      mouseRightDown := false;
      sampleCount := 0;
      bottomPlotted := false;
    }

    /**
     * Loading a signal of `count` samples: the sample axis runs over the
     * indices and is replaced first, the data bounds are the first and last
     * index, the view is set to them, and the signal is plotted on the lower
     * axis. An empty signal has no minimum: the call fails (`ok` is false)
     * after replacing the sample axis, and the range, the view and the lower
     * plot are left as they were.
     */
    method SetSignal(count: nat) returns (ok: bool)
      modifies this`sampleCount, this`dataXMin, this`dataXMax, this`view, this`bottomPlotted
      ensures ok <==> count >= 1
      ensures sampleCount == count
      ensures ok ==> dataXMin == 0.0 && dataXMax == (count - 1) as real && view == Window(dataXMin, dataXMax) && bottomPlotted
      ensures !ok ==> dataXMin == old(dataXMin) && dataXMax == old(dataXMax) && view == old(view) && bottomPlotted == old(bottomPlotted)
    {
      sampleCount := count;
      if count == 0 {
        return false;
      }
      dataXMin := 0.0;
      dataXMax := (count - 1) as real;
      view := Window(dataXMin, dataXMax);
      bottomPlotted := true;
      ok := true;
    }

    /**
     * `_update_bottom_axis(start, stop)`, for whether it raises: the slices of
     * the samples never fail, handing them to the lower plot's line needs the
     * line, and the new axis limits index the samples at `start` and `stop - 1`.
     */
    method UpdateBottomAxis(start: int, stop: int) returns (raised: bool)
      ensures raised == BottomAxisRaises(sampleCount, bottomPlotted, start, stop)
    {
      if !bottomPlotted {
        return true;
      }
      var n := sampleCount as int;
      raised := !(-n <= start < n) || !(-n <= stop - 1 < n);
    }

    /** Reorder the list by lower bound, keeping the order of annotations with equal bounds. */
    method SortAreas()
      modifies this`annotations
      ensures annotations == SortByXMin(old(annotations))
      ensures SortedByXMin(annotations) && multiset(annotations) == multiset(old(annotations))
    {
      annotations := SortByXMin(annotations);
    }

    /** `_remove_areas(targets)`: each target in turn removed from the list with `list.remove`. */
    method RemoveAreas(targets: seq<AnnotationRecord>)
      requires AllPresent(annotations, targets)
      modifies this`annotations
      ensures annotations == RemoveAll(old(annotations), targets)
      ensures |annotations| == |old(annotations)| - |targets|
    {
      ghost var before := annotations;
      var i := 0;
      while i < |targets|
        invariant 0 <= i <= |targets|
        invariant AllPresent(annotations, targets[i..])
        invariant RemoveAll(annotations, targets[i..]) == RemoveAll(before, targets)
      {
        assert targets[i..] == [targets[i]] + targets[i + 1..];
        annotations := ListRemove(annotations, targets[i]);
        i := i + 1;
      }
    }

    // ----------------------------------------------------------------
    // The loops of the handlers
    // ----------------------------------------------------------------

    /** Deselect every annotation. */
    method DeselectAllAreas()
      modifies this`annotations
      ensures annotations == DeselectAll(old(annotations))
    {
      ghost var before := annotations;
      var i := 0;
      while i < |annotations|
        invariant 0 <= i <= |annotations| == |before|
        invariant forall k :: 0 <= k < i ==> annotations[k] == before[k].Deselected()
        invariant forall k :: i <= k < |annotations| ==> annotations[k] == before[k]
      {
        annotations := annotations[i := annotations[i].Deselected()];
        i := i + 1;
      }
    }

    /**
     * The press loop over the list: arm edges, grab edges and hit areas, and
     * choose the mode; it stops when the update of the lower plot for a grabbed
     * area raises.
     */
    method ScanForPress(m: real) returns (raised: bool)
      requires state == Idle
      modifies this`state, this`annotations
      ensures (state, annotations, raised) == PressScanUntilRaise(old(annotations), m, sampleCount, bottomPlotted)
    {
      ghost var before := annotations;
      var i := 0;
      raised := false;
      while i < |annotations| && !raised
        invariant 0 <= i <= |annotations| == |before|
        invariant (state, annotations[..i], raised) == PressScanUntilRaise(before[..i], m, sampleCount, bottomPlotted)
        invariant forall k :: i <= k < |annotations| ==> annotations[k] == before[k]
      {
        PressScanUntilRaiseStep(before, m, sampleCount, bottomPlotted, i);
        ghost var prev := annotations;
        raised := PressAt(i, m);
        assert annotations[..i + 1] == prev[..i] + [annotations[i]];
        i := i + 1;
      }
      if raised {
        PressScanUntilRaiseStopped(before, m, sampleCount, bottomPlotted, i);
        assert annotations == annotations[..i] + before[i..];
      } else {
        assert before[..i] == before;
        assert annotations[..i] == annotations;
      }
    }

    /**
     * One pass of the press loop, over the annotation at position `i`; when it
     * grabs the area by its body, the lower plot is updated to the area's
     * bounds rounded to sample indices, and `raised` says whether that raised.
     */
    method PressAt(i: nat, m: real) returns (raised: bool)
      requires i < |annotations|
      modifies this`state, this`annotations
      ensures var q := PressStep(old(state), old(annotations)[i], m);
        state == q.0 && annotations == old(annotations)[i := q.1]
      ensures raised == (old(state) == Idle && state == MovingArea && BoundsUpdateRaises(sampleCount, bottomPlotted, old(annotations)[i]))
    {
      raised := false;
      var a := annotations[i].EdgesArmed();
      if a.IsEdgeHovering() {
        a := a.Activated(m);
        state := MovingEdge;
      }
      if state == Idle && a.IsHovering(Some(m), Some(0.0)) {
        state := MovingArea;
        a := a.Activated(m);
        annotations := annotations[i := a];
        raised := UpdateBottomAxis(RoundHalfEven(a.xMin), RoundHalfEven(a.xMax));
        return;
      }
      annotations := annotations[i := a];
    }

    /** The hover update of every annotation, each with its rectangle's pixel box. */
    method HoverAllAreas(box: Renderer, xPixels: real)
      modifies this`annotations
      ensures annotations == HoverAll(old(annotations), box, xPixels)
    {
      ghost var before := annotations;
      var i := 0;
      while i < |annotations|
        invariant 0 <= i <= |annotations| == |before|
        invariant forall k :: 0 <= k < i ==> annotations[k] == before[k].Hovered(BoxOf(before[k], box), xPixels)
        invariant forall k :: i <= k < |annotations| ==> annotations[k] == before[k]
      {
        var a := annotations[i];
        annotations := annotations[i := a.Hovered(BoxOf(a, box), xPixels)];
        i := i + 1;
      }
    }

    /**
     * The edge-drag loop: each armed edge of each active annotation goes to the
     * pointer, kept between the previous annotation's upper bound and the next
     * one's lower bound. Without a pointer position every annotation is skipped.
     */
    method DragActiveEdges(mouseX: Option<real>)
      requires AllAttached(annotations)
      modifies this`annotations
      ensures mouseX.Some? ==> annotations == Drag(old(annotations), mouseX.value)
      ensures mouseX.None? ==> annotations == old(annotations)
    {
      ghost var before := annotations;
      var i := 0;
      while i < |annotations|
        invariant 0 <= i <= |annotations| == |before|
        invariant AllAttached(annotations)
        invariant mouseX.Some? ==> annotations[..i] == DragPrefix(before, mouseX.value, i)
        invariant mouseX.None? ==> annotations == before
        invariant annotations[i..] == before[i..]
      {
        var a := annotations[i];
        assert a == before[i];
        if !a.flags.active || mouseX.None? {
          assert annotations[..i + 1] == annotations[..i] + [a];
          i := i + 1;
          continue;
        }
        var m := mouseX.value;
        var validMouseX := ClampToNeighbours(i, m);
        if a.left.active {
          a := a.XMinSet(validMouseX, None);
        }
        if a.right.active {
          a := a.XMaxSet(validMouseX, None);
        }
        assert a == DragOne(before[i], m, PreviousXMax(DragPrefix(before, m, i), i), NextXMin(before, i));
        assert annotations[i := a][..i + 1] == annotations[..i] + [a];
        annotations := annotations[i := a];
        i := i + 1;
      }
      assert annotations[..i] == annotations;
    }

    /**
     * The position a dragged edge of the annotation at `i` is set to: the
     * pointer, raised to the previous annotation's upper bound when below it,
     * and lowered to the next annotation's lower bound when above it.
     */
    method ClampToNeighbours(i: nat, m: real) returns (validMouseX: real)
      requires i < |annotations|
      ensures validMouseX == NeighbourClamp(m, PreviousXMax(annotations, i), NextXMin(annotations, i))
    {
      validMouseX := m;
      var xMaxPrevious := NO_PREVIOUS_LIMIT;
      var xMinNext := NO_NEXT_LIMIT;
      if i > 0 {
        xMaxPrevious := annotations[i - 1].xMax;
      }
      if i < |annotations| - 1 {
        xMinNext := annotations[i + 1].xMin;
      }
      if m < xMaxPrevious {
        validMouseX := xMaxPrevious;
      }
      if m > xMinNext {
        validMouseX := xMinNext;
      }
    }

    /** The area-move loop: every active annotation moved with `move_x_range` to the pointer plus its grab offset. */
    method MoveActiveAreas(mouseX: Option<real>)
      requires mouseX.None? ==> forall k :: 0 <= k < |annotations| ==> !annotations[k].flags.active
      modifies this`annotations
      ensures mouseX.Some? ==> annotations == MoveAll(old(annotations), mouseX.value)
      ensures mouseX.None? ==> annotations == old(annotations)
    {
      ghost var before := annotations;
      var i := 0;
      while i < |annotations|
        invariant 0 <= i <= |annotations| == |before|
        invariant mouseX.Some? ==> forall k :: 0 <= k < i ==> annotations[k] == MoveAll(before, mouseX.value)[k]
        invariant forall k :: i <= k < |annotations| ==> annotations[k] == before[k]
        invariant mouseX.None? ==> annotations == before
      {
        var a := annotations[i];
        if !a.flags.active {
          i := i + 1;
          continue;
        }
        annotations := annotations[i := a.XRangeMoved(mouseX.value, true)];
        i := i + 1;
      }
    }

    /**
     * The release loop: every active annotation visited; in NewArea its bounds
     * are fixed and it is removed when its rectangle is too narrow, in
     * MovingEdge its bounds are fixed. A removal does not hold the iterator
     * back, so the annotation that slides into the freed position is skipped.
     * Once the lower plot exists, in NewArea, MovingEdge and MovingArea the
     * plot is then updated to the visited annotation, removed or not, and the
     * loop stops when that raises.
     */
    method ReleaseActiveAreas(box: Renderer) returns (raised: bool)
      modifies this`annotations
      ensures (annotations, raised) == ReleaseLoopUntilRaise(state, old(annotations), 0, box, sampleCount, bottomPlotted)
    {
      ghost var before := annotations;
      var i := 0;
      raised := false;
      while i < |annotations|
        invariant ReleaseLoopUntilRaise(state, annotations, i, box, sampleCount, bottomPlotted)
          == ReleaseLoopUntilRaise(state, before, 0, box, sampleCount, bottomPlotted)
        invariant !raised
        decreases |annotations| - i
      {
        var a := annotations[i];
        if !a.flags.active {
          assert annotations[i := Released(state, a)] == annotations;
          i := i + 1;
          continue;
        }
        ghost var prev := annotations;
        var removed := false;
        if state == NewArea {
          a := a.BoundsFixed();
          var absDelta := Abs(a.XMaxPixels(BoxOf(a, box)) - a.XMinPixels(BoxOf(a, box)));
          if absDelta < MINIMUM_NEW_AREA_WIDTH_PIXELS {
            annotations := annotations[..i] + annotations[i + 1..];
            removed := true;
          }
        }
        if state == MovingEdge {
          a := a.BoundsFixed();
        }
        assert a == Released(state, prev[i]);
        if !removed {
          annotations := annotations[i := a];
        }
        if bottomPlotted && (state == NewArea || state == MovingEdge || state == MovingArea) {
          raised := UpdateBottomAxis(RoundHalfEven(a.xMin), RoundHalfEven(a.xMax));
          if raised {
            return;
          }
        }
        i := i + 1;
      }
    }

    /** Disarm both edges of every annotation. */
    method DisarmAllEdges()
      modifies this`annotations
      ensures annotations == DisarmAll(old(annotations))
    {
      ghost var before := annotations;
      var i := 0;
      while i < |annotations|
        invariant 0 <= i <= |annotations| == |before|
        invariant forall k :: 0 <= k < i ==> annotations[k] == before[k].EdgesDisarmed()
        invariant forall k :: i <= k < |annotations| ==> annotations[k] == before[k]
      {
        annotations := annotations[i := annotations[i].EdgesDisarmed()];
        i := i + 1;
      }
    }

    // ----------------------------------------------------------------
    // Event handlers
    // ----------------------------------------------------------------

    /**
     * A button press. Every press deselects every annotation. A left press in
     * Idle with the pointer on the axes runs the press scan; if that grabs
     * nothing, a new area is created at the pointer and the list re-sorted. A
     * right press in Idle with the pointer on the axes (and no left action)
     * starts a pan, recording the pointer and the current view. When the
     * update of the lower plot for a grabbed area raises, the handler stops
     * there, in MovingArea.
     */
    method OnPress(button: int, mouseX: Option<real>) returns (raised: bool)
      requires Valid()
      modifies this
      ensures Valid()
      ensures mouseLeftDown == (old(mouseLeftDown) || button == MOUSE_BUTTON_LEFT)
      ensures mouseRightDown == (old(mouseRightDown) || button == MOUSE_BUTTON_RIGHT)
      ensures (state, annotations, raised)
        == PressResult(old(state), old(annotations), mouseLeftDown, mouseRightDown, mouseX, sampleCount, bottomPlotted)
      ensures !raised ==> (state, annotations) == PressOutcome(old(state), old(annotations), mouseLeftDown, mouseRightDown, mouseX)
      ensures var pans := old(state) == Idle && !mouseLeftDown && mouseRightDown && mouseX.Some?;
        && (pans ==> panningMouseX == mouseX.value && panningXMinOriginal == view.lo && panningXMaxOriginal == view.hi)
        && (!pans ==> panningMouseX == old(panningMouseX) && panningXMinOriginal == old(panningXMinOriginal)
                      && panningXMaxOriginal == old(panningXMaxOriginal))
      ensures view == old(view) && currentZoom == old(currentZoom)
      ensures dataXMin == old(dataXMin) && dataXMax == old(dataXMax)
      ensures sampleCount == old(sampleCount) && bottomPlotted == old(bottomPlotted)
    {
      PressButton(button);
      ghost var st, before := state, annotations;
      DeselectAllAreas();
      ghost var r := PressResult(st, before, mouseLeftDown, mouseRightDown, mouseX, sampleCount, bottomPlotted);
      raised := false;
      if state == Idle && mouseLeftDown && mouseX.Some? {
        raised := PressOnAxes(mouseX.value);
        assert (state, annotations, raised) == r;
      } else {
        assert r == (PressOutcome(st, before, mouseLeftDown, mouseRightDown, mouseX).0, annotations, false);
      }
      if !raised && state == Idle && mouseRightDown && mouseX.Some? {
        StartPan(mouseX.value);
      }
      assert (state, annotations, raised) == r;
      assert ValidState(state, annotations) && (!raised ==> (state, annotations) == PressOutcome(st, before, mouseLeftDown, mouseRightDown, mouseX)) by {
        PressResultShape(st, before, mouseLeftDown, mouseRightDown, mouseX, sampleCount, bottomPlotted);
      }
    }

    /** The button flags after a press of `button`. */
    method PressButton(button: int)
      modifies this`mouseLeftDown, this`mouseRightDown
      ensures mouseLeftDown == (old(mouseLeftDown) || button == MOUSE_BUTTON_LEFT)
      ensures mouseRightDown == (old(mouseRightDown) || button == MOUSE_BUTTON_RIGHT)
    {
      if button == MOUSE_BUTTON_LEFT {
        mouseLeftDown := true;
      }
      if button == MOUSE_BUTTON_RIGHT {
        mouseRightDown := true;
      }
    }

    /** Enter Panning, recording the pointer and the current view. */
    method StartPan(m: real)
      modifies this`state, this`panningMouseX, this`panningXMinOriginal, this`panningXMaxOriginal
      ensures state == Panning && panningMouseX == m && panningXMinOriginal == view.lo && panningXMaxOriginal == view.hi
    {
      state := Panning;
      panningMouseX := m;
      panningXMinOriginal := view.lo;
      panningXMaxOriginal := view.hi;
    }

    /**
     * The left-press branch on deselected annotations: the press scan, and a
     * new area when it grabs nothing, unless the scan raised.
     */
    method PressOnAxes(m: real) returns (raised: bool)
      requires state == Idle
      modifies this`state, this`annotations
      ensures (state, annotations, raised) == LeftPressResult(old(annotations), m, sampleCount, bottomPlotted)
      ensures !raised ==> state != Idle
    {
      ghost var before := annotations;
      raised := ScanForPress(m);
      if raised {
        return;
      }
      PressScanUntilRaiseAgrees(before, m, sampleCount, bottomPlotted);
      if state == Idle {
        state := NewArea;
        annotations := annotations + [NewAreaRecord(m)];
        SortAreas();
      }
    }

    /**
     * A pointer move. The hover flags of every annotation are refreshed; in
     * Panning the view is shifted by the pointer's distance from where the pan
     * began, applied to the current view; in MovingEdge and NewArea the armed
     * edges are dragged; in MovingArea the active areas are moved. An area move
     * without a pointer position fails in the source, so the caller must not
     * ask for one with an area active.
     */
    method OnMove(mouseX: Option<real>, xPixels: real, box: Renderer)
      requires Valid()
      requires state == MovingArea && mouseX.None? ==> forall k :: 0 <= k < |annotations| ==> !annotations[k].flags.active
      modifies this`annotations, this`view
      ensures Valid()
      ensures annotations == MoveOutcome(state, old(annotations), box, xPixels, mouseX)
      ensures state == Panning && mouseX.Some? ==> view == Pan(old(view), panningMouseX - mouseX.value, dataXMin, dataXMax)
      ensures !(state == Panning && mouseX.Some?) ==> view == old(view)
    {
      MoveKeepsValid(state, annotations, box, xPixels, mouseX);
      HoverKeepsGeometry(annotations, box, xPixels);
      HoverAllAreas(box, xPixels);
      if state == Panning && mouseX.Some? {
        PanView(mouseX.value);
      }
      if state == MovingEdge || state == NewArea {
        DragActiveEdges(mouseX);
      }
      if state == MovingArea {
        MoveActiveAreas(mouseX);
      }
    }

    /** The pan step: the current view shifted by the pointer's distance from where the pan began, if it stays inside the data. */
    method PanView(m: real)
      modifies this`view
      ensures view == Pan(old(view), panningMouseX - m, dataXMin, dataXMax)
    {
      var delta := panningMouseX - m;
      var xMin := view.lo + delta;
      var xMax := view.hi + delta;
      if xMin >= dataXMin && xMax <= dataXMax {
        view := Window(xMin, xMax);
      }
    }

    /**
     * A button release: the release loop over the active annotations, every
     * edge disarmed, the mode back to Idle and the list re-sorted. When the
     * update of the lower plot raises inside the loop, the handler stops
     * there: the mode stays, the edges stay armed and the list is not sorted.
     */
    method OnRelease(button: int, box: Renderer) returns (raised: bool)
      requires Valid()
      modifies this`annotations, this`state, this`mouseLeftDown, this`mouseRightDown
      ensures Valid()
      ensures (state, annotations, raised) == ReleaseResult(old(state), old(annotations), box, sampleCount, bottomPlotted)
      ensures !raised ==> state == Idle && annotations == ReleaseOutcome(old(state), old(annotations), box)
      ensures mouseLeftDown == (old(mouseLeftDown) && button != MOUSE_BUTTON_LEFT)
      ensures mouseRightDown == (old(mouseRightDown) && button != MOUSE_BUTTON_RIGHT)
    {
      ghost var st, before := state, annotations;
      ReleaseButton(button);
      raised := ReleaseActiveAreas(box);
      ReleaseResultShape(st, before, box, sampleCount, bottomPlotted);
      if raised {
        return;
      }
      ReleaseLoopUntilRaiseAgrees(st, before, 0, box, sampleCount, bottomPlotted);
      DisarmAllEdges();
      state := Idle;
      SortAreas();
    }

    /** The button flags after a release of `button`. */
    method ReleaseButton(button: int)
      modifies this`mouseLeftDown, this`mouseRightDown
      ensures mouseLeftDown == (old(mouseLeftDown) && button != MOUSE_BUTTON_LEFT)
      ensures mouseRightDown == (old(mouseRightDown) && button != MOUSE_BUTTON_RIGHT)
    {
      if button == MOUSE_BUTTON_LEFT {
        mouseLeftDown := false;
      }
      if button == MOUSE_BUTTON_RIGHT {
        mouseRightDown := false;
      }
    }

    /**
     * A scroll step at the pointer: nothing without a pointer position;
     * otherwise the zoom level moves by the step and the view zooms around the
     * pointer, each bound kept inside the data range.
     */
    method OnScroll(mouseX: Option<real>, step: real)
      modifies this`currentZoom, this`view
      ensures mouseX.None? ==> currentZoom == old(currentZoom) && view == old(view)
      ensures mouseX.Some? ==> currentZoom == old(currentZoom) + step
      ensures mouseX.Some? ==> view == Zoom(old(view), mouseX.value, step, dataXMin, dataXMax)
    {
      if mouseX.None? {
        return;
      }
      var m := mouseX.value;
      currentZoom := currentZoom + step;
      var xMin := view.lo;
      var xMax := view.hi;
      xMin := xMin + step * ZOOM_STEP_SCALE * (m - xMin);
      xMax := xMax - step * ZOOM_STEP_SCALE * (xMax - m);
      xMin := if xMin > dataXMin then xMin else dataXMin;
      xMax := if xMax < dataXMax then xMax else dataXMax;
      view := Window(xMin, xMax);
    }

    /**
     * A key press: the loop over the list removes each active annotation it
     * visits when the key is Delete. A removal does not hold the iterator back,
     * so the annotation that slides into the freed position is skipped.
     */
    method OnKeyPress(key: Key)
      requires Valid()
      modifies this`annotations
      ensures Valid()
      ensures annotations == KeyOutcome(old(annotations), key)
    {
      KeyKeepsValid(state, annotations, key);
      ghost var before := annotations;
      ghost var drop := ActiveSet(before);
      var i := 0;
      while i < |annotations|
        invariant forall k :: 0 <= k < |annotations| ==> annotations[k] in before
        invariant key == Delete ==> RemovingLoop(annotations, i, drop) == RemovingLoop(before, 0, drop)
        invariant key != Delete ==> annotations == before
        decreases |annotations| - i
      {
        var a := annotations[i];
        assert a in drop <==> a.flags.active;
        if !a.flags.active {
          i := i + 1;
          continue;
        }
        if key == Delete {
          annotations := annotations[..i] + annotations[i + 1..];
        }
        i := i + 1;
      }
    }
  }
}
