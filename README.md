# Simple audio annotation tool — a verified model

This project models the interaction core of a small audio annotation tool.
The tool shows a one-dimensional signal on a plot axis. The user marks
intervals of it ("annotations", drawn as rectangles) with the pointer:

- a left press on empty space creates a new area, and dragging its right edge sizes it;
- a left press on an edge grabs that edge; a left press inside an area grabs the whole area;
- dragging moves what was grabbed, and a release puts everything back in order;
- a right press and drag pans the view; the scroll wheel zooms around the pointer;
- the Delete key removes the active area.

The modules follow the program's files:

- `Annotations` (`annotations.dfy`) models one annotation (annotation.py).
  - `AnnotationRecord` holds all fields of an annotation as one value. Its members are the pure form of each operation.
  - The class `Annotation` holds the same fields as mutable state. Each method is proved to leave exactly the record the matching member computes.
- `AreaRectangles` (`area_rectangles.dfy`) models the older rectangle class (area_rectangle.py). It stores `x` and `width` instead of two bounds.
- `AnnotationLists` (`annotation_lists.dfy`) models the list operations the annotator uses:
  - the stable sort by lower bound;
  - Python's `list.remove`;
  - removal from a list while a `for` loop iterates over it. After a removal the iterator moves on, so the element that slides into the freed position is skipped;
  - the selected and active queries.
- `Viewport` (`viewport.dfy`) models the visible window. It covers pan, zoom around the pointer, and the clamp of a dragged edge between its neighbours.
- `AnnotatorSteps` (`annotator_steps.dfy`) gives each event handler a function from the old list and mode to the new ones. The lemmas there state what each handler achieves and prove that every handler keeps the invariant `ValidState`. The invariant says:
  - every annotation has a rectangle;
  - the list is sorted whenever nothing is being drawn, dragged or moved;
  - at most one annotation is active while a new area is drawn or an area is moved.
- `BottomAxis` (`bottom_axis.dfy`) models the update of the lower plot, `_update_bottom_axis`, as far as whether it raises. It also gives the press and release handlers as they run when it does: they stop at the call.
- `Annotator` (`annotator.dfy`) is the `AudioAnnotator` class of audio_annotator.py. It has the same fields, and its handlers are written as the loops of the source. Each handler is proved to produce exactly the outcome its `AnnotatorSteps` function describes.

Event data are parameters: the button, the pointer position in data coordinates
(`None` when the pointer is outside the axes), the pointer pixel, the scroll
step and the key. The pixel box the renderer reports for a rectangle comes
from a `Renderer` parameter, applied to the rectangle's own data-space `x` and
width. Those are copied from the bounds only when the rectangle is redrawn:
by `attach_to_axis`, `fix_min_and_max`, `set_x_min` and `set_x_max`.
`move_x_range` does not redraw it, so after an area move the hover test and
the release's width test still see the rectangle's old place
(`AreaMoveKeepsPixelBoxes`).

Behaviour of the code that the model keeps:

- The press loop has no early exit. Every edge-hovered annotation is grabbed,
  and after an edge grab no area grab can happen.
- A pan step adds the pointer's distance from the pan's start to the *current*
  view, not to the view recorded at the start. It is applied only when the
  whole shifted window stays inside the data; otherwise it is not applied at all.
- A dragged edge is raised to the previous neighbour's upper bound and then
  lowered to the next neighbour's lower bound, so the second test wins. At the
  ends of the list the neighbour limits are the sentinels ∓1E9.
- An area move is not clamped, so after the release two sorted neighbours can
  overlap (`AreaMoveCanOverlap`).
- A right press while a new area is drawn deselects it and leaves the mode at
  NewArea. The release then skips the inactive area, so an area dragged below
  its starting point keeps its lower bound above its upper bound
  (`InvertedAreaSurvivesRelease`).
- Release removes a new area narrower than 5 pixels. Delete removes the active
  area. Both remove while iterating, so the element after a removed one is never
  visited. With a single active area the skip never matters. Several areas can
  be active at once after several edges are grabbed by one press. The lemmas
  `ReleaseSkipsNeighbour` and `DeleteSkipsNeighbour` show the skip when two
  neighbours qualify.
- Grabbing an area and releasing a drawn, dragged or moved one update the
  lower plot to the annotation's bounds rounded half to even. That update
  indexes the sample axis at the rounded lower bound and one below the rounded
  upper bound, and raises `IndexError` when either is out of range. Nothing
  catches it, so the handler stops there. An area move is not clamped, so
  with 100 samples an area [10, 30] grabbed at 12 and moved to 90 lies at
  [88, 108], and its release raises. The mode then stays MovingArea, its edges
  stay armed, the list is not re-sorted, and the next pointer move, with the
  button up, still drags the area (`AreaMovedPastLastSampleSticks`). In a press
  the raise stops the scan at the grabbed area, so later annotations are not
  armed (`PressScanRaisesAt`).
- `set_x_min` with a `valid_range` writes the clipped value to the misspelled
  attribute `xmin`, so the lower bound keeps its old value (`XMinSet`).
- NumPy's `clip` with `a_min > a_max` returns `a_max` (`Clip`).

## Model

| member | source | states |
|---|---|---|
| Annotations.Clip | annotation.py:166-180 | The clipped value is at most the upper bound and, when the bounds are in order, at least the lower bound. A value inside the range is unchanged. |
| Annotations.RangeClip | annotation.py:166-180 | Without a range the value is stored as given. With a range it is clipped into the range. |
| Annotations.OrderedPair | annotation.py:144-150 | The result has the same two values, in order, and is swapped only when the input was inverted. |
| Annotations.OrderedPairIdempotent | annotation.py:144-150 | Normalising a bound pair twice gives the same as normalising it once. |
| Annotations.NewRecord | annotation.py:21-49 | A new annotation has the given bounds and margins, no rectangle, no flag set and a zero grab offset. |
| Annotations.AnnotationRecord.WithSelectOffset | annotation.py:69-70 | The recorded offset is the distance from the pointer to the lower bound. Nothing else changes. |
| Annotations.AnnotationRecord.Hovered | annotation.py:88-107 | With a rectangle: the body flag holds iff the pointer pixel is inside the box, inclusive. Each edge flag holds iff the pointer is strictly within the margin of that edge. Only the three hover flags change. Without a rectangle nothing changes. |
| Annotations.AnnotationRecord.EdgesArmed | annotation.py:109-113 | An edge is armed afterwards iff it was armed or hovered. Only the two armed flags change. |
| Annotations.AnnotationRecord.Activated | annotation.py:119-122 | The annotation becomes active and selected, and the offset from the pointer is recorded. Nothing else changes. |
| Annotations.AnnotationRecord.Deselected | annotation.py:124-126 | The annotation is neither active nor selected; nothing else changes. |
| Annotations.AnnotationRecord.Deactivated | annotation.py:128-129 | The annotation is no longer active, and its selection is kept. Nothing else changes. |
| Annotations.AnnotationRecord.RectRedrawn | annotation.py:72-76 | The rectangle's `x` and width afterwards agree with the bounds. Nothing else changes. |
| Annotations.AnnotationRecord.Attached | annotation.py:131-142 | The annotation has a rectangle drawn over its bounds and is attached to the axis. Nothing else changes. |
| Annotations.AnnotationRecord.BoundsFixed | annotation.py:144-150 | The bounds end in order and are the same two values. Ordered bounds are kept. A rectangle, if there is one, is redrawn over them. Nothing but the bounds and the rectangle changes. |
| Annotations.AnnotationRecord.EdgesDisarmed | annotation.py:157-159 | Both edges are disarmed; nothing else changes. |
| Annotations.AnnotationRecord.XRangeMoved | annotation.py:161-164 | The lower bound goes to the target, plus the grab offset when asked. The width is kept. Nothing but the bounds changes, so the rectangle stays where it was. |
| Annotations.AnnotationRecord.XMinSet | annotation.py:166-172 | Without a range the lower bound becomes the value. With a range the clipped value goes to the misspelled `xmin` attribute and the lower bound is kept. The rectangle is redrawn over the bounds. A rectangle is required. |
| Annotations.AnnotationRecord.XMaxSet | annotation.py:174-180 | The upper bound becomes the value, clipped when a range is given. The rectangle is redrawn over the bounds, and nothing else changes. A rectangle is required. |
| Annotations.AnnotationRecord.XCentre | annotation.py:196-197 | The centre is equally far from both bounds. |
| Annotations.AnnotationRecord.RectWidth | annotation.py:205-206 | Lower bound plus width is the upper bound. The width is non-negative iff the bounds are in order. |
| Annotations.AnnotationRecord.RectHeight | annotation.py:208-209 | Lower vertical bound plus height is the upper one. |
| Annotations.AnnotationRecord.XMinPixels | annotation.py:215-218 | The result is the rectangle's left pixel edge, or 0 without a rectangle. |
| Annotations.AnnotationRecord.XMaxPixels | annotation.py:220-223 | The result is the rectangle's right pixel edge, or 0 without a rectangle. |
| Annotations.AnnotationRecord.IsHovering | annotation.py:228-236 | The hit test fails when either coordinate is absent or outside its span, bounds included in the span. Only an annotation with ordered bounds can be hit. |
| Annotations.EdgeHoveringAfterHover | annotation.py:225-226 | After a hover update with a rectangle, the annotation is edge-hovered iff the pointer pixel is strictly within the margin of either side of its box. Without a rectangle the answer is the one it had. |
| Annotations.Annotation.constructor | annotation.py:21-49 | The new object's fields are exactly `NewRecord` of its arguments. |
| Annotations.Annotation.UpdateSelectOffset | annotation.py:69-70 | The object's new state is `WithSelectOffset` of its old one. |
| Annotations.Annotation.UpdateHovering | annotation.py:88-107 | The object's new state is `Hovered` of its old one. |
| Annotations.Annotation.UpdateActivatedEdges | annotation.py:109-113 | The object's new state is `EdgesArmed` of its old one. |
| Annotations.Annotation.Activate | annotation.py:119-122 | The object's new state is `Activated` of its old one. |
| Annotations.Annotation.Deselect | annotation.py:124-126 | The object's new state is `Deselected` of its old one. |
| Annotations.Annotation.Deactivate | annotation.py:128-129 | The object's new state is `Deactivated` of its old one. |
| Annotations.Annotation.AttachToAxis | annotation.py:131-142 | The object's new state is `Attached` of its old one. |
| Annotations.Annotation.RedrawRect | annotation.py:72-76 | The object's new state is `RectRedrawn` of its old one. |
| Annotations.Annotation.FixMinAndMax | annotation.py:144-150 | The object's new state is `BoundsFixed` of its old one. |
| Annotations.Annotation.DeactivateEdges | annotation.py:157-159 | The object's new state is `EdgesDisarmed` of its old one. |
| Annotations.Annotation.MoveXRange | annotation.py:161-164 | The object's new state is `XRangeMoved` of its old one. |
| Annotations.Annotation.SetXMin | annotation.py:166-172 | The object's new state is `XMinSet` of its old one. |
| Annotations.Annotation.SetXMax | annotation.py:174-180 | The object's new state is `XMaxSet` of its old one. |
| Annotations.HitTestBoundaries | annotation.py:228-236 | The hit test includes both bounds and the centre, and fails when either coordinate is absent. |
| Annotations.ActivateThenMoveKeepsBounds | annotation.py:119-122 | Grabbing at the pointer and then moving, with the offset, to the same pointer leaves the annotation where it was. |
| Annotations.BoundsFixedIdempotent | annotation.py:144-150 | Fixing the bounds twice gives the same as fixing them once. |
| Annotations.DeselectUndoesActivate | annotation.py:119-126 | On a deselected annotation, activating then deselecting leaves only the recorded offset changed. |
| Annotations.EdgesArmedMonotone | annotation.py:109-113 | Arming the edges is idempotent and never disarms an edge. |
| Annotations.SetBoundsGivesPair | annotation.py:166-180 | Without a range, setting the lower and then the upper bound gives exactly the requested pair and changes nothing else. |
| AreaRectangles.NonNegativeSpan | area_rectangle.py:139-155 | The width ends non-negative and the span has the same two endpoints. A non-negative width is unchanged. |
| AreaRectangles.AreaRectangle.constructor | area_rectangle.py:17-45 | The new rectangle has the given geometry and margins, no handle, no selection, stage idle and no offset. |
| AreaRectangles.AreaRectangle.Select | area_rectangle.py:52-56 | With a handle the rectangle is selected and the offset from the pointer is recorded. Without one nothing changes. |
| AreaRectangles.AreaRectangle.UpdateSelectOffset | area_rectangle.py:58-59 | The offset from the pointer to `x` is recorded. |
| AreaRectangles.AreaRectangle.Deselect | area_rectangle.py:61-64 | With a handle the rectangle is no longer selected. Without one nothing changes. |
| AreaRectangles.AreaRectangle.Attach | area_rectangle.py:66-80 | Afterwards the rectangle has a handle and is attached. |
| AreaRectangles.AreaRectangle.IsHovering | area_rectangle.py:92-100 | The hit test fails when either coordinate is absent or outside its span. A rectangle with a negative width or height is never hit. |
| AreaRectangles.AreaRectangle.IsHoveringEdge | area_rectangle.py:102-111 | The left edge is reported iff it is within the margin. The right edge is reported iff it is within the margin and the left one is not. No edge is reported otherwise, or without a handle. |
| AreaRectangles.AreaRectangle.SetXMin | area_rectangle.py:113-118 | With a handle and a value, the left edge moves to the value and the right edge stays. Otherwise nothing changes. |
| AreaRectangles.AreaRectangle.SetXMax | area_rectangle.py:120-123 | With a handle and a value, the right edge moves to the value. Otherwise nothing changes. |
| AreaRectangles.AreaRectangle.SetX | area_rectangle.py:125-128 | With a handle and a value, `x` moves to the value, plus the offset when asked. The width is kept. Otherwise nothing changes. |
| AreaRectangles.AreaRectangle.SetWidth | area_rectangle.py:130-133 | With a handle and a value, the width becomes the value. Otherwise nothing changes. |
| AreaRectangles.AreaRectangle.FixNegativeWidth | area_rectangle.py:139-155 | The position and width become the non-negative span over the same endpoints. |
| AreaRectangles.HitTestsAgree | area_rectangle.py:92-100 | A rectangle and an annotation over the same region agree on every hit test. |
| AreaRectangles.EdgeReportMatchesHoverFlags | area_rectangle.py:102-111 | The edge report agrees with the annotation's left hover flag. When both edges are near, the left one wins. |
| AreaRectangles.SelectThenSetX | area_rectangle.py:52-59 | Selecting at a pointer and then moving, with the offset, to the same pointer leaves the rectangle in place. |
| AreaRectangles.DragRightEdgeThenFix | area_rectangle.py:120-155 | Dragging the right edge anywhere and then fixing the width gives a non-negative width over the old left edge and the pointer. |
| AnnotationLists.ActiveSet | audio_annotator.py:116-120 | The set holds exactly the active annotations of the list. |
| AnnotationLists.InsertByXMin | audio_annotator.py:405-406 | Insertion adds exactly the one element. |
| AnnotationLists.InsertKeepsSorted | audio_annotator.py:405-406 | Inserting into a list sorted by lower bound keeps it sorted. |
| AnnotationLists.SortByXMin | audio_annotator.py:405-406 | The sorted list is ordered by lower bound and is a permutation of the input. |
| AnnotationLists.SortMembers | audio_annotator.py:405-406 | Sorting keeps exactly the values of the list. |
| AnnotationLists.SortOfSortedIsIdentity | audio_annotator.py:405-406 | Sorting a list that is already in order returns it unchanged, so the sort is stable on it. |
| AnnotationLists.SortIdempotent | audio_annotator.py:405-406 | Sorting twice gives the same as sorting once. |
| AnnotationLists.InsertWithXMin | audio_annotator.py:405-406 | Insertion puts the new annotation in front of every annotation with the same lower bound and keeps their order. |
| AnnotationLists.SortStable | audio_annotator.py:405-406 | The sort is stable: for every lower bound, the annotations with that bound appear in the same order as in the input. |
| AnnotationLists.ActiveCount | audio_annotator.py:116-120 | The count of active annotations is at most the length and is zero exactly when none is active. |
| AnnotationLists.InsertActiveCount | audio_annotator.py:405-406 | Insertion adds one to the active count exactly when the inserted annotation is active. |
| AnnotationLists.SortActiveCount | audio_annotator.py:405-406 | Sorting keeps the number of active annotations. |
| AnnotationLists.AtMostOneActiveCount | audio_annotator.py:116-120 | At most one position is active iff the active count is at most one. |
| AnnotationLists.SortKeepsAtMostOneActive | audio_annotator.py:405-406 | Sorting keeps at most one annotation active. |
| AnnotationLists.DistinctPermutation | audio_annotator.py:405-406 | A list whose elements, counted as a multiset, are among those of a list without repeats has no repeats itself. |
| AnnotationLists.Without | audio_annotator.py:408-415 | Removing values never lengthens the list. |
| AnnotationLists.WithoutMembers | audio_annotator.py:408-415 | After removal, exactly the elements outside the removed set remain. |
| AnnotationLists.WithoutAbsent | audio_annotator.py:408-415 | Removing values that do not occur changes nothing. |
| AnnotationLists.WithoutKeepsSorted | audio_annotator.py:408-415 | Removing elements from a sorted list keeps it sorted. |
| AnnotationLists.CutIsWithout | audio_annotator.py:413-415 | In a list without repeats, cutting out one position is removing that value. |
| AnnotationLists.IndexOf | audio_annotator.py:415 | For a value in the list, the result is a position holding it with no earlier occurrence. |
| AnnotationLists.ListRemove | audio_annotator.py:415 | `list.remove` cuts out the first occurrence of a present value, so the list is one shorter. |
| AnnotationLists.ListRemoveIsWithout | audio_annotator.py:415 | In a list without repeats, `list.remove` is removing the value. |
| AnnotationLists.IndexOfDistinct | audio_annotator.py:415 | In a list without repeats, the first position of the value at `i` is `i`. |
| AnnotationLists.RemovingLoopIsWithout | audio_annotator.py:330-348 | When no two elements to remove are neighbours, the remove-while-iterating loop removes exactly them. |
| AnnotationLists.RemovingLoopSkipsNeighbour | audio_annotator.py:330-348 | With two neighbouring elements to remove, the second is skipped and survives. |
| AnnotationLists.RemovingLoopShrinks | audio_annotator.py:330-348 | The loop only removes, and only elements of the removed set. |
| AnnotationLists.RemovingLoopSubMultiset | audio_annotator.py:333-348 | The loop's result is contained in its input, counted as a multiset. |
| AnnotationLists.RemovingLoopKeepsOthers | audio_annotator.py:333-348 | Every element outside the removed set survives the loop. |
| AnnotationLists.RemovingLoopKeepsSorted | audio_annotator.py:330-348 | The loop keeps a sorted list sorted. |
| AnnotationLists.RemovingLoop | audio_annotator.py:333-348 | The loop never lengthens the list, never touches the positions it has passed, and removes nothing when nothing is to be removed. |
| AnnotationLists.SelectedOfMembers | audio_annotator.py:113-114 | Every selected annotation of the list is in the result, and every element of the result is a selected annotation of the list. The result is as long as the list iff all are selected. |
| AnnotationLists.SelectedOfCounts | audio_annotator.py:113-114 | Each selected annotation occurs in the result as often as in the list; an unselected one never occurs. |
| AnnotationLists.SelectedOfConcat | audio_annotator.py:113-114 | The selection of two lists joined is the two selections joined, so the result keeps list order. |
| AnnotationLists.FirstActive | audio_annotator.py:116-120 | The result is `None` iff nothing is active. Otherwise it is the active annotation at the first active position. |
| AnnotationLists.FirstActiveIsTheActiveOne | audio_annotator.py:116-120 | With at most one active annotation, the result is that annotation. |
| Viewport.Pan | audio_annotator.py:211-217 | The window shifts by the whole delta when the shifted window stays inside the data; otherwise it does not move. The width is kept. |
| Viewport.PanPreservesViewport | audio_annotator.py:211-217 | Panning keeps a valid window valid. |
| Viewport.Zoom | audio_annotator.py:305-328 | The zoomed window never leaves the data. Each bound is either its data limit or moved towards the pointer by the step fraction of its distance; a moved bound still inside the data is kept exactly. |
| Viewport.ZoomInIsBoundedShift | audio_annotator.py:319-324 | A zoom-in step moves each bound by at most the pointer's distance to it, by a positive total when the fraction is positive. |
| Viewport.ShiftedClampKeepsPointer | audio_annotator.py:319-324 | Moving the bounds inward by at most the pointer's distances, then clamping into the data, keeps the pointer visible. It never widens the window, and narrows it when anything moved. |
| Viewport.ZoomInKeepsPointer | audio_annotator.py:305-328 | Zooming in with the pointer inside the window keeps it visible and never widens the window. |
| Viewport.ZoomInNarrows | audio_annotator.py:305-328 | A positive zoom-in step over a non-empty window makes the window strictly narrower. |
| Viewport.ZoomPreservesViewport | audio_annotator.py:305-328 | Any zoom with a fraction below 1, every zoom out included, keeps a valid window valid. |
| Viewport.NeighbourClamp | audio_annotator.py:231-245 | The written edge is the pointer, the previous upper bound or the next lower bound. It lies between ordered neighbours, and is the pointer itself when the pointer is between them. |
| Viewport.NeighbourClampIdempotent | audio_annotator.py:241-245 | Clamping an already clamped position changes nothing. |
| AnnotatorSteps.DeselectAll | audio_annotator.py:147-148 | Every annotation is deselected and only the selection flags change. |
| AnnotatorSteps.HitAt | audio_annotator.py:163 | The press hit test, made at height 0, holds iff the pointer is between the bounds and 0 is inside the vertical span. |
| AnnotatorSteps.PressStepShape | audio_annotator.py:153-167 | One pass keeps the mode or moves to MovingEdge, or from Idle to MovingArea. An edge-hovered annotation gives MovingEdge and becomes active. A pass that changes the mode grabs the annotation at the pointer. Hovered edges become armed, and bounds and rectangle are kept. |
| AnnotatorSteps.PressStepMode | audio_annotator.py:153-167 | After one pass, an edge grab gives MovingEdge. Otherwise an Idle pass over a hit gives MovingArea, and any other pass keeps the mode. |
| AnnotatorSteps.PressStepRecord | audio_annotator.py:153-167 | One pass arms the hovered edges, and grabs the annotation at the pointer when the pass grabs it. |
| AnnotatorSteps.PressScan | audio_annotator.py:153-172 | The scan keeps the length of the list, and ends in the old mode, MovingEdge or MovingArea. |
| AnnotatorSteps.PressScanMode | audio_annotator.py:153-172 | The final mode is MovingEdge iff some annotation is edge-hovered. It is MovingArea iff none is and the pointer is inside one. It is Idle iff nothing is hit. |
| AnnotatorSteps.PressScanRecord | audio_annotator.py:153-172 | Each annotation has its hovered edges armed. It is grabbed at the pointer iff it is edge-hovered, or it is the first hit with nothing edge-hovered or hit before it. There is no early exit. |
| AnnotatorSteps.PressScanMissChangesNothing | audio_annotator.py:153-172 | A scan that hits nothing changes no annotation. |
| AnnotatorSteps.PressGrabsAtMostOneArea | audio_annotator.py:163-167 | At most one annotation is grabbed by its body. |
| AnnotatorSteps.PressScanActive | audio_annotator.py:153-172 | On a deselected list, an annotation becomes active iff it is grabbed. The scan moves no bound and removes no rectangle. A body grab leaves exactly one annotation active. |
| AnnotatorSteps.NewAreaRecordFields | audio_annotator.py:174-183 | The new area spans exactly the pointer. It has a rectangle, is active and selected, has zero offset, and only its right edge is armed. |
| AnnotatorSteps.NewAreaRecord | audio_annotator.py:174-183 | The new area has both bounds at the pointer, the vertical span -1 to 2, the default margins and a rectangle over its bounds. It is active and selected with zero offset, and only its right edge is armed. |
| AnnotatorSteps.LeftPressOutcomeShape | audio_annotator.py:151-183 | A left press ends in NewArea, MovingEdge or MovingArea. In NewArea the list is the scanned list plus the new area, as a multiset, and is sorted. Otherwise the length is kept. |
| AnnotatorSteps.PressOutcomeShape | audio_annotator.py:134-194 | The mode changes only from Idle with a pointer. A press that keeps the mode only deselects. A pan starts only on a right press. A new area, only on a left press, adds exactly one annotation; every other press keeps the length. |
| AnnotatorSteps.PressOnEmptyPlotDrawsNewArea | audio_annotator.py:174-183 | A left press on an empty plot enters NewArea with the new area as the only annotation. |
| AnnotatorSteps.PressGrabsFirstOfTwo | audio_annotator.py:153-167 | A left press inside the first of two annotations, neither edge-hovered, enters MovingArea. It grabs the first at the pointer, keeps both bounds, and leaves the second inactive. |
| AnnotatorSteps.PressWithoutPointerOnlyDeselects | audio_annotator.py:147-194 | A press without a pointer position, or outside Idle, only deselects and keeps the mode. |
| AnnotatorSteps.RightPressStartsPan | audio_annotator.py:189-194 | A right press in Idle on the axes, with the left button up, enters Panning and only deselects. |
| AnnotatorSteps.LeftPressOnEmptySpaceCreatesArea | audio_annotator.py:174-183 | A left press in Idle that hits nothing enters NewArea, with the new area added to the deselected list and the list re-sorted. |
| AnnotatorSteps.NewAreaListFacts | audio_annotator.py:174-183 | The new list is the old one plus the new area, as a multiset. It is sorted, keeps every rectangle, and the new area is its only active annotation. |
| AnnotatorSteps.HoverAll | audio_annotator.py:206-209 | Every annotation gets its hover flags updated, and the length is kept. |
| AnnotatorSteps.HoverKeepsGeometry | audio_annotator.py:206-209 | Hover updates move no bound, grab nothing, arm no edge and remove no rectangle. |
| AnnotatorSteps.DragOne | audio_annotator.py:225-251 | An active annotation's armed edges go to the clamped pointer, and its rectangle is redrawn over the new bounds. An annotation that is inactive or has no armed edge is untouched. |
| AnnotatorSteps.DragPrefix | audio_annotator.py:225-251 | The drag over the first `n` annotations has length `n`. |
| AnnotatorSteps.Drag | audio_annotator.py:225-251 | The drag keeps the length of the list. |
| AnnotatorSteps.DragRecord | audio_annotator.py:225-251 | Each armed edge of an active annotation is set to the pointer clamped between the already-dragged previous neighbour and the undragged next one, or the ∓1E9 sentinels at the ends. A dragged annotation's rectangle is redrawn over its new bounds. Everything else is kept. |
| AnnotatorSteps.DragLeavesInactive | audio_annotator.py:228-229 | An inactive annotation is never changed by a drag. |
| AnnotatorSteps.DragStaysBetweenNeighbours | audio_annotator.py:231-251 | With one active annotation and ordered neighbours, a dragged edge stays between the neighbours, and lands on the pointer when the pointer is between them. |
| AnnotatorSteps.DragLoneArea | audio_annotator.py:225-251 | For a lone annotation, each armed edge of an active one goes to the pointer, and every other bound and flag stays. |
| AnnotatorSteps.MoveAll | audio_annotator.py:253-259 | Every active annotation moves to the pointer plus its offset, keeping its width; inactive ones are untouched. |
| AnnotatorSteps.MoveToGrabPointIsIdentity | audio_annotator.py:253-259 | Moving to the pointer at which the annotations were grabbed leaves them where they were. |
| AnnotatorSteps.MoveOutcome | audio_annotator.py:199-261 | A move keeps the length of the list and every rectangle. |
| AnnotatorSteps.MoveWithoutPointerOnlyHovers | audio_annotator.py:199-261 | Without a pointer position, or in Idle or Panning, a move only refreshes the hover flags. |
| AnnotatorSteps.AreaMoveKeepsWidths | audio_annotator.py:253-259 | In MovingArea every annotation keeps its width. Active annotations go to the pointer plus their offset, and inactive ones stay where they are. |
| AnnotatorSteps.AreaMoveOntoNeighbour | audio_annotator.py:253-259 | Moving the active first of two annotations so that its lower bound meets the second's puts both at the same lower bound, with no clamp. |
| AnnotatorSteps.AreaMoveKeepsPixelBoxes | audio_annotator.py:253-259 | An area move does not redraw any rectangle: every annotation reports the same pixel box as before the move. |
| AnnotatorSteps.Released | audio_annotator.py:271-286 | In NewArea and MovingEdge an active annotation has its bounds put in order. Its activity and rectangle are kept, and in every other case it is unchanged. |
| AnnotatorSteps.ReleaseWidthTest | audio_annotator.py:276-283 | An annotation without a rectangle counts as too narrow; with one, it is too narrow iff its pixel box is under 5 pixels wide. Only an active annotation released from NewArea is dropped. One with a rectangle is dropped iff the box redrawn over its ordered bounds is under 5 pixels wide. |
| AnnotatorSteps.ReleaseLoop | audio_annotator.py:271-292 | The release loop never lengthens the list, and keeps its length outside NewArea. |
| AnnotatorSteps.ReleaseReference | audio_annotator.py:271-286 | The release without the skip keeps the annotations it does not drop, in order, and never lengthens the list. |
| AnnotatorSteps.ReleaseLoopIsReference | audio_annotator.py:271-286 | When the annotations after dropped ones are inactive, the release loop, skip included, gives the reference release. |
| AnnotatorSteps.SingleActiveSkipsAreHarmless | audio_annotator.py:271-286 | With at most one active annotation, no skip can matter. |
| AnnotatorSteps.ReleaseSkipsNeighbour | audio_annotator.py:276-283 | Two neighbouring new areas that are both too narrow: the first is removed, the second is never visited and survives. |
| AnnotatorSteps.ReleaseReferenceMembers | audio_annotator.py:271-286 | Every kept annotation is the release of an original one that was not dropped. Active kept annotations have ordered bounds in NewArea and MovingEdge, and no new area kept is narrower than 5 pixels. Rectangles are kept, and every inactive annotation survives. |
| AnnotatorSteps.ReleaseEdgeFixesAll | audio_annotator.py:285-286 | In MovingEdge nothing is removed, and every active annotation has its bounds put in order. |
| AnnotatorSteps.ReleaseOutsideDrawingKeepsAll | audio_annotator.py:271-286 | In Idle, MovingArea or Panning the release drops nothing and changes nothing. |
| AnnotatorSteps.ReleaseOutsideDrawingOnlySorts | audio_annotator.py:271-302 | In Idle, MovingArea or Panning a release keeps exactly the disarmed annotations, counted as a multiset. |
| AnnotatorSteps.ReleaseLoneInactive | audio_annotator.py:271-302 | Releasing a lone inactive annotation, in any mode, only disarms it. |
| AnnotatorSteps.DisarmAll | audio_annotator.py:297-299 | Every edge of every annotation is disarmed, and nothing else changes. |
| AnnotatorSteps.ReleaseLoopIsReferenceAtMostOne | audio_annotator.py:271-286 | In NewArea with at most one active annotation, and in every other mode, the release loop gives the reference release. |
| AnnotatorSteps.ReleaseOutcomeProperties | audio_annotator.py:263-303 | After a release the list is sorted and no edge is armed. Active annotations have ordered bounds and no new area is too narrow. Every inactive annotation survives, disarmed, and no rectangle is lost. |
| AnnotatorSteps.ReleaseOutcomeShape | audio_annotator.py:263-302 | In any mode and with any number of active annotations, the released list is sorted and has no armed edge. It never grows, and keeps its length outside NewArea. |
| AnnotatorSteps.InvertedAreaSurvivesRelease | audio_annotator.py:271-277 | Drawing a new area at one position, dragging to a lower one, then pressing the right button deselects it while the mode stays NewArea. The release skips the inactive area, so a single area with its lower bound above its upper bound remains. |
| AnnotatorSteps.ReleaseOfTwoAtOneStart | audio_annotator.py:263-302 | Releasing two annotations with the same lower bound keeps the invariant and both annotations, and the first overlaps the second. |
| AnnotatorSteps.AreaMoveCanOverlap | audio_annotator.py:253-259 | Moving the first of two ordered areas onto the second and releasing keeps the invariant, yet leaves two sorted neighbours that overlap. |
| AnnotatorSteps.DeleteRemovesActive | audio_annotator.py:330-348 | With at most one active annotation, Delete removes exactly the active ones and keeps the rest in order. |
| AnnotatorSteps.DeleteWithoutActiveKeepsAll | audio_annotator.py:330-348 | Without an active annotation Delete changes nothing. |
| AnnotatorSteps.DeleteSkipsNeighbour | audio_annotator.py:330-348 | With two neighbouring active annotations, Delete removes the first and the second survives. |
| AnnotatorSteps.KeyOutcome | audio_annotator.py:330-348 | Any key but Delete changes nothing. Delete never lengthens the list, keeps only annotations from it, and keeps every inactive one. |
| AnnotatorSteps.RemoveAll | audio_annotator.py:408-415 | When each target is present at its turn, the list loses exactly the targets, counted as a multiset. |
| AnnotatorSteps.PressKeepsValid | audio_annotator.py:134-197 | A press keeps the invariant. |
| AnnotatorSteps.MoveKeepsFlags | audio_annotator.py:199-261 | A move changes no annotation's activity. Without a pointer, or in Idle and Panning, it moves no lower bound. |
| AnnotatorSteps.MoveKeepsValid | audio_annotator.py:199-261 | A move keeps the invariant. |
| AnnotatorSteps.ReleaseKeepsValid | audio_annotator.py:263-303 | A release ends in Idle with the invariant. From any mode but NewArea this needs only that every annotation has a rectangle. |
| AnnotatorSteps.KeyKeepsValid | audio_annotator.py:330-348 | A key press keeps the invariant. While an area is drawn or moved, Delete leaves nothing active. |
| AnnotatorSteps.BindAnnotationArgs | audio_annotator.py:178 | Python's argument binding fails iff there are too many positional arguments, a keyword names no parameter, or a parameter gets a value both ways. Otherwise every argument lands in its parameter. |
| AnnotatorSteps.NewAreaCallAsWrittenFails | audio_annotator.py:178 | The new-area call as written fails for every pointer position. |
| AnnotatorSteps.NewAreaCallCorrected | audio_annotator.py:178 | Without the positional label, the call binds to exactly the bounds of the new area and leaves the margins at their defaults. |
| AnnotatorSteps.BindKeywordsOnly | audio_annotator.py:178 | A call with keywords only, each naming a parameter, binds exactly those keywords. |
| BottomAxis.RoundHalfEven | audio_annotator.py:170-171 | `int(np.round(x))`: within a half of `x`, and even at a tie. |
| BottomAxis.BoundsUpdateRange | audio_annotator.py:377-381 | The update never raises for bounds inside the samples (lower bound 0 to the last index, upper bound up to one past it). It always raises without samples, without the lower plot, and for an upper bound two or more past the last sample. |
| BottomAxis.PressScanUntilRaise | audio_annotator.py:153-172 | The stopped press loop keeps the length of the list. |
| BottomAxis.PressScanUntilRaiseAgrees | audio_annotator.py:153-172 | When the update does not raise, the stopped loop is the press scan. |
| BottomAxis.PressScanRaisesOnlyOnGrab | audio_annotator.py:163-172 | The press loop raises only at a grab by the body whose update raises. |
| BottomAxis.PressScanUntilRaiseStopped | audio_annotator.py:153-172 | Once the loop has raised, the rest of the list is left as it was. |
| BottomAxis.PressScanRaisesAt | audio_annotator.py:153-172 | A grab by the body raises exactly when its update raises. Then the mode is MovingArea, the list up to the grab is the press scan of that prefix, and the rest is untouched. |
| BottomAxis.PressScanUntilRaiseFlags | audio_annotator.py:153-172 | After a deselect the loop detaches nothing, and when it raises the mode is MovingArea with at most one annotation active. |
| BottomAxis.PressResultShape | audio_annotator.py:134-197 | A press without a raise is the press outcome. One with a raise was a left press in Idle on the axes, ends in MovingArea and keeps the list's length. The invariant holds either way. |
| BottomAxis.ReleaseLoopUntilRaiseAgrees | audio_annotator.py:271-292 | When the update does not raise, the stopped release loop is the release loop. |
| BottomAxis.ReleaseRaisesOnlyOnActive | audio_annotator.py:271-292 | The release loop raises only when the update raises for an active annotation of the list, after the loop has fixed its bounds, in NewArea, MovingEdge or MovingArea, with the lower plot present. |
| BottomAxis.ReleaseStepKeepsFlags | audio_annotator.py:271-286 | One step of the release loop keeps every rectangle and at most one annotation active. |
| BottomAxis.ReleaseLoopUntilRaiseFlags | audio_annotator.py:271-292 | The stopped release loop keeps every rectangle and at most one annotation active. |
| BottomAxis.ReleaseResultShape | audio_annotator.py:263-303 | A release that raises keeps the mode (NewArea, MovingEdge or MovingArea), needs the lower plot and an active annotation whose update raises. One that does not ends in Idle with the release outcome. The invariant holds either way. |
| BottomAxis.AreaMovedPastLastSampleSticks | audio_annotator.py:253-303 | An area moved until its upper bound is two or more past the last sample makes the release raise. The mode stays MovingArea and the list stays as moved, with the area active and its edges not disarmed, and the next move still drags it. |
| Annotator.AudioAnnotator.constructor | audio_annotator.py:64-91 | The new annotator is Idle, with no annotations, zoom 1, data range and view (0, 1), zero pan origin, no button down, no samples and no lower plot. |
| Annotator.AudioAnnotator.SetSignal | audio_annotator.py:417-434 | The sample axis takes the signal's length in every case. For a non-empty signal, the data range is 0 to the last sample index, the view is set to it, and the lower plot exists. An empty signal fails and changes nothing else. |
| Annotator.AudioAnnotator.UpdateBottomAxis | audio_annotator.py:377-381 | Raises exactly when `BottomAxisRaises` says: without the lower plot, or with an index out of the sample axis. |
| Annotator.AudioAnnotator.SortAreas | audio_annotator.py:405-406 | The list is stably sorted by lower bound: sorted, and a permutation of the old list. |
| Annotator.AudioAnnotator.RemoveAreas | audio_annotator.py:408-415 | Each target in turn is removed with `list.remove`, so the list loses one element per target. |
| Annotator.AudioAnnotator.DeselectAllAreas | audio_annotator.py:147-148 | The list is the deselected old list. |
| Annotator.AudioAnnotator.ScanForPress | audio_annotator.py:153-172 | The loop, stopped when the lower-plot update raises, leaves exactly the mode, list and raise of `PressScanUntilRaise`. |
| Annotator.AudioAnnotator.PressAt | audio_annotator.py:156-172 | One pass updates exactly the annotation at its position and the mode, as the press step says. It raises exactly when it grabs the area by its body from Idle and the update for the area's bounds raises. |
| Annotator.AudioAnnotator.HoverAllAreas | audio_annotator.py:206-209 | The loop leaves exactly the hover-updated list. |
| Annotator.AudioAnnotator.DragActiveEdges | audio_annotator.py:225-251 | With a pointer the loop leaves exactly the dragged list; without one, nothing changes. |
| Annotator.AudioAnnotator.ClampToNeighbours | audio_annotator.py:231-245 | The result is the pointer clamped between the neighbours at that position, or the sentinels. |
| Annotator.AudioAnnotator.MoveActiveAreas | audio_annotator.py:253-259 | With a pointer the loop leaves exactly the moved list; without one, nothing changes. |
| Annotator.AudioAnnotator.ReleaseActiveAreas | audio_annotator.py:271-292 | The loop, including its skip after each removal and its stop when the lower-plot update raises, leaves exactly the list and raise of `ReleaseLoopUntilRaise`. |
| Annotator.AudioAnnotator.DisarmAllEdges | audio_annotator.py:297-299 | The list is the disarmed old list. |
| Annotator.AudioAnnotator.OnPress | audio_annotator.py:134-197 | The button flag is set, and mode, list and raise are `PressResult`; without a raise mode and list are the press outcome. A pan records the pointer and the current view; otherwise the pan fields are kept. View, zoom, data range and signal are kept, and the invariant holds. |
| Annotator.AudioAnnotator.PressButton | audio_annotator.py:137-141 | A press of the left or right button sets that button's flag and keeps the other one. |
| Annotator.AudioAnnotator.StartPan | audio_annotator.py:189-194 | The mode is Panning, with the pointer and the current view recorded. |
| Annotator.AudioAnnotator.PressOnAxes | audio_annotator.py:151-183 | Mode, list and raise are `LeftPressResult`; without a raise the mode is no longer Idle. |
| Annotator.AudioAnnotator.OnMove | audio_annotator.py:199-261 | The list is the move outcome. While panning with a pointer the view is the pan step; otherwise the view is kept. The invariant holds. |
| Annotator.AudioAnnotator.PanView | audio_annotator.py:211-217 | The view is the pan by the pointer's distance from the pan's start, applied to the current view. |
| Annotator.AudioAnnotator.OnRelease | audio_annotator.py:263-303 | The button flag is cleared, and mode, list and raise are `ReleaseResult`. Without a raise the mode is Idle and the list is the release outcome; with one the handler stops in its loop. The invariant holds either way. |
| Annotator.AudioAnnotator.ReleaseButton | audio_annotator.py:265-269 | A release of the left or right button clears that button's flag and keeps the other one. |
| Annotator.AudioAnnotator.OnScroll | audio_annotator.py:305-328 | Without a pointer nothing changes. Otherwise the zoom level moves by the step and the view is the zoom around the pointer. |
| Annotator.AudioAnnotator.OnKeyPress | audio_annotator.py:330-355 | The list is the key outcome: for Delete, the remove-while-iterating loop over the active annotations. The invariant holds. |

## Left out

- Drawing is not modelled: colours, alpha, cursor shapes, the figure, the canvas, the blitting background and `_update_plot`. `any_hovering_edges` only selects a cursor, so it is left out as well.
- `_update_plot` calls `update_plot_elements`, which the annotation class does not define. So every handler that reaches its end with a non-empty list raises `AttributeError` there. This happens after all the handler's state changes, so the model keeps those changes and leaves the error out.
- `update_rect_handle` has no caller. Only its geometry half is modelled (`RectRedrawn`), because `fix_min_and_max`, `set_x_min` and `set_x_max` repeat that half inline.
- The rectangle handle is reduced to its existence and its data-space `x` and width. The pixel box the renderer reports for it is an input, `Renderer`. The renderer is a function of the rectangle's `x` and width under the current view. So two annotations whose rectangles have the same geometry get the same box.
- What `_update_bottom_axis` draws on the lower plot is not modelled, only whether it raises. The plot's line is reduced to whether it exists (`bottomPlotted`) and the sample axis to its length (`sampleCount`). The plotting library reports an exception a handler raises and goes on with the next event; the model returns `raised` from the handler and keeps the state the handler reached.
- The space key plays audio through the sound device. Audio is I/O, so it is left out.
- The shift+left and shift+right keys call `increment_x`, which the annotation class does not define. They are left out (in the source they raise an error).
- `get_hovering_area` is left out: it reads attributes the annotation does not have. `_center_on_selected_area` is left out: it only sets the view from the selected area and has no callers.
- `build_annotation_blueprint`, `__del__` and `on_key_release` (which does nothing) are left out.
- audio_annotator_2.py and game_resource_explorer.py are not part of this model.
- Floating-point numbers are modelled as exact reals. Rounding, NaN and infinities are not modelled.
- Annotations are values in a sequence, so object identity and aliasing are not modelled. `list.remove` matches by value, which agrees with identity while the list has no two equal annotations.
- `_remove_areas` wraps a single argument into a list. The model always takes a list.
- Annotator.AudioAnnotator.RemoveAreas: requires each target to be present at its turn; the source raises `ValueError` otherwise, and that error is not modelled.
- Annotator.AudioAnnotator.OnMove: requires no active annotation when moving an area without a pointer position. The source would raise `TypeError` then, and that error is not modelled.
- AnnotatorSteps.MoveOutcome: the area move without a pointer is stated only for a list with nothing active, for the same reason.
- Annotator.AudioAnnotator.constructor: the initial view is taken to be (0, 1), matching the initial data range. The plotting library's real default view is not modelled.
- The `zoom_step_scale` field is never changed after construction, so it is the constant `ZOOM_STEP_SCALE`.
- Annotator.AudioAnnotator.SetSignal: only the sample axis's length, the data range, the view and whether the lower plot exists are modelled. The signal's values, the sampling rate, the drawing of the plots, the y-limits, the title, the blocking `plt.show()` and the returned blueprint are not. The signal is given by its length. An empty signal is reported as a failure, where the source raises `ValueError` from `np.min`. For a one-sample signal the view is taken as the zero-width window (0, 0); the plotting library's widening of such a limit is not modelled.
- AreaRectangles.AreaRectangle.SetX: requires a recorded offset when moving with the offset. The offset is set only by `select` and `update_select_offset`, so the source raises `AttributeError` at area_rectangle.py:127 when `set_x` is called with the offset before either; that error is not modelled.
- Annotations.AnnotationRecord.XMinSet: requires a rectangle. Without one the source raises `AttributeError` at annotation.py:171-172, and that error is not modelled.
- Annotations.AnnotationRecord.XMaxSet: requires a rectangle, for the same reason (annotation.py:179-180).
- Annotations.Annotation.SetXMin: requires a rectangle, as `XMinSet` does.
- Annotations.Annotation.SetXMax: requires a rectangle, as `XMaxSet` does.
- Ordered bounds for every annotation and non-overlapping neighbours after a release are not part of `ValidState` and are not proved, because the code does not keep them (`InvertedAreaSurvivesRelease`, `AreaMoveCanOverlap`).
- Viewport.ZoomInKeepsPointer: stated only for a zoom-in fraction in [0, 1]. Viewport.ZoomPreservesViewport covers every fraction below 1.
- AnnotationLists.Without: its own contract states only the length. AnnotationLists.WithoutMembers states which elements remain.
- The new-area call at audio_annotator.py:178 fails in the source (see Findings). The model uses the corrected call.

## Findings

| source | as written | input that shows it | evidently intended | confidence | as-written member | corrected member |
|---|---|---|---|---|---|---|
| audio_annotator.py:178 | `Annotation('debug', x_min=mouse_x, ...)` passes a positional argument, which Python binds to the first parameter, `x_min`. The keyword `x_min` then names the same parameter, so the call raises `TypeError` (multiple values for `x_min`). | any left press in Idle on empty space, e.g. the pointer at 10.0 with no annotations | create the annotation with bounds `x_min = x_max = mouse_x`, `y_min = -1`, `y_max = 2` and the default margins | not executed | AnnotatorSteps.NewAreaCallAsWrittenFails | AnnotatorSteps.NewAreaCallCorrected |
