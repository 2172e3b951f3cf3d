/**
 * The update of the lower plot, `_update_bottom_axis(start, stop)`, and what
 * its failure does to the press and release handlers.
 *
 * The handlers call it with the bounds of an annotation rounded to sample
 * indices. It slices the sample axis (a slice never fails), hands the slice to
 * the lower plot's line, and sets the lower axis limits to the samples at
 * `start` and `stop - 1`. That last step indexes the sample axis, which fails
 * with an index error unless both indices are in range, and the line does not
 * exist before a signal has been plotted. Nothing catches the error: the
 * handler stops at the call, and the rest of its loop and its final steps do
 * not run. What the update draws is not modelled, only whether it raises.
 */
module BottomAxis {
  import opened Wrappers
  import opened Annotations
  import opened AnnotationLists
  import opened AnnotatorSteps

  /** `int(np.round(x))`: the nearest integer, and the even one of the two at a tie. */
  function RoundHalfEven(x: real): (n: int)
    ensures x - 0.5 <= n as real <= x + 0.5
    ensures (n as real - x == 0.5 || x - n as real == 0.5) ==> n % 2 == 0
  {
    var f := x.Floor;
    var d := x - f as real;
    if d < 0.5 then f
    else if d > 0.5 then f + 1
    else if f % 2 == 0 then f else f + 1
  }

  /**
   * Whether `_update_bottom_axis(start, stop)` raises on a signal of `n`
   * samples: always before a signal has been plotted, and otherwise when
   * `start` or `stop - 1` is not a valid index of the sample axis (Python
   * accepts an index from `-n` to `n - 1`).
   */
  predicate BottomAxisRaises(n: nat, plotted: bool, start: int, stop: int)
  {
    var k := n as int;
    !plotted || !(-k <= start < k) || !(-k <= stop - 1 < k)
  }

  /** The update for an annotation: its bounds rounded to sample indices. */
  predicate BoundsUpdateRaises(n: nat, plotted: bool, r: AnnotationRecord)
  {
    BottomAxisRaises(n, plotted, RoundHalfEven(r.xMin), RoundHalfEven(r.xMax))
  }

  /**
   * When the update raises. It never raises for an annotation inside the
   * samples, from index 0 up to one past the last sample. It always raises
   * on an empty sample axis, and for an annotation whose upper bound is at
   * least two past the last sample.
   */
  lemma BoundsUpdateRange(n: nat, r: AnnotationRecord)
    ensures n >= 1 && 0.0 <= r.xMin <= (n - 1) as real && 0.0 <= r.xMax <= n as real ==> !BoundsUpdateRaises(n, true, r)
    ensures n == 0 ==> BoundsUpdateRaises(n, true, r)
    ensures r.xMax >= n as real + 1.0 ==> BoundsUpdateRaises(n, true, r)
    ensures BoundsUpdateRaises(n, false, r)
  {
  }

  // ------------------------------------------------------------------
  // Press
  // ------------------------------------------------------------------

  /**
   * The press loop, stopped by the update: after the pass that grabs an
   * annotation by its body (the mode goes from Idle to MovingArea) the update
   * runs on it, and when that raises the loop stops. The third component says
   * whether it raised; the annotations after the one that raised are left as
   * they were.
   */
  function PressScanUntilRaise(rs: seq<AnnotationRecord>, m: real, n: nat, plotted: bool): (r: (GUIState, seq<AnnotationRecord>, bool))
    ensures |r.1| == |rs|
    decreases |rs|
  {
    if rs == [] then (Idle, [], false)
    else
      var p := PressScanUntilRaise(rs[..|rs| - 1], m, n, plotted);
      var last := rs[|rs| - 1];
      if p.2 then (p.0, p.1 + [last], true)
      else
        var q := PressStep(p.0, last, m);
        (q.0, p.1 + [q.1], p.0 == Idle && q.0 == MovingArea && BoundsUpdateRaises(n, plotted, last))
  }

  /** When the update does not raise, the loop is the press scan. */
  lemma {:induction false} PressScanUntilRaiseAgrees(rs: seq<AnnotationRecord>, m: real, n: nat, plotted: bool)
    ensures var r := PressScanUntilRaise(rs, m, n, plotted);
      !r.2 ==> (r.0, r.1) == PressScan(Idle, rs, m)
    decreases |rs|
  {
    if rs != [] {
      PressScanUntilRaiseAgrees(rs[..|rs| - 1], m, n, plotted);
    }
  }

  /** A grab by the body at position `j` of `rs`: nothing edge-hovered or hit before it, and it is hit without being edge-hovered. */
  ghost predicate BodyGrabAt(rs: seq<AnnotationRecord>, m: real, j: int)
  {
    0 <= j < |rs| && NothingHitBefore(rs, m, j) && !rs[j].IsEdgeHovering() && HitAt(rs[j], m)
  }

  /** The loop raises only at a body grab whose update raises. */
  lemma {:induction false} PressScanRaisesOnlyOnGrab(rs: seq<AnnotationRecord>, m: real, n: nat, plotted: bool)
    ensures PressScanUntilRaise(rs, m, n, plotted).2 ==>
      exists j :: BodyGrabAt(rs, m, j) && BoundsUpdateRaises(n, plotted, rs[j])
    decreases |rs|
  {
    if rs != [] {
      var init, last := rs[..|rs| - 1], rs[|rs| - 1];
      var p := PressScanUntilRaise(init, m, n, plotted);
      assert forall j :: 0 <= j < |init| ==> init[j] == rs[j];
      if p.2 {
        PressScanRaisesOnlyOnGrab(init, m, n, plotted);
        var j :| BodyGrabAt(init, m, j) && BoundsUpdateRaises(n, plotted, init[j]);
        assert NothingHitBefore(init, m, j) == NothingHitBefore(rs, m, j);
        assert BodyGrabAt(rs, m, j);
      } else if PressScanUntilRaise(rs, m, n, plotted).2 {
        PressScanUntilRaiseAgrees(init, m, n, plotted);
        PressScanMode(init, m);
        PressStepMode(p.0, last, m);
        assert NothingHitBefore(init, m, |init|) == NothingHitBefore(rs, m, |init|);
        assert BodyGrabAt(rs, m, |init|);
      }
    }
  }

  /** Once the loop has raised on a prefix, the rest of the list is left as it was. */
  lemma {:induction false} PressScanUntilRaiseStopped(rs: seq<AnnotationRecord>, m: real, n: nat, plotted: bool, i: nat)
    requires i <= |rs| && PressScanUntilRaise(rs[..i], m, n, plotted).2
    ensures var p := PressScanUntilRaise(rs[..i], m, n, plotted);
      PressScanUntilRaise(rs, m, n, plotted) == (p.0, p.1 + rs[i..], true)
    decreases |rs|
  {
    if i < |rs| {
      var init, last := rs[..|rs| - 1], rs[|rs| - 1];
      assert init[..i] == rs[..i];
      PressScanUntilRaiseStopped(init, m, n, plotted, i);
      var p := PressScanUntilRaise(rs[..i], m, n, plotted);
      assert rs[i..] == init[i..] + [last] by {
        assert forall k :: 0 <= k < |rs| - i ==> rs[i..][k] == (init[i..] + [last])[k];
      }
      assert p.1 + init[i..] + [last] == p.1 + rs[i..];
    } else {
      assert rs[..i] == rs;
      var p := PressScanUntilRaise(rs[..i], m, n, plotted);
      assert p.1 + rs[i..] == p.1;
    }
  }

  /**
   * A body grab at `j` raises exactly when its update raises, and then the
   * mode is MovingArea, the annotations up to `j` are as the press scan of
   * that prefix leaves them, and the ones after `j` are untouched: their
   * hovered edges are not armed and none of them is grabbed by an edge.
   */
  lemma PressScanRaisesAt(rs: seq<AnnotationRecord>, m: real, n: nat, plotted: bool, j: nat)
    requires BodyGrabAt(rs, m, j)
    ensures var r := PressScanUntilRaise(rs, m, n, plotted);
      && (r.2 <==> BoundsUpdateRaises(n, plotted, rs[j]))
      && (r.2 ==> r == (MovingArea, PressScan(Idle, rs[..j + 1], m).1 + rs[j + 1..], true))
  {
    var r := PressScanUntilRaise(rs, m, n, plotted);
    var pre := rs[..j];
    var upto := rs[..j + 1];
    assert upto[..j] == pre;
    assert forall k :: 0 <= k < j ==> pre[k] == rs[k];
    assert NothingHitBefore(pre, m, j);
    PressScanMode(pre, m);
    assert !PressScanUntilRaise(pre, m, n, plotted).2 by {
      PressScanRaisesOnlyOnGrab(pre, m, n, plotted);
    }
    PressScanUntilRaiseAgrees(pre, m, n, plotted);
    PressStepMode(Idle, rs[j], m);
    assert PressScanUntilRaise(upto, m, n, plotted).2 == BoundsUpdateRaises(n, plotted, rs[j]);
    if BoundsUpdateRaises(n, plotted, rs[j]) {
      PressScanUntilRaiseStopped(rs, m, n, plotted, j + 1);
    } else {
      PressScanRaisesOnlyOnGrab(rs, m, n, plotted);
      forall j' | BodyGrabAt(rs, m, j') ensures j' == j {
        PressGrabsAtMostOneArea(rs, m, j, j');
      }
    }
  }

  /**
   * After a deselect the loop never detaches an annotation, and when it raises
   * the mode is MovingArea with only the annotation that raised active.
   */
  lemma {:induction false} PressScanUntilRaiseFlags(rs: seq<AnnotationRecord>, m: real, n: nat, plotted: bool)
    requires forall k :: 0 <= k < |rs| ==> !rs[k].flags.active
    ensures var r := PressScanUntilRaise(rs, m, n, plotted);
      && (forall k :: 0 <= k < |rs| ==> r.1[k].hasHandle == rs[k].hasHandle)
      && (r.2 ==> r.0 == MovingArea && AtMostOneActive(r.1))
    decreases |rs|
  {
    if rs != [] {
      var init, last := rs[..|rs| - 1], rs[|rs| - 1];
      var p := PressScanUntilRaise(init, m, n, plotted);
      PressScanUntilRaiseFlags(init, m, n, plotted);
      PressStepShape(p.0, last, m);
      if !p.2 && PressScanUntilRaise(rs, m, n, plotted).2 {
        FirstRaiseLeavesOneActive(init, last, m, n, plotted);
      }
    }
  }

  /** The pass that raises grabs the only active annotation: the scan before it grabbed nothing. */
  lemma FirstRaiseLeavesOneActive(init: seq<AnnotationRecord>, last: AnnotationRecord, m: real, n: nat, plotted: bool)
    requires forall k :: 0 <= k < |init| ==> !init[k].flags.active
    requires var p := PressScanUntilRaise(init, m, n, plotted);
      !p.2 && p.0 == Idle
    ensures AtMostOneActive(PressScanUntilRaise(init, m, n, plotted).1 + [PressStep(Idle, last, m).1])
  {
    PressScanUntilRaiseAgrees(init, m, n, plotted);
    PressScanMode(init, m);
    PressScanMissChangesNothing(init, m);
  }

  /** One more pass of the loop, while it has not raised. */
  lemma PressScanUntilRaiseStep(rs: seq<AnnotationRecord>, m: real, n: nat, plotted: bool, i: nat)
    requires i < |rs| && !PressScanUntilRaise(rs[..i], m, n, plotted).2
    ensures var p := PressScanUntilRaise(rs[..i], m, n, plotted);
      var q := PressStep(p.0, rs[i], m);
      PressScanUntilRaise(rs[..i + 1], m, n, plotted)
        == (q.0, p.1 + [q.1], p.0 == Idle && q.0 == MovingArea && BoundsUpdateRaises(n, plotted, rs[i]))
  {
    assert rs[..i + 1][..i] == rs[..i];
  }

  /** The left-press branch in Idle, stopped when the update raises: otherwise the scan and, if it grabbed nothing, the new area. */
  function LeftPressResult(cleared: seq<AnnotationRecord>, m: real, n: nat, plotted: bool): (GUIState, seq<AnnotationRecord>, bool)
  {
    var scan := PressScanUntilRaise(cleared, m, n, plotted);
    if scan.2 then scan
    else
      var o := LeftPressOutcome(cleared, m);
      (o.0, o.1, false)
  }

  /**
   * The mode, the list, and whether the press raised, for a signal of `n`
   * samples, `plotted` once the lower plot exists. Only the left-press
   * branch calls the update.
   */
  function PressResult(st: GUIState, rs: seq<AnnotationRecord>, leftDown: bool, rightDown: bool, mouseX: Option<real>, n: nat, plotted: bool): (GUIState, seq<AnnotationRecord>, bool)
  {
    if st == Idle && leftDown && mouseX.Some? then LeftPressResult(DeselectAll(rs), mouseX.value, n, plotted)
    else
      var o := PressOutcome(st, rs, leftDown, rightDown, mouseX);
      (o.0, o.1, false)
  }

  /**
   * A press that does not raise is `PressOutcome`. One that raises was a left
   * press in Idle on the axes: it leaves MovingArea, with no new area and the
   * list only deselected and scanned, so no longer, and the invariant holds
   * either way.
   */
  lemma PressResultShape(st: GUIState, rs: seq<AnnotationRecord>, leftDown: bool, rightDown: bool, mouseX: Option<real>, n: nat, plotted: bool)
    requires ValidState(st, rs)
    ensures var r := PressResult(st, rs, leftDown, rightDown, mouseX, n, plotted);
      && (!r.2 ==> (r.0, r.1) == PressOutcome(st, rs, leftDown, rightDown, mouseX))
      && (r.2 ==> st == Idle && leftDown && mouseX.Some? && r.0 == MovingArea && |r.1| == |rs|)
      && ValidState(r.0, r.1)
  {
    var r := PressResult(st, rs, leftDown, rightDown, mouseX, n, plotted);
    if r.2 {
      var cleared := DeselectAll(rs);
      PressScanUntilRaiseFlags(cleared, mouseX.value, n, plotted);
    } else {
      PressKeepsValid(st, rs, leftDown, rightDown, mouseX);
    }
  }

  // ------------------------------------------------------------------
  // Release
  // ------------------------------------------------------------------

  /**
   * Whether the release loop, after handling the active annotation `r` in
   * mode `st`, calls the update and it raises: the call is made once the lower
   * plot exists, in NewArea, MovingEdge and MovingArea, with the bounds as the
   * loop has just fixed them, also for a new area it has just removed.
   */
  predicate ReleaseUpdateRaises(st: GUIState, r: AnnotationRecord, n: nat, plotted: bool)
  {
    && r.flags.active && plotted
    && (st == NewArea || st == MovingEdge || st == MovingArea)
    && BoundsUpdateRaises(n, plotted, Released(st, r))
  }

  /**
   * The release loop from position `i`, stopped by the update: the list as
   * the loop leaves it, and whether it raised. When it raises, the list holds
   * the removal or the fixed bounds of the annotation just visited.
   */
  function ReleaseLoopUntilRaise(st: GUIState, s: seq<AnnotationRecord>, i: nat, box: Renderer, n: nat, plotted: bool): (r: (seq<AnnotationRecord>, bool))
    decreases |s| - i
  {
    if i >= |s| then (s, false)
    else
      var t := if Dropped(st, s[i], box) then s[..i] + s[i + 1..] else s[i := Released(st, s[i])];
      if ReleaseUpdateRaises(st, s[i], n, plotted) then (t, true)
      else ReleaseLoopUntilRaise(st, t, i + 1, box, n, plotted)
  }

  /** When the update does not raise, the loop is the release loop. */
  lemma {:induction false} ReleaseLoopUntilRaiseAgrees(st: GUIState, s: seq<AnnotationRecord>, i: nat, box: Renderer, n: nat, plotted: bool)
    ensures var r := ReleaseLoopUntilRaise(st, s, i, box, n, plotted);
      !r.1 ==> r.0 == ReleaseLoop(st, s, i, box)
    decreases |s| - i
  {
    if i < |s| {
      var t := if Dropped(st, s[i], box) then s[..i] + s[i + 1..] else s[i := Released(st, s[i])];
      ReleaseLoopUntilRaiseAgrees(st, t, i + 1, box, n, plotted);
    }
  }

  /** The loop raises only when the update raises for some annotation of the list from `i` on. */
  lemma {:induction false} ReleaseRaisesOnlyOnActive(st: GUIState, s: seq<AnnotationRecord>, i: nat, box: Renderer, n: nat, plotted: bool)
    ensures ReleaseLoopUntilRaise(st, s, i, box, n, plotted).1 ==>
      exists x :: x in s[i..] && ReleaseUpdateRaises(st, x, n, plotted)
    decreases |s| - i
  {
    if i < |s| && !ReleaseUpdateRaises(st, s[i], n, plotted) {
      if Dropped(st, s[i], box) {
        var t := s[..i] + s[i + 1..];
        ReleaseRaisesOnlyOnActive(st, t, i + 1, box, n, plotted);
        if i + 1 < |t| {
          assert t[i + 1..] == s[i + 2..];
          assert s[i..] == [s[i], s[i + 1]] + s[i + 2..];
        }
      } else {
        var t := s[i := Released(st, s[i])];
        ReleaseRaisesOnlyOnActive(st, t, i + 1, box, n, plotted);
        assert t[i + 1..] == s[i + 1..];
        assert s[i..] == [s[i]] + s[i + 1..];
      }
    } else if i < |s| {
      assert s[i] in s[i..];
    }
  }

  /** One step of the release loop keeps every annotation attached and at most one active. */
  lemma ReleaseStepKeepsFlags(st: GUIState, s: seq<AnnotationRecord>, i: nat, box: Renderer)
    requires i < |s|
    ensures var t := if Dropped(st, s[i], box) then s[..i] + s[i + 1..] else s[i := Released(st, s[i])];
      && (AllAttached(s) ==> AllAttached(t))
      && (AtMostOneActive(s) ==> AtMostOneActive(t))
  {
    if Dropped(st, s[i], box) {
      var t := s[..i] + s[i + 1..];
      assert forall k :: 0 <= k < |t| ==> t[k] == if k < i then s[k] else s[k + 1];
    }
  }

  /** The stopped release loop also keeps every annotation attached and at most one active. */
  lemma {:induction false} ReleaseLoopUntilRaiseFlags(st: GUIState, s: seq<AnnotationRecord>, i: nat, box: Renderer, n: nat, plotted: bool)
    ensures var r := ReleaseLoopUntilRaise(st, s, i, box, n, plotted);
      && (AllAttached(s) ==> AllAttached(r.0))
      && (AtMostOneActive(s) ==> AtMostOneActive(r.0))
    decreases |s| - i
  {
    if i < |s| {
      var t := if Dropped(st, s[i], box) then s[..i] + s[i + 1..] else s[i := Released(st, s[i])];
      ReleaseStepKeepsFlags(st, s, i, box);
      ReleaseLoopUntilRaiseFlags(st, t, i + 1, box, n, plotted);
    }
  }

  /**
   * The mode, the list, and whether the release raised. When the update
   * raises, the handler stops inside its loop: the mode stays, no edge is
   * disarmed and the list is not re-sorted. Otherwise the release ends in Idle
   * with `ReleaseOutcome`.
   */
  function ReleaseResult(st: GUIState, s: seq<AnnotationRecord>, box: Renderer, n: nat, plotted: bool): (GUIState, seq<AnnotationRecord>, bool)
  {
    var loop := ReleaseLoopUntilRaise(st, s, 0, box, n, plotted);
    if loop.1 then (st, loop.0, true) else (Idle, ReleaseOutcome(st, s, box), false)
  }

  /**
   * A release raises only in NewArea, MovingEdge or MovingArea, only once the
   * lower plot exists, and only when the update raises for one of the active
   * annotations; it then keeps the mode. Whether it raises or not, the
   * invariant holds afterwards.
   */
  lemma ReleaseResultShape(st: GUIState, s: seq<AnnotationRecord>, box: Renderer, n: nat, plotted: bool)
    requires ValidState(st, s)
    ensures var r := ReleaseResult(st, s, box, n, plotted);
      && (r.2 ==> plotted && r.0 == st && (st == NewArea || st == MovingEdge || st == MovingArea))
      && (r.2 ==> exists x :: x in s && x.flags.active && BoundsUpdateRaises(n, plotted, Released(st, x)))
      && (!r.2 ==> r.0 == Idle && r.1 == ReleaseOutcome(st, s, box))
      && ValidState(r.0, r.1)
  {
    ReleaseLoopUntilRaiseAgrees(st, s, 0, box, n, plotted);
    ReleaseRaisesOnlyOnActive(st, s, 0, box, n, plotted);
    ReleaseLoopUntilRaiseFlags(st, s, 0, box, n, plotted);
    assert s[0..] == s;
    if !ReleaseLoopUntilRaise(st, s, 0, box, n, plotted).1 {
      ReleaseKeepsValid(st, s, box);
    }
  }

  /**
   * An area moved until its upper bound lies two or more past the last sample
   * (the move is not clamped) makes the release raise. The handler is then
   * left in MovingArea with the area still active and its edges as they were,
   * and the next pointer move, button up, keeps dragging it with the pointer.
   */
  lemma AreaMovedPastLastSampleSticks(a: AnnotationRecord, n: nat, box: Renderer, xPixels: real, m: real, xPixels': real, m': real)
    requires a.hasHandle && a.flags.active
    requires m + a.mouseOffsetXMin + (a.xMax - a.xMin) >= n as real + 1.0
    ensures var moved := MoveOutcome(MovingArea, [a], box, xPixels, Some(m));
      && ReleaseResult(MovingArea, moved, box, n, true) == (MovingArea, moved, true)
      && moved[0].flags.active
      && MoveOutcome(MovingArea, moved, box, xPixels', Some(m'))[0].xMin == m' + a.mouseOffsetXMin
  {
    var moved := MoveOutcome(MovingArea, [a], box, xPixels, Some(m));
    HoverKeepsGeometry([a], box, xPixels);
    AreaMoveKeepsWidths([a], box, xPixels, m);
    BoundsUpdateRange(n, moved[0]);
    assert ReleaseUpdateRaises(MovingArea, moved[0], n, true);
    assert moved[0 := Released(MovingArea, moved[0])] == moved;
    HoverKeepsGeometry(moved, box, xPixels');
    AreaMoveKeepsWidths(moved, box, xPixels', m');
  }
}
