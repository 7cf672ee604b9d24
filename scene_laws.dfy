/** What the user operations of the scene promise: each keeps the scene
    well formed, and each says what happens to the boxes, the selection and
    the drag gesture. */
module SceneLaws {
  import opened Wrappers
  import opened BoxGeometry
  import opened Snap
  import opened Scene

  // ---------------------------------------------------------------------
  // addBox
  // ---------------------------------------------------------------------

  /** addBox appends exactly one box, leaves the others alone, gives it an
      id no live box has, puts it at the footprint centre at the height the
      full-mode snap gives it among the others, under the ceiling, and
      selects it. */
  lemma AddBoxProperties(s: SceneState, space: Space, size: Size, y0: real)
    requires WellFormed(s)
    requires size.w >= 1.0 && size.h >= 1.0 && size.d >= 1.0
    ensures WellFormed(AddBoxStep(s, space, size, y0))
    ensures |AddBoxStep(s, space, size, y0).boxes| == |s.boxes| + 1
    ensures AddBoxStep(s, space, size, y0).boxes[..|s.boxes|] == s.boxes
    ensures var b := AddBoxStep(s, space, size, y0).boxes[|s.boxes|];
            && b.id == NextId(s.boxes)
            && (forall j :: 0 <= j < |s.boxes| ==> s.boxes[j].id != b.id)
            && b.size == size && b.position.x == 0.0 && b.position.z == 0.0
            && b.position.y == SnapY(s.boxes + [Box(NextId(s.boxes), size, Vec3(0.0, y0, 0.0))],
                                     |s.boxes|, space, false)
            && b.Top() <= space.height
    ensures AddBoxStep(s, space, size, y0).selected == Some(|s.boxes|)
    ensures AddBoxStep(s, space, size, y0).drag == s.drag
  {
    var boxes := AddedBoxes(s.boxes, space, size, y0);
    var id := NextId(s.boxes);
    assert boxes[|s.boxes|].id == id;
    assert forall j :: 0 <= j < |s.boxes| ==> boxes[j] == s.boxes[j];
  }

  /** The two revisions of addBox (created at half height in js/boxes.js,
      at height 0 in app.js) give the same scene: the full-mode snap does
      not look at the new box's own height. */
  lemma AddBoxRevisionsAgree(s: SceneState, space: Space, size: Size, y0: real, y1: real)
    ensures AddBoxStep(s, space, size, y0) == AddBoxStep(s, space, size, y1)
  {
    var n := |s.boxes|;
    var p0 := s.boxes + [Box(NextId(s.boxes), size, Vec3(0.0, y0, 0.0))];
    var p1 := s.boxes + [Box(NextId(s.boxes), size, Vec3(0.0, y1, 0.0))];
    assert p1 == p0[n := p0[n].WithY(y1)];
    SnapFullModeIgnoresOwnY(p0, n, space, y1);
    assert AddedBoxes(s.boxes, space, size, y0) == AddedBoxes(s.boxes, space, size, y1);
  }

  // ---------------------------------------------------------------------
  // deleteBox
  // ---------------------------------------------------------------------

  /** deleteBox of an id no box has changes nothing. Otherwise the first
      box with the id is gone, every other box keeps its id, size and
      footprint, and the selection and the drag target still refer to the
      box they referred to, unless that box had the id (selection) or was
      the removed one (drag target), in which case they are cleared. */
  lemma DeleteBoxProperties(s: SceneState, id: real, space: Space)
    requires WellFormed(s)
    ensures WellFormed(DeleteStep(s, id, space))
    ensures FindById(s.boxes, Some(id)).None? ==> DeleteStep(s, id, space) == s
    ensures FindById(s.boxes, Some(id)).Some? ==>
              var idx := FindById(s.boxes, Some(id)).value;
              var r := DeleteStep(s, id, space);
              && SameButY(Removed(s.boxes, idx), r.boxes)
              && (r.selected.None? <==> s.selected.None? || s.boxes[s.selected.value].id == id)
              && (r.selected.Some? ==> Removed(s.boxes, idx)[r.selected.value] == s.boxes[s.selected.value])
              && (r.drag.target.None? <==> s.drag.target.None? || s.drag.target == Some(idx))
              && (r.drag.target.Some? ==> Removed(s.boxes, idx)[r.drag.target.value] == s.boxes[s.drag.target.value])
              && r.drag.active == s.drag.active && r.drag.offset == s.drag.offset
  {
    var found := FindById(s.boxes, Some(id));
    if found.Some? {
      var idx := found.value;
      StabiliseFrame(Removed(s.boxes, idx), None, space, MaxPasses);
    }
    DeleteStepWellFormed(s, id, space);
  }

  // ---------------------------------------------------------------------
  // updateBoxSize
  // ---------------------------------------------------------------------

  /** updateBoxSize gives the box the entered sizes, each at least 1, keeps
      its id and footprint centre, puts it at the full-mode snap height of
      the resized box (the settling that follows leaves it there) and under
      the ceiling; the other
      boxes keep their ids, sizes and footprints, and nothing else changes. */
  lemma ResizeProperties(s: SceneState, k: nat, w: real, h: real, d: real, space: Space)
    requires WellFormed(s) && k < |s.boxes|
    ensures WellFormed(ResizeStep(s, Some(k), w, h, d, space))
    ensures var r := ResizeStep(s, Some(k), w, h, d, space);
            var b := s.boxes[k];
            var sized := s.boxes[k := Box(b.id, Size(Max(1.0, w), Max(1.0, h), Max(1.0, d)), b.position)];
            && |r.boxes| == |s.boxes|
            && r.boxes[k].id == s.boxes[k].id
            && r.boxes[k].size == Size(Max(1.0, w), Max(1.0, h), Max(1.0, d))
            && r.boxes[k].position.x == s.boxes[k].position.x
            && r.boxes[k].position.z == s.boxes[k].position.z
            && r.boxes[k].position.y == SnapY(sized, k, space, false)
            && r.boxes[k].Top() <= space.height
            && (forall j :: 0 <= j < |s.boxes| && j != k ==> r.boxes[j] == s.boxes[j].WithY(r.boxes[j].position.y))
            && r.selected == s.selected && r.drag == s.drag
  {
    var b := s.boxes[k];
    var sized := s.boxes[k := Box(b.id, Size(Max(1.0, w), Max(1.0, h), Max(1.0, d)), b.position)];
    var snapped := sized[k := sized[k].WithY(SnapY(sized, k, space, false))];
    assert AllSized(snapped);
    StabiliseFrame(snapped, Some(k), space, MaxPasses);
    SameButYKeepsSized(snapped, Stabilise(snapped, Some(k), space, MaxPasses).0);
  }

  /** updateBoxSize with no box changes nothing. */
  lemma ResizeNothingIsNoOp(s: SceneState, w: real, h: real, d: real, space: Space)
    ensures ResizeStep(s, None, w, h, d, space) == s
  {
  }

  // ---------------------------------------------------------------------
  // applyLayoutData and exportLayoutData
  // ---------------------------------------------------------------------

  /** applyLayoutData refuses exactly the data without a `boxes` array.
      Otherwise there is one box per entry, with the entry's id, sanitised
      size and footprint, nothing is selected, and the scene is well
      formed. */
  lemma ImportProperties(s: SceneState, raw: RawLayout, space: Space)
    ensures ImportStep(s, raw, space).Err? <==> raw.boxes.None?
    ensures raw.boxes.Some? ==>
              var r := ImportStep(s, raw, space).value;
              && WellFormed(r)
              && SameButY(ImportedBoxes(raw.boxes.value), r.boxes)
              && r.selected.None? && r.drag.target.None? && r.drag.active == s.drag.active
  {
    if raw.boxes.Some? {
      var imported := ImportedBoxes(raw.boxes.value);
      StabiliseFrame(imported, None, space, MaxPasses);
      SameButYKeepsSized(imported, Stabilise(imported, None, space, MaxPasses).0);
    }
  }

  /** Saving a layout and loading it back, into any scene, is accepted and
      gives back every box's id, size and footprint in the same order; only
      heights may be re-settled. */
  lemma SaveThenLoadRoundTrip(s: SceneState, t: SceneState, space: Space)
    requires WellFormed(s)
    ensures ImportStep(t, Parsed(ExportLayout(space, s.boxes)), space).Ok?
    ensures SameButY(s.boxes, ImportStep(t, Parsed(ExportLayout(space, s.boxes)), space).value.boxes)
  {
    ImportOfExportThenStabilise(space, s.boxes);
  }

  // ---------------------------------------------------------------------
  // Dragging
  // ---------------------------------------------------------------------

  /** tryStartDrag on a miss clears the selection and changes nothing else;
      on a hit it leaves the boxes alone, starts dragging the hit box and
      selects the first box with the same id. */
  lemma StartDragProperties(s: SceneState, hit: Option<Hit>)
    requires WellFormed(s)
    requires hit.Some? ==> hit.value.box < |s.boxes|
    ensures WellFormed(StartDragStep(s, hit))
    ensures StartDragStep(s, hit).boxes == s.boxes
    ensures hit.None? ==> StartDragStep(s, hit) == s.(selected := None)
    ensures hit.Some? ==>
              var r := StartDragStep(s, hit);
              && r.drag.active && r.drag.target == Some(hit.value.box)
              && r.selected.Some? && r.selected.value <= hit.value.box
              && s.boxes[r.selected.value].id == s.boxes[hit.value.box].id
  {
  }

  /** dragMove keeps the dragged box's id and size, puts its footprint
      centre at the dragged-to floor point, clamped to the walls, at the
      drag-mode snap height of the moved box (the settling that follows
      leaves it there), and keeps it under the ceiling; the other boxes keep their ids, sizes and
      footprints. */
  lemma DragMoveProperties(s: SceneState, point: Vec3, space: Space, t: nat)
    requires WellFormed(s) && s.drag.active && s.drag.target == Some(t)
    ensures WellFormed(DragMoveStep(s, point, space))
    ensures var r := DragMoveStep(s, point, space);
            var b := s.boxes[t];
            var moved := s.boxes[t := Box(b.id, b.size, Vec3(DragX(space, b, point, s.drag.offset), b.position.y,
                                                              DragZ(space, b, point, s.drag.offset)))];
            && |r.boxes| == |s.boxes|
            && r.boxes[t].id == s.boxes[t].id && r.boxes[t].size == s.boxes[t].size
            && r.boxes[t].position.x == DragX(space, s.boxes[t], point, s.drag.offset)
            && r.boxes[t].position.z == DragZ(space, s.boxes[t], point, s.drag.offset)
            && r.boxes[t].position.y == DraggedY(moved, t, b.position.y, space)
            && r.boxes[t].Top() <= space.height
            && (forall j :: 0 <= j < |s.boxes| && j != t ==> r.boxes[j] == s.boxes[j].WithY(r.boxes[j].position.y))
            && r.selected == s.selected && r.drag == s.drag
  {
    var b := s.boxes[t];
    var moved := s.boxes[t := Box(b.id, b.size, Vec3(DragX(space, b, point, s.drag.offset), b.position.y,
                                                      DragZ(space, b, point, s.drag.offset)))];
    var placed := moved[t := moved[t].WithY(DraggedY(moved, t, b.position.y, space))];
    assert AllSized(placed);
    StabiliseFrame(placed, Some(t), space, MaxPasses);
    SameButYKeepsSized(placed, Stabilise(placed, Some(t), space, MaxPasses).0);
  }

  /** The clamped drag position stays between the walls whenever the box
      fits between them. */
  lemma DragStaysInside(space: Space, b: Box, point: Vec3, offset: Vec3)
    requires b.size.w <= space.width && b.size.d <= space.depth
    ensures -(space.width / 2.0) <= DragX(space, b, point, offset) - b.size.w / 2.0
    ensures DragX(space, b, point, offset) + b.size.w / 2.0 <= space.width / 2.0
    ensures -(space.depth / 2.0) <= DragZ(space, b, point, offset) - b.size.d / 2.0
    ensures DragZ(space, b, point, offset) + b.size.d / 2.0 <= space.depth / 2.0
  {
  }

  /** Picking a box up and moving the pointer nowhere leaves its footprint
      where it was, when it was between the walls: the remembered offset
      cancels the hit point. */
  lemma PickUpWithoutMovingKeepsFootprint(s: SceneState, hit: Hit, space: Space)
    requires WellFormed(s) && hit.box < |s.boxes|
    requires var b := s.boxes[hit.box];
             && -(space.width / 2.0) + b.size.w / 2.0 <= b.position.x <= space.width / 2.0 - b.size.w / 2.0
             && -(space.depth / 2.0) + b.size.d / 2.0 <= b.position.z <= space.depth / 2.0 - b.size.d / 2.0
    ensures var r := DragMoveStep(StartDragStep(s, Some(hit)), hit.point, space);
            && r.boxes[hit.box].position.x == s.boxes[hit.box].position.x
            && r.boxes[hit.box].position.z == s.boxes[hit.box].position.z
  {
    var started := StartDragStep(s, Some(hit));
    StartDragProperties(s, Some(hit));
    DragMoveProperties(started, hit.point, space, hit.box);
  }

  /** endDrag only ends the gesture. */
  lemma EndDragProperties(s: SceneState)
    requires WellFormed(s)
    ensures WellFormed(EndDragStep(s))
    ensures !EndDragStep(s).drag.active
    ensures EndDragStep(s).boxes == s.boxes && EndDragStep(s).selected == s.selected
    ensures EndDragStep(s).drag.target == s.drag.target
  {
  }

  /** clearBoxes leaves an empty, well-formed scene. */
  lemma ClearProperties(s: SceneState)
    ensures WellFormed(ClearStep(s)) && ClearStep(s).boxes == [] && ClearStep(s).selected.None?
  {
  }
}
