/** The workspace scene: the registry of boxes that the user adds, resizes,
    drags, deletes, exports and imports, and the engine methods that settle
    them (js/snap.js, js/boxes.js, js/interactions.js; app.js holds the
    same code in one file). JavaScript object references to boxes (the
    selected box, the drag target, `exclude`) are held as indices into
    `boxes`; a reference to a box that has left the list is None. */
module Scene {
  import opened Wrappers
  import opened BoxGeometry
  import opened Snap

  // ---------------------------------------------------------------------
  // Values the scene works with
  // ---------------------------------------------------------------------

  /** The drag gesture: whether it is active, the pick-up offset between the
      floor hit point and the box centre, and the dragged box. */
  datatype DragState = DragState(active: bool, offset: Vec3, target: Option<nat>)

  const NoDrag: DragState := DragState(false, Vec3(0.0, 0.0, 0.0), None)

  /** What the pointer ray hit when a drag may start: the index of the first
      box mesh hit and the point where the ray meets the floor plane. */
  datatype Hit = Hit(box: nat, point: Vec3)

  /** One entry of an exported layout (the colour is not modelled). */
  datatype LayoutBox = LayoutBox(id: real, size: Size, position: Vec3)

  /** exportLayoutData's result. */
  datatype Layout = Layout(version: int, spaceSize: Space, boxes: seq<LayoutBox>)

  /** One entry of a parsed layout file, each field as `Number(...)` reads
      it: None when it is missing or not a number. An id is None unless it
      is a finite number. */
  datatype RawEntry = RawEntry(id: Option<real>, w: Option<real>, h: Option<real>, d: Option<real>,
                               x: Option<real>, y: Option<real>, z: Option<real>)

  /** A parsed layout file: `boxes` is None when the data is missing or its
      `boxes` field is not an array. */
  datatype RawLayout = RawLayout(boxes: Option<seq<RawEntry>>)

  /** Every size component is at least 1, as every path that creates or
      resizes a box makes sure. */
  predicate Sized(b: Box)
  {
    b.size.w >= 1.0 && b.size.h >= 1.0 && b.size.d >= 1.0
  }

  predicate AllSized(boxes: seq<Box>)
  {
    forall j :: 0 <= j < |boxes| ==> Sized(boxes[j])
  }

  // ---------------------------------------------------------------------
  // Ids and lookup
  // ---------------------------------------------------------------------

  /** `Math.max(...ids)` over a non-empty list. */
  function MaxId(boxes: seq<Box>): (r: real)
    requires |boxes| > 0
    ensures forall j :: 0 <= j < |boxes| ==> boxes[j].id <= r
    ensures exists j :: 0 <= j < |boxes| && boxes[j].id == r
  {
    if |boxes| == 1 then boxes[0].id
    else Max(MaxId(boxes[..|boxes| - 1]), boxes[|boxes| - 1].id)
  }

  /** The id addBox gives a new box: one more than the largest id, or 0 for
      an empty list. It differs from every live id. */
  function NextId(boxes: seq<Box>): (r: real)
    ensures forall j :: 0 <= j < |boxes| ==> boxes[j].id < r
    ensures |boxes| == 0 ==> r == 0.0
    ensures |boxes| > 0 ==> exists j :: 0 <= j < |boxes| && boxes[j].id == r - 1.0
  {
    if |boxes| == 0 then 0.0 else MaxId(boxes) + 1.0
  }

  /** The index of the first box with the given id, searching from position
      k on (findIndex on the box list). */
  function FindFrom(boxes: seq<Box>, id: real, k: nat): (r: Option<nat>)
    requires k <= |boxes|
    ensures r.Some? ==> k <= r.value < |boxes| && boxes[r.value].id == id
                        && forall j :: k <= j < r.value ==> boxes[j].id != id
    ensures r.None? ==> forall j :: k <= j < |boxes| ==> boxes[j].id != id
    decreases |boxes| - k
  {
    if k == |boxes| then None
    else if boxes[k].id == id then Some(k)
    else FindFrom(boxes, id, k + 1)
  }

  /** The index of the first box with the given id; None for `null`, which
      no numeric id equals. */
  function FindById(boxes: seq<Box>, id: Option<real>): (r: Option<nat>)
    ensures r.Some? ==> id.Some? && r.value < |boxes| && boxes[r.value].id == id.value
                        && forall j :: 0 <= j < r.value ==> boxes[j].id != id.value
    ensures r.None? ==> forall j :: 0 <= j < |boxes| ==> id.None? || boxes[j].id != id.value
  {
    if id.None? then None else FindFrom(boxes, id.value, 0)
  }

  /** The list with the box at idx spliced out. */
  function Removed(boxes: seq<Box>, idx: nat): (r: seq<Box>)
    requires idx < |boxes|
    ensures |r| == |boxes| - 1
    ensures forall j :: 0 <= j < idx ==> r[j] == boxes[j]
    ensures forall j :: idx <= j < |r| ==> r[j] == boxes[j + 1]
  {
    boxes[..idx] + boxes[idx + 1..]
  }

  /** Where a reference into the list points after the box at idx is
      spliced out: later boxes move down one place, and a reference to the
      removed box no longer points into the list. */
  function Reindexed(ref: Option<nat>, idx: nat): (r: Option<nat>)
    ensures ref == Some(idx) ==> r.None?
    ensures ref.Some? && ref.value < idx ==> r == ref
    ensures ref.Some? && ref.value > idx ==> r == Some(ref.value - 1)
    ensures ref.None? ==> r.None?
  {
    match ref
    case None => None
    case Some(k) => if k == idx then None else if k > idx then Some(k - 1) else Some(k)
  }

  // ---------------------------------------------------------------------
  // Size and position sanitising, export and import
  // ---------------------------------------------------------------------

  /** `Math.max(1, v ?? 1)`. */
  function SanitizedDim(v: Option<real>): (r: real)
    ensures r >= 1.0
    ensures v.Some? && v.value >= 1.0 ==> r == v.value
    ensures v.None? || v.value < 1.0 ==> r == 1.0
  {
    match v
    case None => 1.0
    case Some(x) => Max(1.0, x)
  }

  /** JavaScript's `Number(v) || dflt`: a missing, NaN or zero value falls
      back to the default. */
  function OrDefault(v: Option<real>, dflt: real): (r: real)
    ensures v.Some? && v.value != 0.0 ==> r == v.value
    ensures v.None? || v.value == 0.0 ==> r == dflt
  {
    if v.Some? && v.value != 0.0 then v.value else dflt
  }

  /** The box createBoxFromData builds: each size component sanitised, a
      missing x or z at 0 and a missing y at half the sanitised height. */
  function BoxFromData(id: real, w: Option<real>, h: Option<real>, d: Option<real>,
                       x: Option<real>, y: Option<real>, z: Option<real>): (b: Box)
    ensures Sized(b) && b.id == id
    ensures b.size == Size(SanitizedDim(w), SanitizedDim(h), SanitizedDim(d))
    ensures b.position.y == (if y.Some? then y.value else b.size.h / 2.0)
    ensures b.position.x == (if x.Some? then x.value else 0.0)
    ensures b.position.z == (if z.Some? then z.value else 0.0)
  {
    var size := Size(SanitizedDim(w), SanitizedDim(h), SanitizedDim(d));
    var defaultY := size.h / 2.0;
    Box(id, size, Vec3(if x.Some? then x.value else 0.0,
                       if y.Some? then y.value else defaultY,
                       if z.Some? then z.value else 0.0))
  }

  /** The box applyLayoutData builds from entry `index`: an id that is not a
      finite number becomes the index, a falsy size component becomes 200, a
      falsy x or z becomes 0 and a falsy y becomes half the height read. */
  function ImportedBox(e: RawEntry, index: nat): (b: Box)
    ensures Sized(b)
    ensures b.id == if e.id.Some? then e.id.value else index as real
    ensures b.size == Size(Max(1.0, OrDefault(e.w, 200.0)), Max(1.0, OrDefault(e.h, 200.0)),
                           Max(1.0, OrDefault(e.d, 200.0)))
    ensures b.position == Vec3(OrDefault(e.x, 0.0), OrDefault(e.y, OrDefault(e.h, 200.0) / 2.0),
                               OrDefault(e.z, 0.0))
  {
    var id := if e.id.Some? then e.id.value else index as real;
    var w := OrDefault(e.w, 200.0);
    var h := OrDefault(e.h, 200.0);
    var d := OrDefault(e.d, 200.0);
    BoxFromData(id, Some(w), Some(h), Some(d),
                Some(OrDefault(e.x, 0.0)), Some(OrDefault(e.y, h / 2.0)), Some(OrDefault(e.z, 0.0)))
  }

  /** The boxes applyLayoutData creates, in input order, before they are
      stabilised. */
  function ImportedBoxes(entries: seq<RawEntry>): (r: seq<Box>)
    ensures |r| == |entries|
    ensures forall j :: 0 <= j < |entries| ==> r[j] == ImportedBox(entries[j], j)
  {
    seq(|entries|, j requires 0 <= j < |entries| => ImportedBox(entries[j], j))
  }

  /** exportLayoutData: version 1, the workspace size and one entry per box
      in list order. */
  function ExportLayout(space: Space, boxes: seq<Box>): (l: Layout)
    ensures l.version == 1 && l.spaceSize == space && |l.boxes| == |boxes|
    ensures forall j :: 0 <= j < |boxes| ==>
              l.boxes[j] == LayoutBox(boxes[j].id, boxes[j].size, boxes[j].position)
  {
    Layout(1, space, seq(|boxes|, j requires 0 <= j < |boxes| =>
                                   LayoutBox(boxes[j].id, boxes[j].size, boxes[j].position)))
  }

  /** What parsing the JSON text of an exported layout gives back: every
      field present and numeric. */
  function Parsed(l: Layout): (raw: RawLayout)
    ensures raw.boxes.Some? && |raw.boxes.value| == |l.boxes|
  {
    RawLayout(Some(seq(|l.boxes|, j requires 0 <= j < |l.boxes| =>
      var e := l.boxes[j];
      RawEntry(Some(e.id), Some(e.size.w), Some(e.size.h), Some(e.size.d),
               Some(e.position.x), Some(e.position.y), Some(e.position.z)))))
  }

  /** Importing an exported layout gives back every box's id, size, x and z;
      the y comes back too unless it was 0, which the import reads as
      missing and replaces by half the height. */
  lemma ImportOfExport(space: Space, boxes: seq<Box>)
    requires AllSized(boxes)
    ensures SameButY(boxes, ImportedBoxes(Parsed(ExportLayout(space, boxes)).boxes.value))
    ensures forall j :: 0 <= j < |boxes| && boxes[j].position.y != 0.0 ==>
              ImportedBoxes(Parsed(ExportLayout(space, boxes)).boxes.value)[j] == boxes[j]
  {
    var r := ImportedBoxes(Parsed(ExportLayout(space, boxes)).boxes.value);
    forall j | 0 <= j < |boxes|
      ensures r[j] == boxes[j].WithY(r[j].position.y)
      ensures boxes[j].position.y != 0.0 ==> r[j] == boxes[j]
    {
      assert Sized(boxes[j]);
    }
  }

  /** After a full import of an exported layout (the import followed by
      resolveStacks), only heights may differ from the exported boxes. */
  lemma ImportOfExportThenStabilise(space: Space, boxes: seq<Box>)
    requires AllSized(boxes)
    ensures SameButY(boxes, Stabilise(ImportedBoxes(Parsed(ExportLayout(space, boxes)).boxes.value),
                                      None, space, MaxPasses).0)
  {
    var imported := ImportedBoxes(Parsed(ExportLayout(space, boxes)).boxes.value);
    ImportOfExport(space, boxes);
    StabiliseFrame(imported, None, space, MaxPasses);
    SameButYTransitive(boxes, imported, Stabilise(imported, None, space, MaxPasses).0);
  }

  /** A stabiliser result with `n` earlier passes added to its count. */
  function AfterPasses(r: (seq<Box>, nat, bool), n: nat): (seq<Box>, nat, bool)
  {
    (r.0, r.1 + n, r.2)
  }

  /** One turn of the resolveStacks loop: when `outcome` is what the
      stabiliser delivers from `boxes` with `budget` passes left after
      `done` passes, a pass from `boxes` that writes something leaves the
      same outcome ahead with one pass fewer left and one more done, and
      one that writes nothing is that outcome. */
  lemma StabiliseAfterPass(boxes: seq<Box>, exclude: Option<nat>, space: Space, budget: nat, budget': nat,
                           done: nat, done': nat, outcome: (seq<Box>, nat, bool), after: seq<Box>, changed: bool)
    requires budget > 0 && budget' == budget - 1 && done' == done + 1
    requires AfterPasses(Stabilise(boxes, exclude, space, budget), done) == outcome
    requires (after, changed) == Pass(boxes, exclude, space)
    ensures changed ==> AfterPasses(Stabilise(after, exclude, space, budget'), done') == outcome
    ensures !changed ==> (after, done', true) == outcome
  {
  }

  /** What resolveStacks with its pass bound promises about its result. */
  lemma ResolveStacksProperties(boxes: seq<Box>, exclude: Option<nat>, space: Space)
    ensures SameButY(boxes, Stabilise(boxes, exclude, space, MaxPasses).0)
    ensures exclude.Some? && exclude.value < |boxes| ==>
              Stabilise(boxes, exclude, space, MaxPasses).0[exclude.value] == boxes[exclude.value]
    ensures UnderCeiling(boxes, space) ==> UnderCeiling(Stabilise(boxes, exclude, space, MaxPasses).0, space)
    ensures 1 <= Stabilise(boxes, exclude, space, MaxPasses).1 <= MaxPasses
    ensures Stabilise(boxes, exclude, space, MaxPasses).2 ==>
              Stable(Stabilise(boxes, exclude, space, MaxPasses).0, exclude, space)
    ensures Stable(boxes, exclude, space) ==> Stabilise(boxes, exclude, space, MaxPasses).0 == boxes
  {
    StabilisePassCount(boxes, exclude, space, MaxPasses);
    StabiliseFrame(boxes, exclude, space, MaxPasses);
    if Stabilise(boxes, exclude, space, MaxPasses).2 {
      StabiliseConverged(boxes, exclude, space, MaxPasses);
    }
    if Stable(boxes, exclude, space) {
      StabiliseOnStable(boxes, exclude, space, MaxPasses);
    }
  }

  /** Re-settling heights keeps every box sized. */
  lemma SameButYKeepsSized(a: seq<Box>, b: seq<Box>)
    requires AllSized(a) && SameButY(a, b)
    ensures AllSized(b)
  {
    forall j | 0 <= j < |b|
      ensures Sized(b[j])
    {
      assert b[j] == a[j].WithY(b[j].position.y);
    }
  }

  // ---------------------------------------------------------------------
  // The scene state and what each user operation does to it
  // ---------------------------------------------------------------------

  /** The part of the application state the operations change: the box
      list, the selected box and the drag gesture. */
  datatype SceneState = SceneState(boxes: seq<Box>, selected: Option<nat>, drag: DragState)

  /** Every box is sized, and the selection and the drag target point into
      the list when they point anywhere. */
  predicate WellFormed(s: SceneState)
  {
    && AllSized(s.boxes)
    && (s.selected.Some? ==> s.selected.value < |s.boxes|)
    && (s.drag.target.Some? ==> s.drag.target.value < |s.boxes|)
  }

  /** The list after addBox: a box with the next id and the given size is
      appended at (0, y0, 0) and then lifted to its full-mode snap height. */
  function AddedBoxes(boxes: seq<Box>, space: Space, size: Size, y0: real): seq<Box>
  {
    var pushed := boxes + [Box(NextId(boxes), size, Vec3(0.0, y0, 0.0))];
    pushed[|boxes| := pushed[|boxes|].WithY(SnapY(pushed, |boxes|, space, false))]
  }

  /** addBox: the box is added and selected by its id. */
  function AddBoxStep(s: SceneState, space: Space, size: Size, y0: real): SceneState
  {
    var boxes := AddedBoxes(s.boxes, space, size, y0);
    SceneState(boxes, FindById(boxes, Some(NextId(s.boxes))), s.drag)
  }

  /** deleteBox(id): no change when no box has the id; otherwise the first
      such box is spliced out, the selection is cleared when the selected
      box has that id, and the stacks are re-settled with nothing excluded. */
  function DeleteStep(s: SceneState, id: real, space: Space): SceneState
    requires WellFormed(s)
  {
    match FindById(s.boxes, Some(id))
    case None => s
    case Some(idx) =>
      var selected := if s.selected.Some? && s.boxes[s.selected.value].id == id then None
                      else Reindexed(s.selected, idx);
      SceneState(Stabilise(Removed(s.boxes, idx), None, space, MaxPasses).0,
                 selected, s.drag.(target := Reindexed(s.drag.target, idx)))
  }

  /** deleteBox leaves a well-formed state well-formed: the sizes survive
      the re-settling and the selection and drag target are re-indexed into
      the shorter list. */
  lemma DeleteStepWellFormed(s: SceneState, id: real, space: Space)
    requires WellFormed(s)
    ensures WellFormed(DeleteStep(s, id, space))
  {
    var found := FindById(s.boxes, Some(id));
    if found.Some? {
      var rest := Removed(s.boxes, found.value);
      StabiliseFrame(rest, None, space, MaxPasses);
      SameButYKeepsSized(rest, Stabilise(rest, None, space, MaxPasses).0);
    }
  }

  /** updateBoxSize(box): the entered sizes, each at least 1, replace the
      box's size; the box is snapped in full mode and the stacks re-settled
      around it. No box: no change. */
  function ResizeStep(s: SceneState, i: Option<nat>, w: real, h: real, d: real, space: Space): SceneState
    requires i.Some? ==> i.value < |s.boxes|
  {
    match i
    case None => s
    case Some(k) =>
      var b := s.boxes[k];
      var sized := s.boxes[k := Box(b.id, Size(Max(1.0, w), Max(1.0, h), Max(1.0, d)), b.position)];
      var snapped := sized[k := sized[k].WithY(SnapY(sized, k, space, false))];
      s.(boxes := Stabilise(snapped, Some(k), space, MaxPasses).0)
  }

  /** clearBoxes: no boxes, nothing selected; a drag target, if any, has
      left the list. */
  function ClearStep(s: SceneState): SceneState
  {
    SceneState([], None, s.drag.(target := None))
  }

  /** applyLayoutData: data without a `boxes` array is refused and nothing
      changes; otherwise the boxes are replaced by the imported ones,
      re-settled, and nothing is selected. */
  function ImportStep(s: SceneState, raw: RawLayout, space: Space): Result<SceneState>
  {
    match raw.boxes
    case None => Err("Invalid layout data")
    case Some(entries) =>
      Ok(ClearStep(s).(boxes := Stabilise(ImportedBoxes(entries), None, space, MaxPasses).0))
  }

  /** tryStartDrag: a miss clears the selection; a hit selects the first box
      with the hit box's id and starts dragging the hit box, remembering the
      offset of the floor hit point from the box's footprint centre. */
  function StartDragStep(s: SceneState, hit: Option<Hit>): SceneState
    requires hit.Some? ==> hit.value.box < |s.boxes|
  {
    match hit
    case None => s.(selected := None)
    case Some(h) =>
      var b := s.boxes[h.box];
      SceneState(s.boxes, FindById(s.boxes, Some(b.id)),
                 DragState(true, Vec3(h.point.x - b.position.x, h.point.y - 0.0, h.point.z - b.position.z),
                           Some(h.box)))
  }

  /** The footprint centre a drag to floor point `point` asks for, clamped
      so that the box stays inside the workspace walls. */
  function DragX(space: Space, b: Box, point: Vec3, offset: Vec3): real
  {
    Clamp(point.x - offset.x, -(space.width / 2.0) + b.size.w / 2.0, space.width / 2.0 - b.size.w / 2.0)
  }

  function DragZ(space: Space, b: Box, point: Vec3, offset: Vec3): real
  {
    Clamp(point.z - offset.z, -(space.depth / 2.0) + b.size.d / 2.0, space.depth / 2.0 - b.size.d / 2.0)
  }

  /** dragMove: the target moves to the clamped footprint position, takes
      its drag height from its previous height, and the other stacks are
      re-settled around it. A target that has left the list moves nothing
      in it, and the re-settling then excludes no box. */
  function DragMoveStep(s: SceneState, point: Vec3, space: Space): SceneState
    requires WellFormed(s)
  {
    match s.drag.target
    case None => s.(boxes := Stabilise(s.boxes, None, space, MaxPasses).0)
    case Some(t) =>
      var b := s.boxes[t];
      var moved := s.boxes[t := Box(b.id, b.size, Vec3(DragX(space, b, point, s.drag.offset), b.position.y,
                                                        DragZ(space, b, point, s.drag.offset)))];
      var placed := moved[t := moved[t].WithY(DraggedY(moved, t, b.position.y, space))];
      s.(boxes := Stabilise(placed, Some(t), space, MaxPasses).0)
  }

  /** endDrag: the gesture ends; the target and offset stay as they were. */
  function EndDragStep(s: SceneState): SceneState
  {
    s.(drag := s.drag.(active := false))
  }

  // ---------------------------------------------------------------------
  // The scene
  // ---------------------------------------------------------------------

  class Scene {
    const spaceSize: Space
    var boxes: seq<Box>
    var selected: Option<nat>
    var drag: DragState

    /** The state the user operations act on. */
    function State(): SceneState
      reads this
    {
      SceneState(boxes, selected, drag)
    }

    ghost predicate Valid()
      reads this
    {
      WellFormed(State())
    }

    constructor ()
      ensures Valid()
      ensures spaceSize == DefaultSpace && boxes == [] && selected == None && drag == NoDrag
    {
      spaceSize := DefaultSpace;
      boxes := [];
      selected := None;
      drag := NoDrag;
    }

    // ----- engine (js/snap.js) -----

    /** findBestSnapPosition(box, considerBelowOnly), box being boxes[i]. */
    method FindBestSnapPosition(i: nat, considerBelowOnly: bool) returns (y: real)
      requires i < |boxes|
      ensures y == SnapY(boxes, i, spaceSize, considerBelowOnly)
      ensures y + boxes[i].size.h / 2.0 <= spaceSize.height
    {
      var box := boxes[i];
      var bestY := box.size.h / 2.0;
      var k := 0;
      while k < |boxes|
        invariant k <= |boxes|
        invariant bestY == BestUpTo(boxes, i, considerBelowOnly, k)
      {
        var other := boxes[k];
        if k != i {
          var considered := true;
          if considerBelowOnly {
            var otherTop := other.position.y + other.size.h / 2.0;
            var boxBottom := box.position.y - box.size.h / 2.0;
            if otherTop > boxBottom + SnapEps {
              considered := false;
            }
          }
          if considered && OverlapXZ(box, other) {
            var candidate := other.position.y + other.size.h / 2.0 + box.size.h / 2.0;
            if candidate > bestY - SnapEps {
              bestY := candidate;
            }
          }
        }
        k := k + 1;
      }
      y := Min(bestY, spaceSize.height - box.size.h / 2.0);
    }

    /** computeDraggedY(box, prevY), box being boxes[i]. */
    method ComputeDraggedY(i: nat, prevY: real) returns (y: real)
      requires i < |boxes|
      ensures y == DraggedY(boxes, i, prevY, spaceSize)
      ensures y + boxes[i].size.h / 2.0 <= spaceSize.height
    {
      var box := boxes[i];
      var h2 := box.size.h / 2.0;
      var bottom := prevY - h2;
      var top := prevY + h2;
      var base := 0.0;
      var pushUp := 0.0;
      var k := 0;
      while k < |boxes|
        invariant k <= |boxes|
        invariant base == BaseUpTo(boxes, i, prevY, k)
        invariant pushUp == PushUpTo(boxes, i, prevY, k)
      {
        var other := boxes[k];
        if k != i && OverlapXZ(box, other) {
          var oTop := other.position.y + other.size.h / 2.0;
          var oBottom := other.position.y - other.size.h / 2.0;
          var verticalOverlap := bottom < oTop - DragEps && top > oBottom + DragEps;
          assert verticalOverlap == VerticalConflict(boxes, i, k, prevY);
          assert (oTop <= bottom + DragEps) == Beneath(boxes, i, k, prevY);
          if verticalOverlap {
            pushUp := Max(pushUp, oTop);
          }
          if oTop <= bottom + DragEps {
            base := Max(base, oTop);
          }
        }
        k := k + 1;
      }
      y := Max(base, pushUp) + h2;
      y := Min(y, spaceSize.height - h2);
    }

    /** One pass of resolveStacks: the boxes sorted by their current height,
        each but the excluded one re-snapped in below-only mode against the
        list as it stands and written back when it moves by more than
        MoveEps. `changed` tells whether anything was written. */
    method ResolvePass(exclude: Option<nat>) returns (changed: bool)
      modifies this`boxes
      ensures (boxes, changed) == Pass(old(boxes), exclude, spaceSize)
    {
      changed := false;
      var ordered := OrderByY(boxes);
      ghost var passStart := boxes;
      var k := 0;
      while k < |ordered|
        invariant k <= |ordered|
        invariant (boxes, changed) == PassUpTo(passStart, ordered, exclude, spaceSize, k)
      {
        var b := ordered[k];
        if exclude != Some(b) {
          var y := FindBestSnapPosition(b, true);
          if Abs(y - boxes[b].position.y) > MoveEps {
            boxes := boxes[b := boxes[b].WithY(y)];
            changed := true;
          }
        }
        k := k + 1;
      }
    }

    /** The resolveStacks loop with a bound of `limit` passes: it stops
        after a pass that writes nothing or when the bound is reached. The
        ghost results are the number of passes and whether the last one
        wrote nothing. */
    method ResolveStacksWithin(exclude: Option<nat>, limit: nat) returns (ghost passes: nat, ghost converged: bool)
      modifies this`boxes
      ensures (boxes, passes, converged) == Stabilise(old(boxes), exclude, spaceSize, limit)
    {
      ghost var outcome := Stabilise(boxes, exclude, spaceSize, limit);
      var changed := true;
      var guard := 0;
      while changed && guard < limit
        invariant guard <= limit
        invariant changed ==> AfterPasses(Stabilise(boxes, exclude, spaceSize, limit - guard), guard) == outcome
        invariant !changed ==> (boxes, guard, true) == outcome
        decreases limit - guard
      {
        ghost var before, left, done := boxes, limit - guard, guard;
        changed := ResolvePass(exclude);
        guard := guard + 1;
        StabiliseAfterPass(before, exclude, spaceSize, left, limit - guard, done, guard, outcome, boxes, changed);
      }
      passes := guard;
      converged := !changed;
    }

    /** resolveStacks(exclude): at most MaxPasses passes, stopping after a
        pass that writes nothing; each box other than the excluded one only
        changes height. */
    method ResolveStacks(exclude: Option<nat>) returns (ghost passes: nat, ghost converged: bool)
      modifies this`boxes
      ensures (boxes, passes, converged) == Stabilise(old(boxes), exclude, spaceSize, MaxPasses)
      ensures SameButY(old(boxes), boxes)
    {
      ResolveStacksProperties(boxes, exclude, spaceSize);
      passes, converged := ResolveStacksWithin(exclude, MaxPasses);
    }

    // ----- the box registry (js/boxes.js; app.js) -----

    /** createBoxFromData: the sanitised box is appended; its index is
        returned. */
    method CreateBoxFromData(id: real, w: Option<real>, h: Option<real>, d: Option<real>,
                             x: Option<real>, y: Option<real>, z: Option<real>) returns (i: nat)
      requires Valid()
      modifies this`boxes
      ensures Valid()
      ensures boxes == old(boxes) + [BoxFromData(id, w, h, d, x, y, z)] && i == |old(boxes)|
    {
      i := |boxes|;
      boxes := boxes + [BoxFromData(id, w, h, d, x, y, z)];
    }

    /** selectBox(idOrNull): the first box with that id, or none. */
    method SelectBox(id: Option<real>)
      requires Valid()
      modifies this`selected
      ensures Valid()
      ensures selected == FindById(boxes, id)
    {
      selected := FindById(boxes, id);
    }

    /** addBox of js/boxes.js: w, h and d are the random whole sizes in
        [200, 300]; the box is created at half its height, snapped in full
        mode and selected. */
    method AddBox(w: int, h: int, d: int)
      requires Valid()
      requires 200 <= w <= 300 && 200 <= h <= 300 && 200 <= d <= 300
      modifies this`boxes, this`selected
      ensures Valid()
      ensures State() == AddBoxStep(old(State()), spaceSize, Size(w as real, h as real, d as real), h as real / 2.0)
    {
      var id := NextId(boxes);
      var size := Size(w as real, h as real, d as real);
      var i := CreateBoxFromData(id, Some(size.w), Some(size.h), Some(size.d),
                                 Some(0.0), Some(size.h / 2.0), Some(0.0));
      var y := FindBestSnapPosition(i, false);
      boxes := boxes[i := boxes[i].WithY(y)];
      SelectBox(Some(id));
    }

    /** addBox of app.js: the same, but the box is pushed as built, at
        height 0. */
    method AddBoxStandalone(w: int, h: int, d: int)
      requires Valid()
      requires 200 <= w <= 300 && 200 <= h <= 300 && 200 <= d <= 300
      modifies this`boxes, this`selected
      ensures Valid()
      ensures State() == AddBoxStep(old(State()), spaceSize, Size(w as real, h as real, d as real), 0.0)
    {
      var id := NextId(boxes);
      var i := |boxes|;
      boxes := boxes + [Box(id, Size(w as real, h as real, d as real), Vec3(0.0, 0.0, 0.0))];
      var y := FindBestSnapPosition(i, false);
      boxes := boxes[i := boxes[i].WithY(y)];
      SelectBox(Some(id));
    }

    /** deleteBox(id). */
    method DeleteBox(id: real)
      requires Valid()
      modifies this`boxes, this`selected, this`drag
      ensures Valid()
      ensures State() == DeleteStep(old(State()), id, spaceSize)
    {
      DeleteStepWellFormed(State(), id, spaceSize);
      var found := FindById(boxes, Some(id));
      if found.Some? {
        var idx := found.value;
        if selected.Some? && boxes[selected.value].id == id {
          selected := None;
        } else {
          selected := Reindexed(selected, idx);
        }
        drag := drag.(target := Reindexed(drag.target, idx));
        boxes := Removed(boxes, idx);
        ghost var passes, converged := ResolveStacks(None);
      }
    }

    /** updateBoxSize(box), box being boxes[i] (None for no box) and w, h, d
        the numbers read from the size inputs. */
    method UpdateBoxSize(i: Option<nat>, w: real, h: real, d: real)
      requires Valid()
      requires i.Some? ==> i.value < |boxes|
      modifies this`boxes
      ensures Valid()
      ensures State() == ResizeStep(old(State()), i, w, h, d, spaceSize)
    {
      if i.None? {
        return;
      }
      var k := i.value;
      var b := boxes[k];
      boxes := boxes[k := Box(b.id, Size(Max(1.0, w), Max(1.0, h), Max(1.0, d)), b.position)];
      var y := FindBestSnapPosition(k, false);
      boxes := boxes[k := boxes[k].WithY(y)];
      ghost var before := boxes;
      ghost var passes, converged := ResolveStacks(Some(k));
      SameButYKeepsSized(before, boxes);
    }

    /** clearBoxes. */
    method ClearBoxes()
      modifies this`boxes, this`selected, this`drag
      ensures Valid()
      ensures State() == ClearStep(old(State()))
    {
      boxes := [];
      selected := None;
      drag := drag.(target := None);
    }

    /** applyLayoutData(data): `err` is the message of the error thrown for
        data without a `boxes` array, None when the layout was applied. */
    method ApplyLayoutData(raw: RawLayout) returns (err: Option<string>)
      requires Valid()
      modifies this`boxes, this`selected, this`drag
      ensures Valid()
      ensures err.Some? ==> State() == old(State())
      ensures ImportStep(old(State()), raw, spaceSize) == if err.Some? then Err(err.value) else Ok(State())
    {
      if raw.boxes.None? {
        return Some("Invalid layout data");
      }
      ClearBoxes();
      var entries := raw.boxes.value;
      var k := 0;
      while k < |entries|
        invariant k <= |entries| && Valid()
        invariant boxes == ImportedBoxes(entries)[..k]
        invariant selected == None && drag == old(drag).(target := None)
      {
        var e := entries[k];
        var id := if e.id.Some? then e.id.value else k as real;
        var h := OrDefault(e.h, 200.0);
        var _ := CreateBoxFromData(id, Some(OrDefault(e.w, 200.0)), Some(h), Some(OrDefault(e.d, 200.0)),
                                   Some(OrDefault(e.x, 0.0)), Some(OrDefault(e.y, h / 2.0)), Some(OrDefault(e.z, 0.0)));
        assert ImportedBoxes(entries)[..k + 1] == ImportedBoxes(entries)[..k] + [ImportedBox(e, k)];
        k := k + 1;
      }
      assert boxes == ImportedBoxes(entries);
      ghost var before := boxes;
      ghost var passes, converged := ResolveStacks(None);
      SameButYKeepsSized(before, boxes);
      SelectBox(None);
      err := None;
    }

    // ----- pointer interaction (js/interactions.js; app.js) -----

    /** tryStartDrag: `hit` is what the pointer ray hit (None for no box). */
    method TryStartDrag(hit: Option<Hit>)
      requires Valid()
      requires hit.Some? ==> hit.value.box < |boxes|
      modifies this`selected, this`drag
      ensures Valid()
      ensures State() == StartDragStep(old(State()), hit)
    {
      if hit.Some? {
        var box := boxes[hit.value.box];
        SelectBox(Some(box.id));
        var p := hit.value.point;
        drag := DragState(true, Vec3(p.x - box.position.x, p.y - 0.0, p.z - box.position.z), Some(hit.value.box));
      } else {
        SelectBox(None);
      }
    }

    /** dragMove: `point` is where the pointer ray meets the floor plane. */
    method DragMove(point: Vec3)
      requires Valid() && drag.active
      modifies this`boxes
      ensures Valid()
      ensures State() == DragMoveStep(old(State()), point, spaceSize)
    {
      ghost var before := boxes;
      if drag.target.None? {
        ghost var passes, converged := ResolveStacks(None);
        SameButYKeepsSized(before, boxes);
        return;
      }
      var t := drag.target.value;
      var target := boxes[t];
      var x := DragX(spaceSize, target, point, drag.offset);
      var z := DragZ(spaceSize, target, point, drag.offset);
      boxes := boxes[t := Box(target.id, target.size, Vec3(x, target.position.y, z))];
      var y := ComputeDraggedY(t, target.position.y);
      boxes := boxes[t := boxes[t].WithY(y)];
      before := boxes;
      ghost var passes, converged := ResolveStacks(Some(t));
      SameButYKeepsSized(before, boxes);
    }

    /** endDrag. */
    method EndDrag()
      requires Valid()
      modifies this`drag
      ensures Valid()
      ensures State() == EndDragStep(old(State()))
    {
      drag := drag.(active := false);
    }
  }
}
