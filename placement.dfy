/** The rejection-based editor of src/main.js, the older revision: boxes
    carry axis-aligned bounds, and a move or resize is accepted only when
    the box stays inside the workspace and intersects no other box;
    otherwise it is rolled back. New boxes go to the first free slot of a
    floor grid. */
module Placement {
  import opened Wrappers
  import opened BoxGeometry

  const AreaSize: real := 1000.0
  const AreaHeight: real := 3000.0
  const MinDimension: real := 10.0
  const DefaultDimension: real := 300.0

  /** Axis-aligned bounds of a box. */
  datatype Bounds = Bounds(minX: real, maxX: real, minY: real, maxY: real, minZ: real, maxZ: real)

  /** The last accepted placement of a record. */
  datatype Snapshot = Snapshot(position: Vec3, width: real, depth: real, height: real)

  /** One box of the editor; `position` is its mesh position. */
  datatype Record = Record(id: int, width: real, depth: real, height: real, position: Vec3,
                           bounds: Bounds, lastValid: Option<Snapshot>)

  /** A drag in progress: the dragged record, the offset of the floor hit
      point from its footprint centre and the last accepted position. */
  datatype Drag = Drag(record: nat, offset: Vec3, previousPosition: Vec3)

  /** Why a move or resize was accepted or refused. */
  datatype Verdict = Accepted | OutsideSpace | Overlaps

  // ---------------------------------------------------------------------
  // Geometry
  // ---------------------------------------------------------------------

  /** computeBounds: the box of the given extents centred on `p`. */
  function ComputeBounds(p: Vec3, width: real, depth: real, height: real): (b: Bounds)
    ensures b.maxX - b.minX == width && b.maxY - b.minY == height && b.maxZ - b.minZ == depth
    ensures b.minX + b.maxX == 2.0 * p.x && b.minY + b.maxY == 2.0 * p.y && b.minZ + b.maxZ == 2.0 * p.z
  {
    Bounds(p.x - width / 2.0, p.x + width / 2.0, p.y - height / 2.0, p.y + height / 2.0,
           p.z - depth / 2.0, p.z + depth / 2.0)
  }

  /** isWithinBoundary: inside the floor square and between floor and
      ceiling. */
  predicate IsWithinBoundary(b: Bounds)
  {
    var half := AreaSize / 2.0;
    b.minX >= -half && b.maxX <= half && b.minZ >= -half && b.maxZ <= half
    && b.minY >= 0.0 && b.maxY <= AreaHeight
  }

  /** intersects: the interiors meet on all three axes; touching faces do
      not count. */
  predicate Intersects(a: Bounds, b: Bounds)
  {
    !(a.maxX <= b.minX || a.minX >= b.maxX || a.maxY <= b.minY || a.minY >= b.maxY
      || a.maxZ <= b.minZ || a.minZ >= b.maxZ)
  }

  /** A centred box is inside the workspace exactly when its centre keeps
      half its extent away from every wall, the floor and the ceiling. */
  lemma WithinBoundaryOfCentredBox(p: Vec3, width: real, depth: real, height: real)
    ensures IsWithinBoundary(ComputeBounds(p, width, depth, height)) <==>
              && -(AreaSize / 2.0) + width / 2.0 <= p.x <= AreaSize / 2.0 - width / 2.0
              && -(AreaSize / 2.0) + depth / 2.0 <= p.z <= AreaSize / 2.0 - depth / 2.0
              && height / 2.0 <= p.y <= AreaHeight - height / 2.0
  {
  }

  lemma IntersectsSymmetric(a: Bounds, b: Bounds)
    ensures Intersects(a, b) <==> Intersects(b, a)
  {
  }

  /** Boxes that only share a face (on any axis) do not intersect. */
  lemma SharedFaceDoesNotIntersect(a: Bounds, b: Bounds)
    requires a.maxX == b.minX || a.maxY == b.minY || a.maxZ == b.minZ
    ensures !Intersects(a, b) && !Intersects(b, a)
  {
  }

  /** A box with positive extents intersects itself. */
  lemma IntersectsItself(a: Bounds)
    requires a.minX < a.maxX && a.minY < a.maxY && a.minZ < a.maxZ
    ensures Intersects(a, a)
  {
  }

  // ---------------------------------------------------------------------
  // Collision queries
  // ---------------------------------------------------------------------

  /** `records.some(...)` from position k on: some record whose id is not
      `ignoreId` has bounds intersecting `b`. A null ignoreId is None, which
      no id equals. */
  predicate OverlapsFrom(records: seq<Record>, b: Bounds, ignoreId: Option<int>, k: nat)
    requires k <= |records|
    decreases |records| - k
  {
    if k == |records| then false
    else (Some(records[k].id) != ignoreId && Intersects(b, records[k].bounds))
         || OverlapsFrom(records, b, ignoreId, k + 1)
  }

  /** isOverlapping(bounds, ignoreId). */
  predicate IsOverlapping(records: seq<Record>, b: Bounds, ignoreId: Option<int>)
  {
    OverlapsFrom(records, b, ignoreId, 0)
  }

  lemma {:induction false} OverlapsFromMeaning(records: seq<Record>, b: Bounds, ignoreId: Option<int>, k: nat)
    requires k <= |records|
    ensures OverlapsFrom(records, b, ignoreId, k) <==>
              exists m :: k <= m < |records| && Some(records[m].id) != ignoreId && Intersects(b, records[m].bounds)
    decreases |records| - k
  {
    if k < |records| {
      OverlapsFromMeaning(records, b, ignoreId, k + 1);
      if Some(records[k].id) != ignoreId && Intersects(b, records[k].bounds) {
        assert k <= k < |records|;
      }
    }
  }

  /** isOverlapping ignores the records with the given id and is true
      exactly when some other record's bounds intersect. */
  lemma IsOverlappingMeaning(records: seq<Record>, b: Bounds, ignoreId: Option<int>)
    ensures IsOverlapping(records, b, ignoreId) <==>
              exists m :: 0 <= m < |records| && Some(records[m].id) != ignoreId && Intersects(b, records[m].bounds)
  {
    OverlapsFromMeaning(records, b, ignoreId, 0);
  }

  /** A placement the editor accepts for a new box: inside the workspace
      and clear of every record. */
  predicate Free(records: seq<Record>, b: Bounds)
  {
    IsWithinBoundary(b) && !IsOverlapping(records, b, None)
  }

  // ---------------------------------------------------------------------
  // The global invariant
  // ---------------------------------------------------------------------

  /** Every record is inside the workspace and no two records intersect. */
  predicate Placed(records: seq<Record>)
  {
    && (forall k :: 0 <= k < |records| ==> IsWithinBoundary(records[k].bounds))
    && (forall k, m :: 0 <= k < |records| && 0 <= m < |records| && k != m ==>
          !Intersects(records[k].bounds, records[m].bounds))
  }

  /** Ids are distinct and below the counter that hands them out. */
  predicate IdsIssued(records: seq<Record>, counter: int)
  {
    && (forall k :: 0 <= k < |records| ==> records[k].id < counter)
    && (forall k, m :: 0 <= k < m < |records| ==> records[k].id != records[m].id)
  }

  /** Bounds that pass the overlap check for record k (its own id ignored)
      and lie inside the workspace can replace record k's bounds without
      breaking Placed. */
  lemma ReplaceKeepsPlaced(records: seq<Record>, counter: int, k: nat, r: Record)
    requires Placed(records) && IdsIssued(records, counter) && k < |records|
    requires r.id == records[k].id
    requires IsWithinBoundary(r.bounds) && !IsOverlapping(records, r.bounds, Some(r.id))
    ensures Placed(records[k := r]) && IdsIssued(records[k := r], counter)
  {
    IsOverlappingMeaning(records, r.bounds, Some(r.id));
    var s := records[k := r];
    forall a, c | 0 <= a < |s| && 0 <= c < |s| && a != c
      ensures !Intersects(s[a].bounds, s[c].bounds)
    {
      if a == k {
        assert records[c].id != r.id;
      } else if c == k {
        assert records[a].id != r.id;
        IntersectsSymmetric(s[a].bounds, s[c].bounds);
      }
    }
  }

  /** The snapshot updateLastValid takes. */
  function SnapshotOf(r: Record): (s: Snapshot)
    ensures s.position == r.position && s.width == r.width && s.depth == r.depth && s.height == r.height
  {
    Snapshot(r.position, r.width, r.depth, r.height)
  }

  /** restoreLastValid followed by the bounds recomputation of
      validatePlacement's refusal path: the last accepted extents and
      position come back, the centre resting at half the height. */
  function Restored(r: Record): (q: Record)
    ensures q.id == r.id && q.lastValid == r.lastValid
    ensures q.bounds == ComputeBounds(q.position, q.width, q.depth, q.height)
    ensures r.lastValid.None? ==> q == r.(bounds := ComputeBounds(r.position, r.width, r.depth, r.height))
    ensures r.lastValid.Some? ==>
              && q.width == r.lastValid.value.width && q.depth == r.lastValid.value.depth
              && q.height == r.lastValid.value.height
              && q.position == r.lastValid.value.position.(y := r.lastValid.value.height / 2.0)
  {
    match r.lastValid
    case None => r.(bounds := ComputeBounds(r.position, r.width, r.depth, r.height))
    case Some(s) =>
      var p := s.position.(y := s.height / 2.0);
      r.(width := s.width, depth := s.depth, height := s.height, position := p,
         bounds := ComputeBounds(p, s.width, s.depth, s.height))
  }

  /** The first record with the given id. */
  function FindRecord(records: seq<Record>, id: int, k: nat): (r: Option<nat>)
    requires k <= |records|
    ensures r.Some? ==> k <= r.value < |records| && records[r.value].id == id
                        && forall m :: k <= m < r.value ==> records[m].id != id
    ensures r.None? ==> forall m :: k <= m < |records| ==> records[m].id != id
    decreases |records| - k
  {
    if k == |records| then None
    else if records[k].id == id then Some(k)
    else FindRecord(records, id, k + 1)
  }

  // ---------------------------------------------------------------------
  // The floor grid findAvailablePosition scans
  // ---------------------------------------------------------------------

  /** The grid spacing: the smaller footprint side, but at least 50. */
  function GridStep(width: real, depth: real): (s: real)
    ensures s >= 50.0 && (s == 50.0 || s == width || s == depth)
  {
    Max(50.0, Min(width, depth))
  }

  /** Grid point (i, j): column i from the west wall, row j from the north
      wall, the centre at half the height. */
  function GridPoint(width: real, depth: real, height: real, i: nat, j: nat): Vec3
  {
    Vec3(-(AreaSize / 2.0) + width / 2.0 + (i as real) * GridStep(width, depth),
         height / 2.0,
         -(AreaSize / 2.0) + depth / 2.0 + (j as real) * GridStep(width, depth))
  }

  /** Grid point (i, j) is one the scan visits. */
  predicate InGrid(width: real, depth: real, height: real, i: nat, j: nat)
  {
    && GridPoint(width, depth, height, i, j).x <= AreaSize / 2.0 - width / 2.0
    && GridPoint(width, depth, height, i, j).z <= AreaSize / 2.0 - depth / 2.0
  }

  /** Grid point (i, j) is outside the workspace or intersects a record. */
  predicate Taken(records: seq<Record>, width: real, depth: real, height: real, i: nat, j: nat)
  {
    !Free(records, ComputeBounds(GridPoint(width, depth, height, i, j), width, depth, height))
  }

  /** Every grid point the scan visits before (i, j) is taken: those of
      earlier columns, and those of column i in earlier rows. */
  ghost predicate TakenBefore(records: seq<Record>, width: real, depth: real, height: real, i: nat, j: nat)
  {
    forall i': nat, j': nat :: InGrid(width, depth, height, i', j') && (i' < i || (i' == i && j' < j)) ==>
      Taken(records, width, depth, height, i', j')
  }

  /** The number of whole steps that fit in `span`, for the termination of
      the grid scan. */
  lemma StepsFit(span: real, step: real, i: nat)
    requires step > 0.0 && (i as real) * step <= span
    ensures i <= (span / step).Floor
  {
    assert (i as real) <= span / step;
  }

  /** Once the scan's row position is past the south wall, no later row of
      that column is on the grid. */
  lemma RowsPastWall(width: real, depth: real, height: real, i: nat, j: nat)
    requires GridPoint(width, depth, height, i, j).z > AreaSize / 2.0 - depth / 2.0
    ensures forall j': nat :: j' >= j ==> !InGrid(width, depth, height, i, j')
  {
    forall j': nat | j' >= j
      ensures !InGrid(width, depth, height, i, j')
    {
      StepsGrow(j, j', GridStep(width, depth));
    }
  }

  /** Once the scan's column position is past the east wall, no later
      column is on the grid. */
  lemma ColumnsPastWall(width: real, depth: real, height: real, i: nat)
    requires GridPoint(width, depth, height, i, 0).x > AreaSize / 2.0 - width / 2.0
    ensures forall i': nat, j': nat :: i' >= i ==> !InGrid(width, depth, height, i', j')
  {
    forall i': nat, j': nat | i' >= i
      ensures !InGrid(width, depth, height, i', j')
    {
      StepsGrow(i, i', GridStep(width, depth));
      assert GridPoint(width, depth, height, i', j').x >= GridPoint(width, depth, height, i, 0).x;
    }
  }

  /** A column the scan enters is within the termination bound. */
  lemma ColumnFits(width: real, depth: real, height: real, i: nat)
    requires GridPoint(width, depth, height, i, 0).x <= AreaSize / 2.0 - width / 2.0
    ensures i <= ((AreaSize - width) / GridStep(width, depth)).Floor
  {
    StepsFit(AreaSize - width, GridStep(width, depth), i);
  }

  /** A row the scan enters is within the termination bound. */
  lemma RowFits(width: real, depth: real, height: real, i: nat, j: nat)
    requires GridPoint(width, depth, height, i, j).z <= AreaSize / 2.0 - depth / 2.0
    ensures j <= ((AreaSize - depth) / GridStep(width, depth)).Floor
  {
    StepsFit(AreaSize - depth, GridStep(width, depth), j);
  }

  /** `x += step` moves the scan to the next column. */
  lemma NextColumn(width: real, depth: real, height: real, i: nat)
    ensures GridPoint(width, depth, height, i + 1, 0).x
         == GridPoint(width, depth, height, i, 0).x + GridStep(width, depth)
  {
    assert ((i + 1) as real) * GridStep(width, depth) == (i as real) * GridStep(width, depth) + GridStep(width, depth);
  }

  /** `z += step` moves the scan to the next row. */
  lemma NextRow(width: real, depth: real, height: real, i: nat, j: nat)
    ensures GridPoint(width, depth, height, i, j + 1)
         == GridPoint(width, depth, height, i, j).(z := GridPoint(width, depth, height, i, j).z + GridStep(width, depth))
  {
    assert ((j + 1) as real) * GridStep(width, depth) == (j as real) * GridStep(width, depth) + GridStep(width, depth);
  }

  lemma StepsGrow(a: nat, b: nat, step: real)
    requires a <= b && step >= 0.0
    ensures (a as real) * step <= (b as real) * step
  {
  }

  // ---------------------------------------------------------------------
  // The editor
  // ---------------------------------------------------------------------

  class Editor {
    var records: seq<Record>
    var counter: int
    var selected: Option<nat>
    var dragState: Option<Drag>
    /** Every id the counter has handed out, including those of boxes
        deleted since. */
    ghost var issued: set<int>

    /** Accepted states: every box inside the workspace, no two boxes
        intersecting, ids distinct, issued and below the counter, the
        selection and the drag pointing into the list. */
    ghost predicate Valid()
      reads this
    {
      && Placed(records)
      && IdsIssued(records, counter)
      && (forall id :: id in issued ==> id < counter)
      && (forall k :: 0 <= k < |records| ==> records[k].id in issued)
      && (selected.Some? ==> selected.value < |records|)
      && (dragState.Some? ==> dragState.value.record < |records|)
    }

    /** The editor's start: no boxes, the id counter at 1. */
    constructor ()
      ensures Valid()
      ensures records == [] && counter == 1 && selected == None && dragState == None
      ensures issued == {}
    {
      records := [];
      counter := 1;
      issued := {};
      selected := None;
      dragState := None;
    }

    /** findAvailablePosition(width, depth, height): the first free grid
        point, column by column and row by row within a column, or None
        when every grid point is taken. */
    method FindAvailablePosition(width: real, depth: real, height: real) returns (pos: Option<Vec3>)
      ensures pos.Some? ==> pos.value.y == height / 2.0
      ensures pos.Some? ==> Free(records, ComputeBounds(pos.value, width, depth, height))
      ensures pos.Some? ==> exists i: nat, j: nat :: InGrid(width, depth, height, i, j)
                                                   && pos.value == GridPoint(width, depth, height, i, j)
                                                   && TakenBefore(records, width, depth, height, i, j)
      ensures pos.None? ==> forall i: nat, j: nat :: InGrid(width, depth, height, i, j) ==>
                              Taken(records, width, depth, height, i, j)
    {
      var halfSize := AreaSize / 2.0;
      var step := GridStep(width, depth);
      var minX := -halfSize + width / 2.0;
      var maxX := halfSize - width / 2.0;
      ghost var columns := ((AreaSize - width) / step).Floor;
      ghost var i: nat := 0;
      var x := minX;
      while x <= maxX
        invariant x == GridPoint(width, depth, height, i, 0).x
        invariant forall i': nat, j': nat :: i' < i && InGrid(width, depth, height, i', j') ==>
                    Taken(records, width, depth, height, i', j')
        decreases columns - i
      {
        ColumnFits(width, depth, height, i);
        var found := ScanColumn(width, depth, height, x, i);
        if found.Some? {
          ghost var j: nat :| && InGrid(width, depth, height, i, j)
                              && found.value == GridPoint(width, depth, height, i, j)
                              && forall j': nat :: j' < j && InGrid(width, depth, height, i, j') ==>
                                   Taken(records, width, depth, height, i, j');
          assert TakenBefore(records, width, depth, height, i, j);
          return found;
        }
        NextColumn(width, depth, height, i);
        x := x + step;
        i := i + 1;
      }
      ColumnsPastWall(width, depth, height, i);
      return None;
    }

    /** The inner loop of findAvailablePosition: column i of the grid, at
        position x, scanned row by row for the first free point. */
    method ScanColumn(width: real, depth: real, height: real, x: real, ghost i: nat) returns (pos: Option<Vec3>)
      requires x == GridPoint(width, depth, height, i, 0).x
      ensures pos.Some? ==> exists j: nat :: InGrid(width, depth, height, i, j)
                                          && pos.value == GridPoint(width, depth, height, i, j)
                                          && Free(records, ComputeBounds(pos.value, width, depth, height))
                                          && forall j': nat :: j' < j && InGrid(width, depth, height, i, j') ==>
                                               Taken(records, width, depth, height, i, j')
      ensures pos.None? ==> forall j: nat :: InGrid(width, depth, height, i, j) ==>
                              Taken(records, width, depth, height, i, j)
    {
      var step := GridStep(width, depth);
      var minZ := -(AreaSize / 2.0) + depth / 2.0;
      var maxZ := AreaSize / 2.0 - depth / 2.0;
      ghost var rows := ((AreaSize - depth) / step).Floor;
      ghost var j: nat := 0;
      var z := minZ;
      while z <= maxZ
        invariant Vec3(x, height / 2.0, z) == GridPoint(width, depth, height, i, j)
        invariant forall j': nat :: j' < j && InGrid(width, depth, height, i, j') ==>
                    Taken(records, width, depth, height, i, j')
        decreases rows - j
      {
        RowFits(width, depth, height, i, j);
        var candidate := Vec3(x, height / 2.0, z);
        var bounds := ComputeBounds(candidate, width, depth, height);
        if IsWithinBoundary(bounds) && !IsOverlapping(records, bounds, None) {
          return Some(candidate);
        }
        NextRow(width, depth, height, i, j);
        z := z + step;
        j := j + 1;
      }
      RowsPastWall(width, depth, height, i, j);
      return None;
    }

    /** addBox(width, depth, height) (300 each by default): when the grid
        has a free point the box goes to the first one, gets the next id,
        which no box ever had, becomes the last accepted placement and is
        selected; otherwise every grid point is taken and nothing changes.
        The index of the new record is returned. */
    method AddBox(width: real, depth: real, height: real) returns (added: Option<nat>)
      requires Valid()
      modifies this
      ensures Valid()
      ensures added.None? ==> records == old(records) && counter == old(counter) && selected == old(selected)
                              && issued == old(issued)
      ensures added.None? ==> forall i: nat, j: nat :: InGrid(width, depth, height, i, j) ==>
                                Taken(old(records), width, depth, height, i, j)
      ensures added.Some? ==>
                && added.value == |old(records)|
                && |records| == |old(records)| + 1 && records[..|old(records)|] == old(records)
                && records[added.value].id == old(counter) && counter == old(counter) + 1
                && records[added.value].width == width && records[added.value].depth == depth
                && records[added.value].height == height
                && records[added.value].position.y == height / 2.0
                && records[added.value].bounds
                   == ComputeBounds(records[added.value].position, width, depth, height)
                && records[added.value].lastValid == Some(SnapshotOf(records[added.value]))
                && selected == added
      ensures added.Some? ==> exists i: nat, j: nat :: && InGrid(width, depth, height, i, j)
                                                     && records[added.value].position == GridPoint(width, depth, height, i, j)
                                                     && TakenBefore(old(records), width, depth, height, i, j)
      ensures added.Some? ==> old(counter) !in old(issued) && issued == old(issued) + {old(counter)}
      ensures dragState == old(dragState)
    {
      var position := FindAvailablePosition(width, depth, height);
      if position.None? {
        return None;
      }
      var p := position.value;
      var b := ComputeBounds(p, width, depth, height);
      var r := Record(counter, width, depth, height, p, b, None);
      r := r.(lastValid := Some(SnapshotOf(r)));
      IsOverlappingMeaning(records, b, None);
      forall k | 0 <= k < |records|
        ensures !Intersects(records[k].bounds, b)
      {
        IntersectsSymmetric(records[k].bounds, b);
      }
      records := records + [r];
      issued := issued + {counter};
      counter := counter + 1;
      added := Some(|records| - 1);
      selected := added;
    }

    /** validatePlacement(record, candidateBounds), record being records[i]:
        the candidate bounds (the record's own when None) are accepted when
        inside the workspace and clear of every other record, and then
        become the record's bounds and last accepted placement; otherwise
        the last accepted placement is restored. */
    method ValidatePlacement(i: nat, candidate: Option<Bounds>) returns (ok: bool)
      requires i < |records|
      modifies this`records
      ensures var r := old(records)[i];
              var b := if candidate.Some? then candidate.value else r.bounds;
              && ok == (IsWithinBoundary(b) && !IsOverlapping(old(records), b, Some(r.id)))
              && records == old(records)[i := if ok then r.(bounds := b, lastValid := Some(SnapshotOf(r)))
                                              else Restored(r)]
    {
      var r := records[i];
      var bounds := if candidate.Some? then candidate.value else r.bounds;
      if !IsWithinBoundary(bounds) {
        records := records[i := Restored(r)];
        return false;
      }
      if IsOverlapping(records, bounds, Some(r.id)) {
        records := records[i := Restored(r)];
        return false;
      }
      records := records[i := r.(bounds := bounds, lastValid := Some(SnapshotOf(r)))];
      return true;
    }

    /** onPointerDown: `button` is the event's button (None when it has
        none), `hit` the index of the first box the ray hits and `point`
        where it meets the floor plane. A primary press on a box selects it
        and starts a drag; one on empty space clears the selection. */
    method OnPointerDown(button: Option<int>, hit: Option<nat>, point: Vec3)
      requires Valid()
      requires hit.Some? ==> hit.value < |records|
      modifies this`selected, this`dragState
      ensures Valid()
      ensures button.Some? && button.value != 0 ==>
                selected == old(selected) && dragState == old(dragState)
      ensures (button.None? || button.value == 0) && hit.None? ==>
                selected == None && dragState == old(dragState)
      ensures (button.None? || button.value == 0) && hit.Some? ==>
                var p := records[hit.value].position;
                && selected == hit
                && dragState == Some(Drag(hit.value, Vec3(point.x - p.x, point.y - 0.0, point.z - p.z), p))
    {
      if button.Some? && button.value != 0 {
        return;
      }
      if hit.Some? {
        var p := records[hit.value].position;
        selected := hit;
        dragState := Some(Drag(hit.value, Vec3(point.x - p.x, point.y - 0.0, point.z - p.z), p));
      } else {
        selected := None;
      }
    }

    /** onPointerMove: `point` is where the pointer ray meets the floor
        plane. The dragged box is asked to move so that the pick-up offset
        is kept, resting on the floor. A move out of the workspace or into
        another box is refused and the box goes back to its last accepted
        drag position; an accepted move updates its position, bounds and
        drag position. No drag: nothing happens. */
    method OnPointerMove(point: Vec3) returns (verdict: Option<Verdict>)
      requires Valid()
      modifies this`records, this`dragState
      ensures Valid()
      ensures old(dragState).None? ==> verdict.None? && records == old(records) && dragState == old(dragState)
      ensures old(dragState).Some? ==>
                var g := old(dragState).value;
                var r := old(records)[g.record];
                var target := Vec3(point.x - g.offset.x, r.height / 2.0, point.z - g.offset.z);
                var b := ComputeBounds(target, r.width, r.depth, r.height);
                && verdict == Some(if !IsWithinBoundary(b) then OutsideSpace
                                   else if IsOverlapping(old(records), b, Some(r.id)) then Overlaps
                                   else Accepted)
                && (verdict == Some(Accepted) ==>
                      records == old(records)[g.record := r.(position := target, bounds := b)]
                      && dragState == Some(g.(previousPosition := target)))
                && (verdict != Some(Accepted) ==>
                      records == old(records)[g.record := r.(position := g.previousPosition)]
                      && dragState == old(dragState))
    {
      if dragState.None? {
        return None;
      }
      var g := dragState.value;
      var r := records[g.record];
      var target := Vec3(point.x - g.offset.x, r.height / 2.0, point.z - g.offset.z);
      var bounds := ComputeBounds(target, r.width, r.depth, r.height);
      if !IsWithinBoundary(bounds) {
        records := records[g.record := r.(position := g.previousPosition)];
        return Some(OutsideSpace);
      }
      if IsOverlapping(records, bounds, Some(r.id)) {
        records := records[g.record := r.(position := g.previousPosition)];
        return Some(Overlaps);
      }
      ReplaceKeepsPlaced(records, counter, g.record, r.(position := target, bounds := bounds));
      records := records[g.record := r.(position := target, bounds := bounds)];
      dragState := Some(g.(previousPosition := target));
      return Some(Accepted);
    }

    /** onPointerUp: the dragged box's placement is validated (in an
        accepted state it always passes, and only its last accepted
        placement is updated), and the drag ends. */
    method OnPointerUp()
      requires Valid()
      modifies this`records, this`dragState
      ensures Valid()
      ensures dragState.None?
      ensures old(dragState).None? ==> records == old(records)
      ensures old(dragState).Some? ==>
                var k := old(dragState).value.record;
                records == old(records)[k := old(records)[k].(lastValid := Some(SnapshotOf(old(records)[k])))]
    {
      if dragState.Some? {
        var k := dragState.value.record;
        IsOverlappingMeaning(records, records[k].bounds, Some(records[k].id));
        var valid := ValidatePlacement(k, None);
        assert valid;
      }
      dragState := None;
    }

    /** handleDimensionChange: `width`, `depth` and `height` are the numbers
        entered, None when one is not finite (the current extent is kept).
        Each is raised to at least MinDimension; the box keeps its footprint
        centre and rests on the floor. A result outside the workspace or
        into another box is refused and nothing changes. No selection:
        nothing happens. */
    method HandleDimensionChange(width: Option<real>, depth: Option<real>, height: Option<real>)
      returns (verdict: Option<Verdict>)
      requires Valid()
      modifies this`records
      ensures Valid()
      ensures old(selected).None? ==> verdict.None? && records == old(records)
      ensures old(selected).Some? ==>
                var k := old(selected).value;
                var r := old(records)[k];
                var w := Max(MinDimension, if width.Some? then width.value else r.width);
                var d := Max(MinDimension, if depth.Some? then depth.value else r.depth);
                var h := Max(MinDimension, if height.Some? then height.value else r.height);
                var p := r.position.(y := h / 2.0);
                var b := ComputeBounds(p, w, d, h);
                && verdict == Some(if !IsWithinBoundary(b) then OutsideSpace
                                   else if IsOverlapping(old(records), b, Some(r.id)) then Overlaps
                                   else Accepted)
                && (verdict == Some(Accepted) ==>
                      records == old(records)[k := r.(width := w, depth := d, height := h, position := p, bounds := b,
                                                      lastValid := Some(Snapshot(p, w, d, h)))])
                && (verdict != Some(Accepted) ==> records == old(records))
    {
      if selected.None? {
        return None;
      }
      var k := selected.value;
      var r := records[k];
      var w := if width.Some? then width.value else r.width;
      var d := if depth.Some? then depth.value else r.depth;
      var h := if height.Some? then height.value else r.height;
      w := Max(MinDimension, w);
      d := Max(MinDimension, d);
      h := Max(MinDimension, h);
      var p := r.position.(y := h / 2.0);
      var candidateBounds := ComputeBounds(p, w, d, h);
      if !IsWithinBoundary(candidateBounds) {
        return Some(OutsideSpace);
      }
      if IsOverlapping(records, candidateBounds, Some(r.id)) {
        return Some(Overlaps);
      }
      var resized := r.(width := w, depth := d, height := h, position := p, bounds := candidateBounds,
                        lastValid := Some(Snapshot(p, w, d, h)));
      ReplaceKeepsPlaced(records, counter, k, resized);
      records := records[k := resized];
      return Some(Accepted);
    }

    /** deleteSelectedBox: the selected record is removed (found by its id)
        and the selection cleared. A drag of the removed box ends; a drag of
        another box follows it to its new index. */
    method DeleteSelectedBox()
      requires Valid()
      modifies this`records, this`selected, this`dragState
      ensures Valid()
      ensures old(selected).None? ==>
                records == old(records) && selected == old(selected) && dragState == old(dragState)
      ensures old(selected).Some? ==>
                && records == old(records)[..old(selected).value] + old(records)[old(selected).value + 1..]
                && selected.None?
                && dragState == DragAfterRemoval(old(dragState), old(selected).value)
    {
      if selected.None? {
        return;
      }
      var k := selected.value;
      FindOwnId(records, counter, k);
      var index := FindRecord(records, records[k].id, 0);
      if index.Some? {
        RemoveKeepsPlaced(records, counter, k);
        records := records[..index.value] + records[index.value + 1..];
        dragState := DragAfterRemoval(dragState, k);
      }
      selected := None;
    }
  }

  /** A drag after record k is spliced out: a drag of record k ends, a drag
      of a later record follows it down one place, any other is kept. */
  function DragAfterRemoval(g: Option<Drag>, k: nat): (r: Option<Drag>)
    ensures g.None? ==> r.None?
    ensures g.Some? && g.value.record == k ==> r.None?
    ensures g.Some? && g.value.record < k ==> r == g
    ensures g.Some? && g.value.record > k ==> r == Some(g.value.(record := g.value.record - 1))
  {
    match g
    case None => None
    case Some(d) =>
      if d.record == k then None
      else if d.record > k then Some(d.(record := d.record - 1))
      else g
  }

  /** With distinct ids, looking a record's own id up finds that record. */
  lemma FindOwnId(records: seq<Record>, counter: int, k: nat)
    requires IdsIssued(records, counter) && k < |records|
    ensures FindRecord(records, records[k].id, 0) == Some(k)
  {
  }

  /** Removing a record keeps the others inside, disjoint and with
      distinct ids below the counter. */
  lemma RemoveKeepsPlaced(records: seq<Record>, counter: int, k: nat)
    requires Placed(records) && IdsIssued(records, counter) && k < |records|
    ensures Placed(records[..k] + records[k + 1..]) && IdsIssued(records[..k] + records[k + 1..], counter)
  {
    var r := records[..k] + records[k + 1..];
    assert forall m :: 0 <= m < |r| ==> r[m] == records[if m < k then m else m + 1];
  }
}
