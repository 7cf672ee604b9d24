# BoxLayout3D in Dafny

BoxLayout3D is a browser editor for laying out rectangular boxes in a
1000 × 3000 × 1000 mm workspace (width × height × depth). This project
models the editor's core logic and proves what it promises. It covers three
parts.

* **The stacking editor** (`js/boxes.js`, `js/interactions.js`, `js/snap.js`,
  and the standalone duplicate `app.js`):
  * A new, resized or dragged box snaps onto the highest box whose footprint
    it overlaps, or onto the floor, and never rises past the ceiling.
  * After every change, `resolveStacks` lets every box settle onto what is
    below it, for at most ten passes in ascending height order.
  * Layouts are exported and imported as plain data.
* **The rejection editor** (`src/main.js`):
  * Boxes never leave the workspace and never intersect.
  * A move or resize that would break this is refused, and the box goes
    back to its last accepted placement.
  * New boxes go on the first free point of a floor grid.
* **The local WebSocket hub** (`js/setup.js`):
  * Server ids are sanitised and normalised.
  * A registry maps ids to in-page servers.
  * A local server has a start/stop life cycle and numbers its
    connections from 1.

## Layout

| file | module | contents |
|---|---|---|
| `wrappers.dfy` | `Wrappers` | `Option`, `Result` |
| `geometry.dfy` | `BoxGeometry` | boxes, sizes, positions, `Clamp`, the footprint overlap test |
| `snap.dfy` | `Snap` | specification functions of `findBestSnapPosition`, `computeDraggedY`, the height-ordered sort and `resolveStacks`, with their laws |
| `scene.dfy` | `Scene` | layout import/export, one step function per editor operation, and the class `Scene` whose methods update the box list in place and are proved equal to those step functions |
| `scene_laws.dfy` | `SceneLaws` | what each editor operation guarantees, stated on the step functions |
| `placement.dfy` | `Placement` | the rejection editor: bounds, collision queries, the floor-grid search, and the class `Editor` |
| `server_id.dfy` | `ServerId` | `sanitizeServerId`, the hub's `normalize`, `extractLocalServerId` |
| `local_hub.dfy` | `Hub` | the classes `LocalHub` and `LocalServer` |

### Modelling choices

* **Box references.** The JavaScript keeps object references: the
  selected box and the drag target. The model keeps list indices instead.
  * An index is shifted down when an earlier box is spliced out.
  * It becomes `None` when its box leaves the list. The JavaScript would
    keep a detached object, which no longer affects the list.
* **Numbers and units.** Numbers are mathematical reals; NaN and infinities
  are not modelled. `Math.min`, `Math.max` and `THREE.MathUtils.clamp` are
  written out. When the clamp bounds cross, the result is the lower bound,
  as in three.js.
* **The snap tie rule.** `findBestSnapPosition` accepts a candidate when it
  is above `bestY - 1e-6`, so it is not a plain maximum: a near-tie may
  lower `bestY` by less than 1e-6. The model keeps that rule exactly. It
  proves that the result is the floor or some supporting candidate, and
  that no candidate exceeds it by more than `n·1e-6` for `n` boxes.
* **The height-ordered sort.** `resolveStacks` sorts a copy of the list by
  height (`Array.prototype.sort`, which is stable). The model uses a stable
  insertion sort over indices, proved sorted, stable and a permutation.
* **Pass order.** Each pass updates boxes one at a time, in sorted order,
  against the list as already updated.
* **Inputs the browser supplies.** The following become parameters:
  * the random size of `addBox`;
  * the raycast hit of `tryStartDrag` / `onPointerDown`;
  * the floor point of `dragMove` / `onPointerMove`;
  * the numbers typed into the size fields.
* **The two `addBox` revisions.** `js/boxes.js` starts the new box at
  `y = h/2` and `app.js` at `y = 0`. Both then snap it in full mode. Full
  mode ignores the box's own height, so both give the same state
  (`AddBoxRevisionsAgree`).

## Model

| member | source | states |
|---|---|---|
| `BoxGeometry.Box.WithY` | js/snap.js:75 | moving a box vertically changes only its `y` |
| `BoxGeometry.Clamp` | js/interactions.js:84-85 | the result lies between the bounds when they are ordered; a value already in range is kept; crossed bounds give the lower bound |
| `BoxGeometry.IntervalsOverlap` | js/snap.js:60-61 | definition: two open intervals share a point exactly when each starts before the other ends (strict comparisons); properties in `BoxGeometry.TouchingFootprintsDoNotOverlap` |
| `BoxGeometry.OverlapXZ` | js/snap.js:51-63 | definition: the footprints overlap on both the x and the z axis; properties in `BoxGeometry.OverlapXZSymmetric`, `OverlapXZReflexive`, `OverlapXZIgnoresHeight` |
| `BoxGeometry.OverlapXZSymmetric` | js/snap.js:51-63 | the footprint overlap test is symmetric |
| `BoxGeometry.TouchingFootprintsDoNotOverlap` | js/snap.js:60-61 | boxes that only share a side face do not overlap (the comparisons are strict) |
| `BoxGeometry.OverlapXZIgnoresHeight` | js/snap.js:51-63 | the overlap test depends on the footprints only, not on heights |
| `BoxGeometry.OverlapXZReflexive` | js/snap.js:51-63 | a box with positive width and depth overlaps itself |
| `Snap.FloorY` | js/snap.js:4 | definition: the centre height of the box resting on the floor, half its height |
| `Snap.Candidate` | js/snap.js:13 | definition: the centre height of box i resting on top of box j |
| `Snap.Contributes` | js/snap.js:6-12 | definition: box j counts for box i when it is another box, its footprint overlaps, and, in below-only mode, its top is at most 1e-6 above box i's bottom; properties in `Snap.BestUpToIsNearMax` |
| `Snap.SnapStep` | js/snap.js:12-15 | definition: one turn of the loop, taking box j's candidate when it contributes and exceeds the running best less 1e-6; properties in `Snap.BestUpToSingleSupport` |
| `Snap.BestUpTo` | js/snap.js:4-16 | definition: the running best after the first k boxes, starting from the floor; properties in `Snap.BestUpToIsNearMax`, `BestUpToIgnoresOwnY`, `BestUpToIgnoresBoxAbove` |
| `Snap.BestUpToIsNearMax` | js/snap.js:4-16 | the running best is the floor or a contributing candidate, and no contributing candidate exceeds it by more than 1e-6 per box visited |
| `Snap.SnapY` | js/snap.js:3-19 | the snapped centre never puts the box's top above the ceiling |
| `Snap.SnapYIsNearHighestSupport` | js/snap.js:3-19 | the snapped centre is the floor rest or a contributing box's top plus half the height, each capped by the ceiling; neither the floor rest nor any contributing candidate exceeds it by more than n·1e-6 for n boxes |
| `Snap.SnapFloorRest` | js/snap.js:4 | a box whose footprint overlaps nothing rests on the floor, capped by the ceiling |
| `Snap.BestUpToIgnoresOwnY` | js/snap.js:12-14 | in full mode the running best does not depend on the box's own height |
| `Snap.SnapFullModeIgnoresOwnY` | js/snap.js:3-19 | in full mode the snapped position does not depend on where the box was |
| `Snap.BestUpToIgnoresBoxAbove` | js/snap.js:7-11 | in below-only mode, replacing a box whose top is above our bottom by another such box leaves the running best unchanged |
| `Snap.SnapBelowOnlyIgnoresBoxAbove` | js/snap.js:7-11 | in below-only mode boxes above the bottom of the box are skipped |
| `Snap.SnapOnSingleSupport` | js/snap.js:12-17 | over exactly one overlapping box, the box sits on that box's top, capped by the ceiling |
| `Snap.BestUpToSingleSupport` | js/snap.js:12-15 | with a single overlapping box, the running best is the floor until that box is visited and its candidate afterwards |
| `Snap.VerticalConflict` | js/snap.js:37-40 | definition: box i, centred at prevY, reaches more than 1e-3 below box j's top and more than 1e-3 above box j's bottom; properties in `Snap.PushUpToIsHighestConflict` |
| `Snap.Beneath` | js/snap.js:42-44 | definition: box j's top is at most 1e-3 above box i's bottom at prevY; properties in `Snap.BaseUpToIsHighestBeneath` |
| `Snap.BaseUpTo` | js/snap.js:27-44 | the base height is never negative |
| `Snap.PushUpTo` | js/snap.js:28-40 | the push-up height is never negative |
| `Snap.BaseUpToIsHighestBeneath` | js/snap.js:42-44 | the base is the highest top among overlapping boxes at or below the bottom (within 1e-3), or 0 |
| `Snap.PushUpToIsHighestConflict` | js/snap.js:37-40 | the push-up is the highest top among overlapping boxes that vertically interpenetrate, or 0 |
| `Snap.DraggedY` | js/snap.js:21-49 | the dragged centre never puts the top above the ceiling |
| `Snap.DraggedYIsHighestSupportOrObstruction` | js/snap.js:21-49 | the dragged centre is at least the floor rest and at least on every overlapping box beneath it or in its way (capped by the ceiling), and it equals one of those heights |
| `Snap.DragKeepsHeightWithoutConflict` | js/snap.js:37-48 | a box already resting on its base, with nothing in the way, keeps its height while dragged |
| `Snap.DragNeverLiftsWithoutConflict` | js/snap.js:37-48 | without a vertical conflict a drag never lifts a box (up to 1e-3) |
| `Snap.Ys` | js/snap.js:70 | the heights read off the list, one per box |
| `Snap.InsertByY` | js/snap.js:70 | inserting one more index lengthens the order by one |
| `Snap.InsertByYElements` | js/snap.js:70 | insertion adds exactly the new index and keeps indices in range |
| `Snap.PrependSorted` | js/snap.js:70 | an index no higher than the rest, and before those of equal height, keeps the order sorted and stable |
| `Snap.InsertByYSorted` | js/snap.js:70 | insertion keeps the order sorted by height and stable on ties |
| `Snap.OrderByYUpTo` | js/snap.js:70 | the order of the first n boxes holds exactly the indices 0..n-1 |
| `Snap.OrderByYUpToSorted` | js/snap.js:70 | that order is ascending by height, with equal heights in list order |
| `Snap.OrderByY` | js/snap.js:70 | the sorted order has one in-range index per box |
| `Snap.OrderByYIsStableSort` | js/snap.js:70 | the sort is a permutation of all indices, ascending in height, equal heights in list order |
| `Snap.PassStep` | js/snap.js:71-79 | visiting one box keeps the list length |
| `Snap.PassUpTo` | js/snap.js:71-80 | a partial pass keeps the list length |
| `Snap.Pass` | js/snap.js:69-80 | a pass keeps the list length |
| `Snap.SameButYTransitive` | js/snap.js:75 | "same boxes, only heights changed" composes |
| `Snap.PassUpToFrame` | js/snap.js:71-80 | a pass changes only heights, never the excluded box, and keeps boxes under the ceiling |
| `Snap.PassUpToUnchanged` | js/snap.js:74-77 | a pass that reports no change left the list as it was, and every visited box was within 1e-3 of its snapped height |
| `Snap.PassUpToOnStable` | js/snap.js:71-80 | a pass over a settled list changes nothing |
| `Snap.PassFixedPoint` | js/snap.js:66-80 | a pass reporting no change means the list is settled, and a settled list is a fixed point |
| `Snap.Stabilise` | js/snap.js:65-82 | settling keeps every box: the list keeps its length |
| `Snap.StabilisePassCount` | js/snap.js:66-68 | resolveStacks runs between 1 and 10 passes |
| `Snap.StabiliseFrame` | js/snap.js:65-82 | resolveStacks changes only heights, never the excluded box, and keeps boxes under the ceiling |
| `Snap.StabiliseConverged` | js/snap.js:66-69 | when the loop stops because nothing changed, every box sits within 1e-3 of its snapped height |
| `Snap.StabiliseOnStable` | js/snap.js:66-80 | on a settled list resolveStacks changes nothing and stops after one pass |
| `Snap.ResolveTwiceIsNoOp` | js/snap.js:65-82 | a converged resolveStacks is idempotent |
| `Scene.MaxId` | js/boxes.js:4 | the largest id is at least every id and is one of them |
| `Scene.NextId` | js/boxes.js:4 | the new id is 0 for an empty list, otherwise one more than an existing id and above every id |
| `Scene.FindFrom` | js/boxes.js:85 | findIndex from position k: the first index with the id, or none from k on |
| `Scene.FindById` | js/boxes.js:77-82 | find by id: an index holding the id, or no box has it |
| `Scene.Removed` | js/boxes.js:100 | splice(idx, 1): the boxes before idx stay, the later ones shift down by one |
| `Scene.Reindexed` | js/boxes.js:88-100 | a box reference after the splice: dropped if it was the removed box, shifted if it was later, kept if earlier |
| `Scene.SanitizedDim` | js/boxes.js:22-26 | a dimension is at least 1; a missing or smaller value becomes 1 |
| `Scene.OrDefault` | js/boxes.js:244-251 | the `or` default of the import: a missing or zero value takes the default, any other value is kept |
| `Scene.BoxFromData` | js/boxes.js:21-57 | createBoxFromData sanitises the size and defaults x, z to 0 and y to half the height |
| `Scene.ImportedBox` | js/boxes.js:240-254 | an imported entry: id, or its index when missing; size defaults 200, clamped to at least 1; position defaults |
| `Scene.ImportedBoxes` | js/boxes.js:239-257 | every entry is imported in order with its index |
| `Scene.ExportLayout` | js/boxes.js:170-181 | the export is version 1 with the space size and one entry per box carrying its id, size and position |
| `Scene.Parsed` | js/boxes.js:233-234 | the exported data read back has a box array of the same length |
| `Scene.ImportOfExport` | js/boxes.js:233-257 | importing an export gives back the same boxes, except that a box at height 0 is re-seated at half its height |
| `Scene.ImportOfExportThenStabilise` | js/boxes.js:233-259 | export, import and settling give the same boxes with only heights changed |
| `Scene.StabiliseAfterPass` | js/snap.js:66-81 | one turn of the resolveStacks loop: after a pass that moved something the rest of the loop still delivers the same result, and a pass that moved nothing ends it with that result |
| `Scene.ResolveStacksProperties` | js/snap.js:65-82 | resolveStacks: only heights change, the excluded box stays, boxes stay under the ceiling, 1 to 10 passes, settled when converged, no-op on a settled list |
| `Scene.SameButYKeepsSized` | js/snap.js:75 | changing heights keeps every size at least 1 |
| `Scene.DeleteStepWellFormed` | js/boxes.js:84-105 | deleting keeps every size at least 1 and the selection and drag target inside the shorter list |
| `Scene.Scene.constructor` | js/App.js:6-12 | the editor starts with the default space, no boxes, no selection and no drag |
| `Scene.Scene.FindBestSnapPosition` | js/snap.js:3-19 | the loop computes the snap specification and the top stays under the ceiling |
| `Scene.Scene.ComputeDraggedY` | js/snap.js:21-49 | the loop computes the drag-height specification and the top stays under the ceiling |
| `Scene.Scene.ResolvePass` | js/snap.js:69-80 | one sweep in sorted order updates the list as the pass specification says and reports whether anything moved |
| `Scene.Scene.ResolveStacksWithin` | js/snap.js:66-81 | the `changed && guard++ < limit` loop delivers the stabiliser's list, pass count and convergence flag for that bound |
| `Scene.Scene.ResolveStacks` | js/snap.js:65-82 | the guarded loop is the ten-pass settling and changes only heights |
| `Scene.Scene.CreateBoxFromData` | js/boxes.js:21-57 | the sanitised box is appended and its index returned |
| `Scene.Scene.SelectBox` | js/boxes.js:77-82 | the selection becomes the box with the id, or none |
| `Scene.Scene.AddBox` | js/boxes.js:3-19 | the state becomes the add-box step with the box started at half its height |
| `Scene.Scene.AddBoxStandalone` | app.js:125-154 | the state becomes the add-box step with the box started at height 0 |
| `Scene.Scene.DeleteBox` | js/boxes.js:84-105 | the state becomes the delete step |
| `Scene.Scene.UpdateBoxSize` | js/boxes.js:107-123 | the state becomes the resize step |
| `Scene.Scene.ClearBoxes` | js/boxes.js:265-293 | the box list and the selection are emptied |
| `Scene.Scene.ApplyLayoutData` | js/boxes.js:233-263 | a layout without a box array is refused and nothing changes; otherwise the state becomes the import step |
| `Scene.Scene.TryStartDrag` | js/interactions.js:57-74 | the state becomes the start-drag step |
| `Scene.Scene.DragMove` | js/interactions.js:76-95 | the state becomes the drag-move step |
| `Scene.Scene.EndDrag` | js/interactions.js:97-99 | the drag is marked inactive |
| `Scene.Scene.Valid` | js/App.js:10-12 | definition: the scene state is well formed (every box at least 1 on each side, selection and drag target inside the list); established by the constructor and kept by every method |
| `Scene.AddedBoxes` | js/boxes.js:3-19 | definition: the list after addBox, the new box appended at (0, y0, 0) with the next id and lifted to its full-mode snap; properties in `SceneLaws.AddBoxProperties` |
| `Scene.AddBoxStep` | js/boxes.js:3-19 | definition: addBox on the scene state, the new box selected by its id; properties in `SceneLaws.AddBoxProperties`, `AddBoxRevisionsAgree` |
| `Scene.DeleteStep` | js/boxes.js:84-105 | definition: deleteBox on the scene state; properties in `SceneLaws.DeleteBoxProperties`, `Scene.DeleteStepWellFormed` |
| `Scene.ResizeStep` | js/boxes.js:107-123 | definition: updateBoxSize on the scene state; properties in `SceneLaws.ResizeProperties`, `ResizeNothingIsNoOp` |
| `Scene.ClearStep` | js/boxes.js:265-293 | definition: clearBoxes on the scene state; properties in `SceneLaws.ClearProperties` |
| `Scene.ImportStep` | js/boxes.js:233-263 | definition: applyLayoutData on the scene state, an error for data without a box array; properties in `SceneLaws.ImportProperties`, `SaveThenLoadRoundTrip` |
| `Scene.StartDragStep` | js/interactions.js:57-74 | definition: tryStartDrag on the scene state; properties in `SceneLaws.StartDragProperties` |
| `Scene.DragX` | js/interactions.js:83 | definition: the pointer x less the grab offset, clamped so that the footprint stays between the side walls; properties in `SceneLaws.DragStaysInside` |
| `Scene.DragZ` | js/interactions.js:84 | definition: the pointer z less the grab offset, clamped so that the footprint stays between the front and back walls; properties in `SceneLaws.DragStaysInside` |
| `Scene.DragMoveStep` | js/interactions.js:76-95 | definition: dragMove on the scene state; properties in `SceneLaws.DragMoveProperties`, `PickUpWithoutMovingKeepsFootprint` |
| `Scene.EndDragStep` | js/interactions.js:97-99 | definition: endDrag on the scene state; properties in `SceneLaws.EndDragProperties` |
| `SceneLaws.AddBoxProperties` | js/boxes.js:3-19 | addBox appends a fresh id (one above the largest), keeps the other boxes, centres the footprint at the origin, sets the height to the full-mode snap of the new box among the others, keeps the top under the ceiling and selects the new box |
| `SceneLaws.AddBoxRevisionsAgree` | app.js:144-149 | the starting height of the new box makes no difference |
| `SceneLaws.DeleteBoxProperties` | js/boxes.js:84-105 | an unknown id changes nothing; otherwise the box is removed and only heights of the rest change; the selection is dropped exactly when it was the deleted box; the drag target follows its box |
| `SceneLaws.ResizeProperties` | js/boxes.js:107-123 | the resized box gets the sizes raised to at least 1, keeps id and footprint centre, sits at the full-mode snap height of the resized box and stays under the ceiling (stabilising never moves it); the other boxes change only height; selection and drag are kept |
| `SceneLaws.ResizeNothingIsNoOp` | js/boxes.js:108 | resizing no box changes nothing |
| `SceneLaws.ImportProperties` | js/boxes.js:233-263 | import fails exactly when the data has no box array; otherwise the boxes are the imported entries with only heights changed, and selection and drag target are cleared |
| `SceneLaws.SaveThenLoadRoundTrip` | js/boxes.js:170-263 | loading a saved layout succeeds and gives back the same boxes up to heights |
| `SceneLaws.StartDragProperties` | js/interactions.js:57-74 | a miss clears the selection and nothing else; a hit activates a drag of the hit box and selects the first box with its id; boxes never move |
| `SceneLaws.DragMoveProperties` | js/interactions.js:76-95 | the target keeps id and size, moves to the clamped footprint position at the drag-mode snap height of the moved box (stabilising never moves it) and stays under the ceiling; other boxes change only height; selection and drag are kept |
| `SceneLaws.DragStaysInside` | js/interactions.js:82-85 | a box that fits the workspace is clamped inside its walls |
| `SceneLaws.PickUpWithoutMovingKeepsFootprint` | js/interactions.js:69-88 | dragging to the point where the box was picked up keeps its footprint centre |
| `SceneLaws.EndDragProperties` | js/interactions.js:97-99 | endDrag only deactivates the drag |
| `SceneLaws.ClearProperties` | js/boxes.js:265-293 | clearing leaves no boxes and no selection |
| `Placement.ComputeBounds` | src/main.js:94-103 | the bounds have the box's extents and are centred on the position |
| `Placement.WithinBoundaryOfCentredBox` | src/main.js:105-115 | a box is inside exactly when its centre is at least half its extents from every wall and it does not rise through the ceiling |
| `Placement.IsWithinBoundary` | src/main.js:105-115 | definition: the bounds lie inside the square floor area and between the floor and the area height; properties in `Placement.WithinBoundaryOfCentredBox` |
| `Placement.Intersects` | src/main.js:117-126 | definition: two bounds intersect unless they are separated, or only touch, along some axis; properties in `Placement.IntersectsSymmetric`, `SharedFaceDoesNotIntersect`, `IntersectsItself` |
| `Placement.OverlapsFrom` | src/main.js:128-133 | definition: the scan of `boxes.some` from record k on, skipping the ignored id; properties in `Placement.OverlapsFromMeaning` |
| `Placement.IsOverlapping` | src/main.js:128-133 | definition: the scan from the first record; properties in `Placement.IsOverlappingMeaning` |
| `Placement.IntersectsSymmetric` | src/main.js:117-126 | intersection is symmetric |
| `Placement.SharedFaceDoesNotIntersect` | src/main.js:117-126 | boxes sharing a face do not intersect (the comparisons are strict) |
| `Placement.IntersectsItself` | src/main.js:117-126 | a box of positive volume intersects itself |
| `Placement.OverlapsFromMeaning` | src/main.js:128-133 | the scan from k finds an intersecting record, other than the ignored id, exactly when one exists |
| `Placement.IsOverlappingMeaning` | src/main.js:128-133 | isOverlapping holds exactly when some record other than the ignored id intersects the bounds |
| `Placement.ReplaceKeepsPlaced` | src/main.js:162-179 | bounds that pass both checks can replace a record's bounds without breaking "inside and disjoint" |
| `Placement.SnapshotOf` | src/main.js:146-153 | the snapshot records position and extents |
| `Placement.Restored` | src/main.js:155-160 | restoring brings back the last accepted extents and position, resting at half the height, with bounds recomputed |
| `Placement.FindRecord` | src/main.js:434 | findIndex by id: the first record with the id, or none |
| `Placement.GridStep` | src/main.js:280 | the grid step is the smaller footprint side, but at least 50 |
| `Placement.Editor.constructor` | src/main.js:77-78 | no boxes, id counter at 1, no id issued yet |
| `Placement.Editor.Valid` | src/main.js:162-180 | definition of the editor invariant that validatePlacement and addBox keep: every record inside the area, no two intersecting, ids distinct, issued and below the counter, selection and drag inside the list; established by the constructor and kept by every method |
| `Placement.Editor.FindAvailablePosition` | src/main.js:278-296 | a found point is the first grid point in column-then-row order whose box is inside and clear: a grid point at half the height, every earlier grid point taken; none found means every grid point is taken |
| `Placement.Editor.ScanColumn` | src/main.js:287-294 | one column of the scan: a found point is the first grid point of the column whose box is clear, every earlier row of the column being taken; none found means every grid point of the column is taken |
| `Placement.NextColumn` | src/main.js:286 | `x += step` moves the scan to the next grid column |
| `Placement.NextRow` | src/main.js:287 | `z += step` moves the scan to the next grid row of the column |
| `Placement.ColumnsPastWall` | src/main.js:286 | once `x` is past `maxX`, no later column is on the grid |
| `Placement.RowsPastWall` | src/main.js:287 | once `z` is past `maxZ`, no later row of the column is on the grid |
| `Placement.Editor.AddBox` | src/main.js:240-276 | with no free point every grid point is taken and nothing changes; otherwise a record with the counter's id, never issued before, is appended at the first free grid point, recorded as last valid and selected, and the id joins the issued ones; the workspace stays inside and disjoint |
| `Placement.Editor.ValidatePlacement` | src/main.js:162-180 | accepts exactly bounds inside the workspace and clear of the other records; acceptance stores them as last valid, refusal restores the last valid placement |
| `Placement.Editor.OnPointerDown` | src/main.js:320-341 | non-primary buttons are ignored; a miss clears the selection; a hit selects the record and starts a drag with the floor offset and the current position |
| `Placement.Editor.OnPointerMove` | src/main.js:343-367 | without a drag nothing happens; a target outside or overlapping is refused and the box goes back to the previous position; otherwise it moves and the previous position follows |
| `Placement.Editor.OnPointerUp` | src/main.js:369-379 | the drag ends and the dragged record's placement is recorded as last valid |
| `Placement.Editor.HandleDimensionChange` | src/main.js:391-428 | without a selection nothing happens; sizes are raised to at least 10 and the box re-seated at half its height; a resize outside or overlapping is refused and changes nothing; otherwise it is applied and recorded as last valid |
| `Placement.Editor.DeleteSelectedBox` | src/main.js:430-441 | the selected record is removed and the selection cleared; without a selection nothing changes |
| `Placement.FindOwnId` | src/main.js:435 | with distinct ids, `findIndex` on a record's own id finds that record |
| `Placement.RemoveKeepsPlaced` | src/main.js:436-438 | splicing a record out keeps the others inside the workspace, clear of each other, with distinct ids below the counter |
| `Placement.DragAfterRemoval` | src/main.js:430-441 | a drag of the removed record ends; a drag of a later record follows it down one place; any other drag is kept |
| `ServerId.Trim` | js/setup.js:97 | definition: String.prototype.trim, white space removed at both ends; properties in `ServerId.TrimBlank`, `TrimKeepsClean` |
| `ServerId.TrimStart` | js/setup.js:97 | leading JavaScript white space is dropped, and only that |
| `ServerId.TrimEnd` | js/setup.js:97 | trailing JavaScript white space is dropped, and only that |
| `ServerId.ReplaceInvalid` | js/setup.js:99 | every character outside `a-zA-Z0-9-_` becomes `-` |
| `ServerId.CollapseDashes` | js/setup.js:100 | runs of `-` become one: no `--` remains, the characters other than `-` are kept in order, and a `-` remains exactly when there was one |
| `ServerId.CollapseIgnoresDoubledDash` | js/setup.js:100 | doubling a `-` anywhere leaves the collapsed result unchanged |
| `ServerId.StripLeading` | js/setup.js:101 | leading `-` and `_` are dropped, and only those |
| `ServerId.StripTrailing` | js/setup.js:101 | trailing `-` and `_` are dropped, and only those |
| `ServerId.AsciiLower` | js/setup.js:102 | every letter is lower-cased, nothing else changes |
| `ServerId.ReplaceThenCollapse` | js/setup.js:99-100 | after replacing and collapsing, only id characters remain and no `--` |
| `ServerId.StripEnds` | js/setup.js:101 | stripping leaves a string without `-`/`_` at either end and without `--` |
| `ServerId.LowerIsClean` | js/setup.js:102 | lower-casing such a string gives a clean id |
| `ServerId.SanitizeServerId` | js/setup.js:96-103 | definition: the sanitiser, the empty id for a blank value and otherwise the stages in order; properties in `ServerId.SanitizedIsClean`, `BlankGivesEmpty`, `SanitizeIdempotent`, `SanitizeKeepsCleanIds` |
| `ServerId.SanitizedIsClean` | js/setup.js:96-103 | every sanitised id uses only `a-z0-9-_`, has no `--`, and does not start or end with `-` or `_` |
| `ServerId.BlankGivesEmpty` | js/setup.js:98 | blank input gives the empty id |
| `ServerId.CollapseKeepsSingles` | js/setup.js:100 | a string without `--` is left as it is by the collapse |
| `ServerId.SliceKeepsIdChars` | js/setup.js:99-101 | a piece of a string of id characters without `--` is again such a string |
| `ServerId.TrimKeepsClean` | js/setup.js:97 | trimming leaves a clean id unchanged |
| `ServerId.ReplaceKeepsClean` | js/setup.js:99 | replacing invalid characters leaves a clean id unchanged |
| `ServerId.LowerKeepsClean` | js/setup.js:102 | lower-casing leaves a clean id unchanged |
| `ServerId.CleanIdIsFixed` | js/setup.js:96-103 | each sanitising stage leaves a clean id unchanged |
| `ServerId.SanitizeIdempotent` | js/setup.js:96-103 | sanitising twice is sanitising once |
| `ServerId.SanitizeKeepsCleanIds` | js/setup.js:96-103 | a clean id is its own sanitised form |
| `ServerId.Normalize` | js/setup.js:64 | normalising never lengthens the id, gives the empty key exactly for a blank value, and leaves no white space at either end |
| `ServerId.TrimBlank` | js/setup.js:64 | trimming gives the empty string exactly when the value is blank, and otherwise no white space at either end |
| `ServerId.NormalizeShape` | js/setup.js:64 | the trimmed, lower-cased value is no longer than the input, empty exactly for a blank input, and has no white space at either end |
| `ServerId.NormalizeKeepsCleanIds` | js/setup.js:64 | a clean id is its own hub key |
| `ServerId.StripSlashes` | js/setup.js:614 | leading slashes are dropped and only those |
| `ServerId.ExtractLocalServerId` | js/setup.js:613-617 | the extracted server id is never empty |
| `ServerId.ExtractedIdIsClean` | js/setup.js:613-617 | the extracted server id is always a clean id |
| `ServerId.DefaultIsClean` | js/setup.js:615-616 | the fallback `default` is a clean id |
| `ServerId.ExtractKeepsCleanPath` | js/setup.js:613-617 | a path that is already a clean id names that server |
| `ServerId.ExtractIdempotent` | js/setup.js:613-617 | extracting from an extracted id gives it back |
| `ServerId.ExtractIgnoresLeadingSlash` | js/setup.js:614 | a leading slash does not change the server named |
| `Hub.Without` | js/setup.js:309-311 | removing a connection keeps exactly the other ids |
| `Hub.WithoutKeepsIncreasing` | js/setup.js:309-311 | removing a connection keeps the ids increasing |
| `Hub.LocalHub.constructor` | js/setup.js:63 | the registry starts empty |
| `Hub.LocalHub.Register` | js/setup.js:67-81 | an empty key or a key already in use is refused and nothing changes; otherwise the key is bound to the server |
| `Hub.LocalHub.Unregister` | js/setup.js:76-80 | the key is removed only while it is still bound to that server |
| `Hub.LocalHub.Connect` | js/setup.js:83-92 | no server under the key, or a stopped one, gives no connection; a running one opens a connection with its next id; only the bound server changes |
| `Hub.LocalServer.constructor` | js/setup.js:233-239 | a new server is stopped, has no connections and counts from 1 |
| `Hub.LocalServer.Valid` | js/setup.js:269-276 | definition of the server invariant: the counter is at least 1 and the open connection ids are increasing and below it; kept by every method |
| `Hub.LocalServer.IsRunning` | js/setup.js:265-267 | definition: the server is running exactly when it holds a registration key (an unregister function in the source) |
| `Hub.LocalServer.Start` | js/setup.js:241-249 | a running server refuses; a refused registration leaves it stopped; otherwise it runs under its normalised id |
| `Hub.LocalServer.Stop` | js/setup.js:251-263 | a stopped server is unchanged; otherwise connections are dropped, it stops and its key is unregistered |
| `Hub.LocalServer.CreateConnection` | js/setup.js:269-276 | a stopped server refuses; otherwise the connection gets the counter's value, the counter advances, and ids stay increasing and below the counter |
| `Hub.LocalServer.ConnectionClosed` | js/setup.js:309-315 | a closed connection is removed from the list; ids stay increasing |
| `Hub.NewConnectionIdIsFresh` | js/setup.js:297 | a counter value above every open id keeps the list increasing and is not already used |

## Left out

- Rendering is not modelled: meshes, materials, colours (`colorIdx`,
  `randomBoxColor`), labels, the box list panel, the HUD, messages and
  `render`.
- Browser interaction is not modelled: the DOM, the camera and raycasting.
  The raycast hit and the floor point are parameters.
  `getIntersectionWithPlane` (src/main.js:312-318) always returns a vector,
  so the early return at src/main.js:346 for a missing point never
  happens. When the ray misses the floor plane, three.js leaves the vector
  at the origin and the move goes ahead; in the model, that is the floor
  point parameter being (0, 0, 0).
- Random sizes are not modelled. `addBox`'s `Math.random` size in 200..300
  is a parameter.
- Number parsing is not modelled: `parseFloat`, `Number`, NaN and
  infinities. Values arrive as reals or as `None` for a missing or
  non-numeric field, and `Number.isFinite` fails exactly for `None`.
- Arithmetic is exact. Floating-point rounding is not modelled, including
  the accumulated `x += step` of the grid search (a grid point is
  `min + i·step`).
- The conflicting colour code of `src/main.js` is not modelled. That file
  holds an unresolved merge between two revisions (the colour argument of
  `createMaterial` and the `color` field of a record). Both revisions
  agree on everything modelled.
- Object identity is reduced to list indices. A selection or drag target
  whose box has left the list is `None` rather than a detached object.
- Placement.Editor.DeleteSelectedBox: a drag still holding the deleted
  record is dropped. The source leaves `dragState` pointing at the removed
  record until the pointer is released.
- Scene.Scene.ResolveStacks: its ensures states the ten-pass equation and
  that only heights change. Its other properties are proved about the
  same function in `Scene.ResolveStacksProperties`. The loop itself sits
  in `Scene.Scene.ResolveStacksWithin`, with the bound of 10 passed in.
- Scene.Scene.ResolveStacks: `updateBoxLabelPosition` and the mesh copy of
  the height are not modelled.
- The socket side of `js/setup.js` is not modelled: the local socket pair,
  its messages, `broadcast`, the hooks (`onStatus`, `onLog`), the close
  codes sent by `stop`, and the UI around the hub. A connection is its id.
- Hub.LocalHub.Register: the error texts are English stand-ins for the
  source's messages. Only which call fails matters here.
- ServerId.Normalize: `toLowerCase` is modelled for ASCII letters only.
  Lower-casing of other scripts is not modelled, and every key the hub
  sees after `sanitizeServerId` is ASCII anyway.
- Hub.LocalHub.Connect: the client socket is represented by the id of the
  new connection.
