/** The stacking engine: the resting height of a box (findBestSnapPosition),
    the continuous height rule used while dragging (computeDraggedY) and the
    bounded relaxation loop that re-settles every box (resolveStacks).
    Boxes are identified by their index in the registry's list. */
module Snap {
  import opened BoxGeometry
  import opened Wrappers

  /** Tolerance of the support and tie tests of the snap resolver. */
  const SnapEps: real := 0.000001
  /** Tolerance of the vertical tests of the drag rule. */
  const DragEps: real := 0.001
  /** A re-snapped height is written only when it moves by more than this. */
  const MoveEps: real := 0.001
  /** The stabiliser's bound on the number of passes. */
  const MaxPasses: nat := 10

  // ---------------------------------------------------------------------
  // Snap resolver
  // ---------------------------------------------------------------------

  /** The floor candidate: the box resting on the floor. */
  function FloorY(boxes: seq<Box>, i: nat): real
    requires i < |boxes|
  {
    boxes[i].size.h / 2.0
  }

  /** The ceiling bound on a box's centre height. */
  function CeilingY(boxes: seq<Box>, i: nat, space: Space): real
    requires i < |boxes|
  {
    space.height - boxes[i].size.h / 2.0
  }

  /** The height at which box i would rest on top of box j. */
  function Candidate(boxes: seq<Box>, i: nat, j: nat): real
    requires i < |boxes| && j < |boxes|
  {
    boxes[j].Top() + boxes[i].size.h / 2.0
  }

  /** Box j is a stacking candidate for box i: it is another box, its
      footprint overlaps, and in below-only mode its top is not above box
      i's current bottom (up to SnapEps). */
  predicate Contributes(boxes: seq<Box>, i: nat, j: nat, belowOnly: bool)
    requires i < |boxes| && j < |boxes|
  {
    && j != i
    && (belowOnly ==> boxes[j].Top() <= boxes[i].Bottom() + SnapEps)
    && OverlapXZ(boxes[i], boxes[j])
  }

  /** One iteration of the snap loop: a contributing candidate replaces the
      running best when it is above the best minus SnapEps. */
  function SnapStep(boxes: seq<Box>, i: nat, belowOnly: bool, best: real, j: nat): real
    requires i < |boxes| && j < |boxes|
  {
    if Contributes(boxes, i, j, belowOnly) && Candidate(boxes, i, j) > best - SnapEps
    then Candidate(boxes, i, j)
    else best
  }

  /** The running best after the loop has looked at boxes[..k]. */
  function BestUpTo(boxes: seq<Box>, i: nat, belowOnly: bool, k: nat): real
    requires i < |boxes| && k <= |boxes|
    decreases k
  {
    if k == 0 then FloorY(boxes, i)
    else SnapStep(boxes, i, belowOnly, BestUpTo(boxes, i, belowOnly, k - 1), k - 1)
  }

  /** Because a candidate within SnapEps below the running best also
      replaces it, the running best is not exactly the maximum: it is the
      floor or one of the contributing candidates, and no candidate looked
      at (nor the floor) lies more than k * SnapEps above it. */
  lemma {:induction false} BestUpToIsNearMax(boxes: seq<Box>, i: nat, belowOnly: bool, k: nat)
    requires i < |boxes| && k <= |boxes|
    ensures BestUpTo(boxes, i, belowOnly, k) == FloorY(boxes, i)
         || exists j :: 0 <= j < k && Contributes(boxes, i, j, belowOnly)
                        && BestUpTo(boxes, i, belowOnly, k) == Candidate(boxes, i, j)
    ensures FloorY(boxes, i) <= BestUpTo(boxes, i, belowOnly, k) + (k as real) * SnapEps
    ensures forall j :: 0 <= j < k && Contributes(boxes, i, j, belowOnly) ==>
              Candidate(boxes, i, j) <= BestUpTo(boxes, i, belowOnly, k) + (k as real) * SnapEps
  {
    if k > 0 {
      BestUpToIsNearMax(boxes, i, belowOnly, k - 1);
    }
  }

  /** findBestSnapPosition as a function: the (near-)highest supporting
      surface, clamped to the ceiling. */
  function SnapY(boxes: seq<Box>, i: nat, space: Space, belowOnly: bool): (y: real)
    requires i < |boxes|
    ensures y <= CeilingY(boxes, i, space)
  {
    Min(BestUpTo(boxes, i, belowOnly, |boxes|), CeilingY(boxes, i, space))
  }

  /** What findBestSnapPosition promises: the result is the floor rest or
      the top of a contributing box (each clamped to the ceiling), and no
      contributing box's top, nor the floor, lies more than |boxes| *
      SnapEps above it. In below-only mode only boxes whose top is at or
      below the current bottom contribute; in full mode every other
      overlapping box does; the box itself never does. */
  lemma SnapYIsNearHighestSupport(boxes: seq<Box>, i: nat, space: Space, belowOnly: bool)
    requires i < |boxes|
    ensures SnapY(boxes, i, space, belowOnly) == Min(FloorY(boxes, i), CeilingY(boxes, i, space))
         || exists j :: 0 <= j < |boxes| && Contributes(boxes, i, j, belowOnly)
                        && SnapY(boxes, i, space, belowOnly) == Min(Candidate(boxes, i, j), CeilingY(boxes, i, space))
    ensures Min(FloorY(boxes, i), CeilingY(boxes, i, space))
            <= SnapY(boxes, i, space, belowOnly) + (|boxes| as real) * SnapEps
    ensures forall j :: 0 <= j < |boxes| && Contributes(boxes, i, j, belowOnly) ==>
              Min(Candidate(boxes, i, j), CeilingY(boxes, i, space))
              <= SnapY(boxes, i, space, belowOnly) + (|boxes| as real) * SnapEps
  {
    BestUpToIsNearMax(boxes, i, belowOnly, |boxes|);
  }

  /** With no other box overlapping its footprint, a box rests on the floor
      (or at the ceiling bound if it is taller than the workspace), in
      either mode. */
  lemma SnapFloorRest(boxes: seq<Box>, i: nat, space: Space, belowOnly: bool)
    requires i < |boxes|
    requires forall j :: 0 <= j < |boxes| && j != i ==> !OverlapXZ(boxes[i], boxes[j])
    ensures SnapY(boxes, i, space, belowOnly)
         == Min(boxes[i].size.h / 2.0, space.height - boxes[i].size.h / 2.0)
  {
    BestUpToIsNearMax(boxes, i, belowOnly, |boxes|);
  }

  lemma {:induction false} BestUpToIgnoresOwnY(boxes: seq<Box>, i: nat, y: real, k: nat)
    requires i < |boxes| && k <= |boxes|
    ensures BestUpTo(boxes[i := boxes[i].WithY(y)], i, false, k) == BestUpTo(boxes, i, false, k)
  {
    if k > 0 {
      BestUpToIgnoresOwnY(boxes, i, y, k - 1);
      OverlapXZIgnoresHeight(boxes[i], boxes[k - 1], y);
    }
  }

  /** Full mode does not read the box's own (stale) height: only its size
      and footprint matter. */
  lemma SnapFullModeIgnoresOwnY(boxes: seq<Box>, i: nat, space: Space, y: real)
    requires i < |boxes|
    ensures SnapY(boxes[i := boxes[i].WithY(y)], i, space, false) == SnapY(boxes, i, space, false)
  {
    BestUpToIgnoresOwnY(boxes, i, y, |boxes|);
  }

  lemma {:induction false} BestUpToIgnoresBoxAbove(boxes: seq<Box>, i: nat, j: nat, b: Box, k: nat)
    requires i < |boxes| && j < |boxes| && j != i && k <= |boxes|
    requires boxes[j].Top() > boxes[i].Bottom() + SnapEps
    requires b.Top() > boxes[i].Bottom() + SnapEps
    ensures BestUpTo(boxes[j := b], i, true, k) == BestUpTo(boxes, i, true, k)
  {
    if k > 0 {
      BestUpToIgnoresBoxAbove(boxes, i, j, b, k - 1);
    }
  }

  /** In below-only mode a box whose top is above the current bottom plus
      SnapEps never contributes: whatever box stands at that index (as long
      as it is also above), the result is the same. */
  lemma SnapBelowOnlyIgnoresBoxAbove(boxes: seq<Box>, i: nat, j: nat, b: Box, space: Space)
    requires i < |boxes| && j < |boxes| && j != i
    requires boxes[j].Top() > boxes[i].Bottom() + SnapEps
    requires b.Top() > boxes[i].Bottom() + SnapEps
    ensures SnapY(boxes[j := b], i, space, true) == SnapY(boxes, i, space, true)
  {
    BestUpToIgnoresBoxAbove(boxes, i, j, b, |boxes|);
  }

  /** A box resting squarely on one other box, with nothing else under it,
      snaps to that box's top face in full mode. */
  lemma SnapOnSingleSupport(boxes: seq<Box>, i: nat, j: nat, space: Space)
    requires i < |boxes| && j < |boxes| && j != i
    requires OverlapXZ(boxes[i], boxes[j])
    requires boxes[j].Top() >= 0.0
    requires forall k :: 0 <= k < |boxes| && k != i && k != j ==> !OverlapXZ(boxes[i], boxes[k])
    ensures SnapY(boxes, i, space, false) == Min(Candidate(boxes, i, j), CeilingY(boxes, i, space))
  {
    var y := SnapY(boxes, i, space, false);
    var raw := BestUpTo(boxes, i, false, |boxes|);
    BestUpToSingleSupport(boxes, i, j, |boxes|);
  }

  lemma {:induction false} BestUpToSingleSupport(boxes: seq<Box>, i: nat, j: nat, k: nat)
    requires i < |boxes| && j < |boxes| && j != i && k <= |boxes|
    requires OverlapXZ(boxes[i], boxes[j])
    requires boxes[j].Top() >= 0.0
    requires forall m :: 0 <= m < |boxes| && m != i && m != j ==> !OverlapXZ(boxes[i], boxes[m])
    ensures BestUpTo(boxes, i, false, k) == if k <= j then FloorY(boxes, i) else Candidate(boxes, i, j)
  {
    if k > 0 {
      BestUpToSingleSupport(boxes, i, j, k - 1);
    }
  }

  // ---------------------------------------------------------------------
  // Drag height rule
  // ---------------------------------------------------------------------

  /** Box j is another box whose footprint overlaps box i's. */
  predicate OverlapsOther(boxes: seq<Box>, i: nat, j: nat)
    requires i < |boxes| && j < |boxes|
  {
    j != i && OverlapXZ(boxes[i], boxes[j])
  }

  /** Box j's vertical extent intersects the extent box i has at height
      prevY, by more than DragEps on both sides. */
  predicate VerticalConflict(boxes: seq<Box>, i: nat, j: nat, prevY: real)
    requires i < |boxes| && j < |boxes|
  {
    var h2 := boxes[i].size.h / 2.0;
    prevY - h2 < boxes[j].Top() - DragEps && prevY + h2 > boxes[j].Bottom() + DragEps
  }

  /** Box j's top is at or below box i's bottom at height prevY (up to
      DragEps). */
  predicate Beneath(boxes: seq<Box>, i: nat, j: nat, prevY: real)
    requires i < |boxes| && j < |boxes|
  {
    boxes[j].Top() <= prevY - boxes[i].size.h / 2.0 + DragEps
  }

  /** `base` after the drag loop has looked at boxes[..k]: the highest top
      of an overlapping box beneath, or 0 (the floor). */
  function BaseUpTo(boxes: seq<Box>, i: nat, prevY: real, k: nat): (r: real)
    requires i < |boxes| && k <= |boxes|
    ensures r >= 0.0
    decreases k
  {
    if k == 0 then 0.0
    else
      var r := BaseUpTo(boxes, i, prevY, k - 1);
      if OverlapsOther(boxes, i, k - 1) && Beneath(boxes, i, k - 1, prevY)
      then Max(r, boxes[k - 1].Top())
      else r
  }

  /** `pushUp` after the drag loop has looked at boxes[..k]: the highest top
      of an overlapping box in vertical conflict, or 0. */
  function PushUpTo(boxes: seq<Box>, i: nat, prevY: real, k: nat): (r: real)
    requires i < |boxes| && k <= |boxes|
    ensures r >= 0.0
    decreases k
  {
    if k == 0 then 0.0
    else
      var r := PushUpTo(boxes, i, prevY, k - 1);
      if OverlapsOther(boxes, i, k - 1) && VerticalConflict(boxes, i, k - 1, prevY)
      then Max(r, boxes[k - 1].Top())
      else r
  }

  /** `base` grows only from overlapping boxes beneath: it is at least the
      top of each of them, and it is either the floor or one of their tops. */
  lemma {:induction false} BaseUpToIsHighestBeneath(boxes: seq<Box>, i: nat, prevY: real, k: nat)
    requires i < |boxes| && k <= |boxes|
    ensures forall j :: 0 <= j < k && OverlapsOther(boxes, i, j) && Beneath(boxes, i, j, prevY) ==>
              boxes[j].Top() <= BaseUpTo(boxes, i, prevY, k)
    ensures BaseUpTo(boxes, i, prevY, k) == 0.0
         || exists j :: 0 <= j < k && OverlapsOther(boxes, i, j) && Beneath(boxes, i, j, prevY)
                        && BaseUpTo(boxes, i, prevY, k) == boxes[j].Top()
  {
    if k > 0 {
      BaseUpToIsHighestBeneath(boxes, i, prevY, k - 1);
    }
  }

  /** `pushUp` grows only from overlapping boxes in vertical conflict: it is
      at least the top of each of them, and it is either 0 or one of their
      tops. */
  lemma {:induction false} PushUpToIsHighestConflict(boxes: seq<Box>, i: nat, prevY: real, k: nat)
    requires i < |boxes| && k <= |boxes|
    ensures forall j :: 0 <= j < k && OverlapsOther(boxes, i, j) && VerticalConflict(boxes, i, j, prevY) ==>
              boxes[j].Top() <= PushUpTo(boxes, i, prevY, k)
    ensures PushUpTo(boxes, i, prevY, k) == 0.0
         || exists j :: 0 <= j < k && OverlapsOther(boxes, i, j) && VerticalConflict(boxes, i, j, prevY)
                        && PushUpTo(boxes, i, prevY, k) == boxes[j].Top()
  {
    if k > 0 {
      PushUpToIsHighestConflict(boxes, i, prevY, k - 1);
    }
  }

  /** computeDraggedY as a function: the box's bottom goes to the higher of
      the best support beneath and the highest obstruction it conflicts
      with, and the centre is clamped to the ceiling. */
  function DraggedY(boxes: seq<Box>, i: nat, prevY: real, space: Space): (y: real)
    requires i < |boxes|
    ensures y <= CeilingY(boxes, i, space)
  {
    var h2 := boxes[i].size.h / 2.0;
    Min(Max(BaseUpTo(boxes, i, prevY, |boxes|), PushUpTo(boxes, i, prevY, |boxes|)) + h2,
        space.height - h2)
  }

  /** What the drag rule promises: the box is at least at floor rest, at
      least on top of every overlapping box beneath it or in conflict with
      it, and its height is either floor rest or one of those tops (each
      clamped to the ceiling). */
  lemma DraggedYIsHighestSupportOrObstruction(boxes: seq<Box>, i: nat, prevY: real, space: Space)
    requires i < |boxes|
    ensures Min(FloorY(boxes, i), CeilingY(boxes, i, space)) <= DraggedY(boxes, i, prevY, space)
    ensures forall j :: 0 <= j < |boxes| && OverlapsOther(boxes, i, j)
                        && (Beneath(boxes, i, j, prevY) || VerticalConflict(boxes, i, j, prevY)) ==>
              Min(Candidate(boxes, i, j), CeilingY(boxes, i, space)) <= DraggedY(boxes, i, prevY, space)
    ensures DraggedY(boxes, i, prevY, space) == Min(FloorY(boxes, i), CeilingY(boxes, i, space))
         || exists j :: 0 <= j < |boxes| && OverlapsOther(boxes, i, j)
                        && (Beneath(boxes, i, j, prevY) || VerticalConflict(boxes, i, j, prevY))
                        && DraggedY(boxes, i, prevY, space) == Min(Candidate(boxes, i, j), CeilingY(boxes, i, space))
  {
    BaseUpToIsHighestBeneath(boxes, i, prevY, |boxes|);
    PushUpToIsHighestConflict(boxes, i, prevY, |boxes|);
  }

  /** Sliding, not teleporting: a dragged box that conflicts with nothing
      and already rests on the highest support beneath it (or on the floor)
      keeps its height. */
  lemma DragKeepsHeightWithoutConflict(boxes: seq<Box>, i: nat, prevY: real, space: Space)
    requires i < |boxes|
    requires forall j :: 0 <= j < |boxes| && OverlapsOther(boxes, i, j) ==> !VerticalConflict(boxes, i, j, prevY)
    requires prevY - boxes[i].size.h / 2.0 == BaseUpTo(boxes, i, prevY, |boxes|)
    requires prevY <= CeilingY(boxes, i, space)
    ensures DraggedY(boxes, i, prevY, space) == prevY
  {
    PushUpToIsHighestConflict(boxes, i, prevY, |boxes|);
  }

  /** Without a vertical conflict the box only settles onto the support
      beneath it: it is never lifted above its previous height. */
  lemma DragNeverLiftsWithoutConflict(boxes: seq<Box>, i: nat, prevY: real, space: Space)
    requires i < |boxes|
    requires forall j :: 0 <= j < |boxes| && OverlapsOther(boxes, i, j) ==> !VerticalConflict(boxes, i, j, prevY)
    requires prevY - boxes[i].size.h / 2.0 >= 0.0
    ensures DraggedY(boxes, i, prevY, space) <= prevY + DragEps
  {
    PushUpToIsHighestConflict(boxes, i, prevY, |boxes|);
    BaseUpToIsHighestBeneath(boxes, i, prevY, |boxes|);
    var base := BaseUpTo(boxes, i, prevY, |boxes|);
    if base != 0.0 {
      var j :| 0 <= j < |boxes| && OverlapsOther(boxes, i, j) && Beneath(boxes, i, j, prevY)
               && base == boxes[j].Top();
    }
  }

  // ---------------------------------------------------------------------
  // Pass order: the list sorted by centre height
  // ---------------------------------------------------------------------

  /** The centre heights of the boxes, in list order. */
  function Ys(boxes: seq<Box>): (ys: seq<real>)
    ensures |ys| == |boxes|
    ensures forall j :: 0 <= j < |boxes| ==> ys[j] == boxes[j].position.y
  {
    seq(|boxes|, j requires 0 <= j < |boxes| => boxes[j].position.y)
  }

  predicate InRange(ys: seq<real>, order: seq<nat>)
  {
    forall a :: 0 <= a < |order| ==> order[a] < |ys|
  }

  predicate SortedBy(ys: seq<real>, order: seq<nat>)
    requires InRange(ys, order)
  {
    forall a, b :: 0 <= a < b < |order| ==> ys[order[a]] <= ys[order[b]]
  }

  /** Equal heights keep their list order (the sort is stable). */
  predicate StableBy(ys: seq<real>, order: seq<nat>)
    requires InRange(ys, order)
  {
    forall a, b :: 0 <= a < b < |order| && ys[order[a]] == ys[order[b]] ==> order[a] < order[b]
  }

  /** Inserts index k before the first element whose height is greater. */
  function InsertByY(ys: seq<real>, order: seq<nat>, k: nat): (r: seq<nat>)
    requires InRange(ys, order) && k < |ys|
    ensures |r| == |order| + 1
    decreases |order|
  {
    if order == [] then [k]
    else if ys[order[0]] > ys[k] then [k] + order
    else [order[0]] + InsertByY(ys, order[1..], k)
  }

  /** Insertion keeps the elements and adds k. */
  lemma {:induction false} InsertByYElements(ys: seq<real>, order: seq<nat>, k: nat)
    requires InRange(ys, order) && k < |ys|
    ensures forall x :: x in InsertByY(ys, order, k) <==> x in order || x == k
    ensures InRange(ys, InsertByY(ys, order, k))
    decreases |order|
  {
    if order != [] && ys[order[0]] <= ys[k] {
      InsertByYElements(ys, order[1..], k);
      assert order == [order[0]] + order[1..];
    }
  }

  /** An index placed in front of a sorted, stable order keeps it sorted
      and stable when it is no higher than any of them, and comes before
      those of equal height. */
  lemma PrependSorted(ys: seq<real>, x: nat, rest: seq<nat>)
    requires x < |ys| && InRange(ys, rest)
    requires SortedBy(ys, rest) && StableBy(ys, rest)
    requires forall b :: 0 <= b < |rest| ==> ys[x] <= ys[rest[b]]
    requires forall b :: 0 <= b < |rest| && ys[x] == ys[rest[b]] ==> x < rest[b]
    ensures InRange(ys, [x] + rest)
    ensures SortedBy(ys, [x] + rest) && StableBy(ys, [x] + rest)
  {
    var r := [x] + rest;
    assert forall a :: 0 < a < |r| ==> r[a] == rest[a - 1];
  }

  /** Insertion keeps a sorted, stable order sorted and stable when k comes
      after every index already placed. */
  lemma {:induction false} InsertByYSorted(ys: seq<real>, order: seq<nat>, k: nat)
    requires InRange(ys, order) && k < |ys|
    requires SortedBy(ys, order) && StableBy(ys, order)
    requires forall a :: 0 <= a < |order| ==> order[a] < k
    ensures InRange(ys, InsertByY(ys, order, k))
    ensures SortedBy(ys, InsertByY(ys, order, k)) && StableBy(ys, InsertByY(ys, order, k))
    decreases |order|
  {
    if order == [] {
    } else if ys[order[0]] > ys[k] {
      forall b | 0 <= b < |order|
        ensures ys[k] < ys[order[b]]
      {
        if b > 0 {
          assert ys[order[0]] <= ys[order[b]];
        }
      }
      PrependSorted(ys, k, order);
    } else {
      var tail := order[1..];
      InsertByYSorted(ys, tail, k);
      InsertByYElements(ys, tail, k);
      var rest := InsertByY(ys, tail, k);
      forall b | 0 <= b < |rest|
        ensures ys[order[0]] <= ys[rest[b]]
        ensures ys[order[0]] == ys[rest[b]] ==> order[0] < rest[b]
      {
        assert rest[b] in rest;
        if rest[b] != k {
          var c :| 0 <= c < |tail| && tail[c] == rest[b];
          assert order[c + 1] == rest[b];
        }
      }
      PrependSorted(ys, order[0], rest);
    }
  }

  /** The indices 0 .. n-1 sorted by height, ties in list order. */
  function OrderByYUpTo(ys: seq<real>, n: nat): (r: seq<nat>)
    requires n <= |ys|
    ensures |r| == n
    ensures forall x: nat :: x in r <==> x < n
    ensures InRange(ys, r)
  {
    if n == 0 then []
    else
      var prev := OrderByYUpTo(ys, n - 1);
      InsertByYElements(ys, prev, n - 1);
      InsertByY(ys, prev, n - 1)
  }

  /** The order built so far is ascending by height and stable. */
  lemma {:induction false} OrderByYUpToSorted(ys: seq<real>, n: nat)
    requires n <= |ys|
    ensures SortedBy(ys, OrderByYUpTo(ys, n)) && StableBy(ys, OrderByYUpTo(ys, n))
  {
    if n > 0 {
      var prev := OrderByYUpTo(ys, n - 1);
      OrderByYUpToSorted(ys, n - 1);
      forall a | 0 <= a < |prev|
        ensures prev[a] < n - 1
      {
        assert prev[a] in prev;
      }
      InsertByYSorted(ys, prev, n - 1);
    }
  }

  /** The order a pass visits the boxes in: a copy of the box list sorted
      by centre height, given as indices: a permutation of the indices,
      ascending by height, stable. */
  function OrderByY(boxes: seq<Box>): (r: seq<nat>)
    ensures |r| == |boxes|
    ensures forall a :: 0 <= a < |r| ==> r[a] < |boxes|
  {
    OrderByYUpTo(Ys(boxes), |boxes|)
  }

  /** The pass order is a stable sort of the indices by centre height: it
      holds every index exactly once, ascending by height, and boxes of
      equal height keep their list order. */
  lemma OrderByYIsStableSort(boxes: seq<Box>)
    ensures forall x: nat :: x in OrderByY(boxes) <==> x < |boxes|
    ensures forall a, b :: 0 <= a < b < |boxes| ==>
              boxes[OrderByY(boxes)[a]].position.y <= boxes[OrderByY(boxes)[b]].position.y
    ensures forall a, b ::
              (0 <= a < b < |boxes| && boxes[OrderByY(boxes)[a]].position.y == boxes[OrderByY(boxes)[b]].position.y) ==>
              OrderByY(boxes)[a] < OrderByY(boxes)[b]
    ensures forall a, b :: 0 <= a < b < |boxes| ==> OrderByY(boxes)[a] != OrderByY(boxes)[b]
  {
    var ys := Ys(boxes);
    var r := OrderByY(boxes);
    OrderByYUpToSorted(ys, |boxes|);
    assert forall a :: 0 <= a < |r| ==> ys[r[a]] == boxes[r[a]].position.y;
  }

  // ---------------------------------------------------------------------
  // Stack stabiliser
  // ---------------------------------------------------------------------

  /** Every box other than the excluded one is within MoveEps of its
      below-only snap height: a pass over this list writes nothing. */
  predicate Stable(boxes: seq<Box>, exclude: Option<nat>, space: Space)
  {
    forall b :: 0 <= b < |boxes| && exclude != Some(b) ==>
      Abs(SnapY(boxes, b, space, true) - boxes[b].position.y) <= MoveEps
  }

  /** b agrees with a everywhere except, possibly, in centre heights. */
  predicate SameButY(a: seq<Box>, b: seq<Box>)
  {
    |a| == |b| && forall j :: 0 <= j < |a| ==> b[j] == a[j].WithY(b[j].position.y)
  }

  /** Every box's top is at or below the ceiling. */
  predicate UnderCeiling(boxes: seq<Box>, space: Space)
  {
    forall j :: 0 <= j < |boxes| ==> boxes[j].Top() <= space.height
  }

  /** One step of a pass: box b (unless excluded) is re-snapped in
      below-only mode against the current list and written back when it
      moves by more than MoveEps. */
  function PassStep(cur: seq<Box>, changed: bool, b: nat, exclude: Option<nat>, space: Space): (r: (seq<Box>, bool))
    requires b < |cur|
    ensures |r.0| == |cur|
  {
    if exclude == Some(b) then (cur, changed)
    else
      var y := SnapY(cur, b, space, true);
      if Abs(y - cur[b].position.y) > MoveEps then (cur[b := cur[b].WithY(y)], true)
      else (cur, changed)
  }

  /** The list and the `changed` flag after the first k steps of a pass
      over `order`. */
  function PassUpTo(boxes: seq<Box>, order: seq<nat>, exclude: Option<nat>, space: Space, k: nat): (r: (seq<Box>, bool))
    requires k <= |order|
    requires forall a :: 0 <= a < |order| ==> order[a] < |boxes|
    ensures |r.0| == |boxes|
    decreases k
  {
    if k == 0 then (boxes, false)
    else
      var p := PassUpTo(boxes, order, exclude, space, k - 1);
      PassStep(p.0, p.1, order[k - 1], exclude, space)
  }

  /** One full pass of resolveStacks over the list sorted by height. */
  function Pass(boxes: seq<Box>, exclude: Option<nat>, space: Space): (r: (seq<Box>, bool))
    ensures |r.0| == |boxes|
  {
    var order := OrderByY(boxes);
    PassUpTo(boxes, order, exclude, space, |order|)
  }

  /** resolveStacks with `budget` passes left: the final list, the number of
      passes run and whether the last pass changed nothing. */
  function Stabilise(boxes: seq<Box>, exclude: Option<nat>, space: Space, budget: nat): (r: (seq<Box>, nat, bool))
    ensures |r.0| == |boxes|
    decreases budget
  {
    if budget == 0 then (boxes, 0, false)
    else
      var p := Pass(boxes, exclude, space);
      if !p.1 then (p.0, 1, true)
      else
        var s := Stabilise(p.0, exclude, space, budget - 1);
        (s.0, s.1 + 1, s.2)
  }

  lemma SameButYTransitive(a: seq<Box>, b: seq<Box>, c: seq<Box>)
    requires SameButY(a, b) && SameButY(b, c)
    ensures SameButY(a, c)
  {
    forall j | 0 <= j < |a|
      ensures c[j] == a[j].WithY(c[j].position.y)
    {
      assert b[j] == a[j].WithY(b[j].position.y);
    }
  }

  /** A pass changes only heights, never the excluded box, and keeps every
      box under the ceiling if all were. */
  lemma {:induction false} PassUpToFrame(boxes: seq<Box>, order: seq<nat>, exclude: Option<nat>, space: Space, k: nat)
    requires k <= |order|
    requires forall a :: 0 <= a < |order| ==> order[a] < |boxes|
    ensures SameButY(boxes, PassUpTo(boxes, order, exclude, space, k).0)
    ensures exclude.Some? && exclude.value < |boxes| ==>
              PassUpTo(boxes, order, exclude, space, k).0[exclude.value] == boxes[exclude.value]
    ensures UnderCeiling(boxes, space) ==> UnderCeiling(PassUpTo(boxes, order, exclude, space, k).0, space)
  {
    if k > 0 {
      PassUpToFrame(boxes, order, exclude, space, k - 1);
      var p := PassUpTo(boxes, order, exclude, space, k - 1);
      var b := order[k - 1];
      var q := PassStep(p.0, p.1, b, exclude, space);
      assert SameButY(p.0, q.0);
      SameButYTransitive(boxes, p.0, q.0);
    }
  }

  /** A pass prefix that reports no change has written nothing, and every
      box it looked at was already within MoveEps of its snap height. */
  lemma {:induction false} PassUpToUnchanged(boxes: seq<Box>, order: seq<nat>, exclude: Option<nat>, space: Space, k: nat)
    requires k <= |order|
    requires forall a :: 0 <= a < |order| ==> order[a] < |boxes|
    requires !PassUpTo(boxes, order, exclude, space, k).1
    ensures PassUpTo(boxes, order, exclude, space, k).0 == boxes
    ensures forall a :: 0 <= a < k && exclude != Some(order[a]) ==>
              Abs(SnapY(boxes, order[a], space, true) - boxes[order[a]].position.y) <= MoveEps
  {
    if k > 0 {
      var p := PassUpTo(boxes, order, exclude, space, k - 1);
      assert !p.1;
      PassUpToUnchanged(boxes, order, exclude, space, k - 1);
    }
  }

  /** On a stable list a pass writes nothing and reports no change. */
  lemma {:induction false} PassUpToOnStable(boxes: seq<Box>, order: seq<nat>, exclude: Option<nat>, space: Space, k: nat)
    requires k <= |order|
    requires forall a :: 0 <= a < |order| ==> order[a] < |boxes|
    requires Stable(boxes, exclude, space)
    ensures PassUpTo(boxes, order, exclude, space, k) == (boxes, false)
  {
    if k > 0 {
      PassUpToOnStable(boxes, order, exclude, space, k - 1);
    }
  }

  /** A full pass that changes nothing leaves a stable list; and a stable
      list is left alone. */
  lemma PassFixedPoint(boxes: seq<Box>, exclude: Option<nat>, space: Space)
    ensures !Pass(boxes, exclude, space).1 ==>
              Pass(boxes, exclude, space).0 == boxes && Stable(boxes, exclude, space)
    ensures Stable(boxes, exclude, space) ==> Pass(boxes, exclude, space) == (boxes, false)
  {
    var order := OrderByY(boxes);
    if !Pass(boxes, exclude, space).1 {
      OrderByYIsStableSort(boxes);
      PassUpToUnchanged(boxes, order, exclude, space, |order|);
      forall b | 0 <= b < |boxes| && exclude != Some(b)
        ensures Abs(SnapY(boxes, b, space, true) - boxes[b].position.y) <= MoveEps
      {
        assert b in order;
        var a :| 0 <= a < |order| && order[a] == b;
      }
    }
    if Stable(boxes, exclude, space) {
      PassUpToOnStable(boxes, order, exclude, space, |order|);
    }
  }

  /** resolveStacks runs at most `budget` passes, and at least one when
      there is budget. */
  lemma {:induction false} StabilisePassCount(boxes: seq<Box>, exclude: Option<nat>, space: Space, budget: nat)
    ensures Stabilise(boxes, exclude, space, budget).1 <= budget
    ensures budget > 0 ==> Stabilise(boxes, exclude, space, budget).1 >= 1
    decreases budget
  {
    if budget > 0 {
      var p := Pass(boxes, exclude, space);
      if p.1 {
        StabilisePassCount(p.0, exclude, space, budget - 1);
      }
    }
  }

  /** resolveStacks changes only heights, never the excluded box, and keeps
      every box under the ceiling if all were. */
  lemma {:induction false} StabiliseFrame(boxes: seq<Box>, exclude: Option<nat>, space: Space, budget: nat)
    ensures SameButY(boxes, Stabilise(boxes, exclude, space, budget).0)
    ensures exclude.Some? && exclude.value < |boxes| ==>
              Stabilise(boxes, exclude, space, budget).0[exclude.value] == boxes[exclude.value]
    ensures UnderCeiling(boxes, space) ==> UnderCeiling(Stabilise(boxes, exclude, space, budget).0, space)
    decreases budget
  {
    if budget > 0 {
      var order := OrderByY(boxes);
      var p := Pass(boxes, exclude, space);
      PassUpToFrame(boxes, order, exclude, space, |order|);
      if p.1 {
        var s := Stabilise(p.0, exclude, space, budget - 1);
        StabiliseFrame(p.0, exclude, space, budget - 1);
        SameButYTransitive(boxes, p.0, s.0);
      }
    } else {
      assert SameButY(boxes, boxes);
    }
  }

  /** When resolveStacks stops because a pass changed nothing, every box
      other than the excluded one sits at its below-only snap height. */
  lemma {:induction false} StabiliseConverged(boxes: seq<Box>, exclude: Option<nat>, space: Space, budget: nat)
    requires Stabilise(boxes, exclude, space, budget).2
    ensures Stable(Stabilise(boxes, exclude, space, budget).0, exclude, space)
    decreases budget
  {
    var p := Pass(boxes, exclude, space);
    if p.1 {
      StabiliseConverged(p.0, exclude, space, budget - 1);
      assert Stabilise(boxes, exclude, space, budget).0 == Stabilise(p.0, exclude, space, budget - 1).0;
    } else {
      PassFixedPoint(boxes, exclude, space);
      assert Stabilise(boxes, exclude, space, budget).0 == p.0 == boxes;
    }
  }

  /** On a stable list resolveStacks runs one pass and changes nothing. */
  lemma StabiliseOnStable(boxes: seq<Box>, exclude: Option<nat>, space: Space, budget: nat)
    requires budget > 0
    requires Stable(boxes, exclude, space)
    ensures Stabilise(boxes, exclude, space, budget) == (boxes, 1, true)
  {
    PassFixedPoint(boxes, exclude, space);
  }

  /** Idempotence: when a resolveStacks call ends because a pass changed
      nothing, an immediate second call changes nothing either. */
  lemma ResolveTwiceIsNoOp(boxes: seq<Box>, exclude: Option<nat>, space: Space)
    requires Stabilise(boxes, exclude, space, MaxPasses).2
    ensures Stabilise(Stabilise(boxes, exclude, space, MaxPasses).0, exclude, space, MaxPasses)
         == (Stabilise(boxes, exclude, space, MaxPasses).0, 1, true)
  {
    StabiliseConverged(boxes, exclude, space, MaxPasses);
    StabiliseOnStable(Stabilise(boxes, exclude, space, MaxPasses).0, exclude, space, MaxPasses);
  }
}
