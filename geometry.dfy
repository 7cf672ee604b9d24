/** The geometric data model shared by both revisions of the stacking
    engine: the workspace, a box's size and centre, and the footprint
    (X-Z) overlap test. */
module BoxGeometry {

  /** The workspace volume, in millimetres. X spans [-width/2, width/2],
      Z spans [-depth/2, depth/2] and Y spans [0, height]. */
  datatype Space = Space(width: real, height: real, depth: real)

  /** The workspace both App revisions construct. */
  const DefaultSpace := Space(1000.0, 3000.0, 1000.0)

  datatype Size = Size(w: real, h: real, d: real)

  datatype Vec3 = Vec3(x: real, y: real, z: real)

  /** A box record: its id, its size and the position of its centre. */
  datatype Box = Box(id: real, size: Size, position: Vec3)
  {
    function Top(): real { position.y + size.h / 2.0 }
    function Bottom(): real { position.y - size.h / 2.0 }

    /** The same box with only the centre height replaced. */
    function WithY(y: real): (b: Box)
      ensures b.id == id && b.size == size
      ensures b.position.x == position.x && b.position.z == position.z
      ensures b.position.y == y
    {
      this.(position := position.(y := y))
    }
  }

  function Min(a: real, b: real): real { if a <= b then a else b }
  function Max(a: real, b: real): real { if a >= b then a else b }
  function Abs(a: real): real { if a >= 0.0 then a else -a }

  /** THREE.MathUtils.clamp: max(lo, min(hi, v)); when lo > hi the result is lo. */
  function Clamp(v: real, lo: real, hi: real): (r: real)
    ensures lo <= hi ==> lo <= r <= hi
    ensures lo <= v <= hi ==> r == v
    ensures hi < lo ==> r == lo
  {
    Max(lo, Min(hi, v))
  }

  /** Strict interval overlap of two open ranges given by their ends. */
  predicate IntervalsOverlap(a1: real, a2: real, b1: real, b2: real)
  {
    a1 < b2 && a2 > b1
  }

  /** rectOverlapXZ: the footprints of a and b overlap on both the X and
      the Z axis, with strict inequalities. */
  predicate OverlapXZ(a: Box, b: Box)
  {
    && IntervalsOverlap(a.position.x - a.size.w / 2.0, a.position.x + a.size.w / 2.0,
                        b.position.x - b.size.w / 2.0, b.position.x + b.size.w / 2.0)
    && IntervalsOverlap(a.position.z - a.size.d / 2.0, a.position.z + a.size.d / 2.0,
                        b.position.z - b.size.d / 2.0, b.position.z + b.size.d / 2.0)
  }

  /** The footprint test is symmetric. */
  lemma OverlapXZSymmetric(a: Box, b: Box)
    ensures OverlapXZ(a, b) <==> OverlapXZ(b, a)
  {
  }

  /** Footprints that only touch along an X edge (a's right side on b's
      left side) do not overlap; likewise along a Z edge. */
  lemma TouchingFootprintsDoNotOverlap(a: Box, b: Box)
    requires a.position.x + a.size.w / 2.0 == b.position.x - b.size.w / 2.0
          || a.position.z + a.size.d / 2.0 == b.position.z - b.size.d / 2.0
    ensures !OverlapXZ(a, b) && !OverlapXZ(b, a)
  {
  }

  /** The footprint test reads only x, z, w and d: changing a box's height
      or its centre height does not change it. */
  lemma OverlapXZIgnoresHeight(a: Box, b: Box, y: real)
    ensures OverlapXZ(a.WithY(y), b) == OverlapXZ(a, b)
    ensures OverlapXZ(b, a.WithY(y)) == OverlapXZ(b, a)
  {
  }

  /** A box with positive width and depth overlaps itself, which is why
      every caller excludes the box itself explicitly. */
  lemma OverlapXZReflexive(a: Box)
    requires a.size.w > 0.0 && a.size.d > 0.0
    ensures OverlapXZ(a, a)
  {
  }
}
