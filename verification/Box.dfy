/** Axis-aligned boxes (Common/Box.js), the three-dimensional analogue of
    the rectangle. The factory's defaults are the unit cube at the origin. */
module Boxes {
  import opened Vectors

  /** The factory: every trailing argument may be omitted and takes its
      default. */
  datatype Box = Box(x: real := 0.0, y: real := 0.0, z: real := 0.0,
                     width: real := 1.0, height: real := 1.0, depth: real := 1.0)

  /** The factory with every argument omitted. */
  const UnitBox := Box()

  /** Omitted trailing arguments take the source's defaults. */
  lemma FactoryDefaults(x: real, y: real, z: real, width: real, height: real)
    ensures UnitBox == Box(0.0, 0.0, 0.0, 1.0, 1.0, 1.0)
    ensures Box(x) == Box(x, 0.0, 0.0, 1.0, 1.0, 1.0)
    ensures Box(x, y, z) == Box(x, y, z, 1.0, 1.0, 1.0)
    ensures Box(x, y, z, width, height) == Box(x, y, z, width, height, 1.0)
  {
  }

  /** `contains`: half-open on all three axes. A two-component vector has no
      `z`; reading it gives `undefined`, whose comparisons are all false, so
      such a vector is never contained. */
  predicate Contains(b: Box, p: Vector) {
    p.HasZ() &&
    p.x >= b.x &&
    p.x < b.x + b.width &&
    p.y >= b.y &&
    p.y < b.y + b.height &&
    p.z >= b.z &&
    p.z < b.z + b.depth
  }

  /** `intersects` against another box: the separating-axis test. */
  predicate Intersects(b: Box, o: Box) {
    !(o.x > b.x + b.width ||
      o.x + o.width < b.x ||
      o.y > b.y + b.height ||
      o.y + o.height < b.y ||
      o.z > b.z + b.depth ||
      o.z + o.depth < b.z)
  }

  /** Membership of the CLOSED box. */
  predicate InClosed(b: Box, q: Vector) {
    q.HasZ() &&
    b.x <= q.x <= b.x + b.width &&
    b.y <= q.y <= b.y + b.height &&
    b.z <= q.z <= b.z + b.depth
  }

  predicate NonNegative(b: Box) {
    b.width >= 0.0 && b.height >= 0.0 && b.depth >= 0.0
  }

  /** A box with any extent zero (or negative) contains no point. */
  lemma ContainsNeedsPositiveExtent(b: Box, p: Vector)
    ensures Contains(b, p) ==> b.width > 0.0 && b.height > 0.0 && b.depth > 0.0
    ensures b.width <= 0.0 || b.height <= 0.0 || b.depth <= 0.0 ==> !Contains(b, p)
  {
  }

  /** Containment is the half-open box inside the closed one. */
  lemma ContainsWithinClosed(b: Box, p: Vector)
    ensures Contains(b, p) <==>
      InClosed(b, p) && p.x != b.x + b.width && p.y != b.y + b.height && p.z != b.z + b.depth
  {
  }

  lemma IntersectsSymmetric(a: Box, b: Box)
    ensures Intersects(a, b) == Intersects(b, a)
  {
  }

  /** For boxes of non-negative extent, `intersects` holds exactly when the
      closed boxes share a point: touching faces, edges and corners count. */
  lemma IntersectsIffClosedOverlap(a: Box, b: Box)
    requires NonNegative(a) && NonNegative(b)
    ensures Intersects(a, b) <==> exists q :: InClosed(a, q) && InClosed(b, q)
  {
    if Intersects(a, b) {
      var q := Vector3(if a.x < b.x then b.x else a.x,
                       if a.y < b.y then b.y else a.y,
                       if a.z < b.z then b.z else a.z);
      assert InClosed(a, q) && InClosed(b, q);
    }
  }

  /** Two boxes that meet only on a face intersect. */
  lemma SharedFaceIntersects(a: Box, b: Box)
    requires NonNegative(a) && NonNegative(b)
    requires b.x == a.x + a.width && b.y == a.y && b.z == a.z
    ensures Intersects(a, b)
  {
    IntersectsIffClosedOverlap(a, b);
    var q := Vector3(b.x, b.y, b.z);
    assert InClosed(a, q) && InClosed(b, q);
  }

  /** Pruning soundness: a point contained by both boxes forces `intersects`. */
  lemma CommonPointIntersects(a: Box, b: Box, p: Vector)
    requires Contains(a, p) && Contains(b, p)
    ensures Intersects(a, b) && Intersects(b, a)
  {
  }

  lemma SelfIntersects(b: Box)
    ensures Intersects(b, b) <==> NonNegative(b)
  {
  }
}
