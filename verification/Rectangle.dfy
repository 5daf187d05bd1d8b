/** Axis-aligned rectangles (Common/Rectangle.js). The factory's defaults are
    x = 0, y = 0, width = 1, height = 1. */
module Rectangles {
  import opened Vectors

  /** The factory: every trailing argument may be omitted and takes its
      default. */
  datatype Rectangle = Rectangle(x: real := 0.0, y: real := 0.0, width: real := 1.0, height: real := 1.0)

  /** The factory with every argument omitted. */
  const UnitRectangle := Rectangle()

  /** Omitted trailing arguments take the source's defaults. */
  lemma FactoryDefaults(x: real, y: real, width: real)
    ensures UnitRectangle == Rectangle(0.0, 0.0, 1.0, 1.0)
    ensures Rectangle(x) == Rectangle(x, 0.0, 1.0, 1.0)
    ensures Rectangle(x, y) == Rectangle(x, y, 1.0, 1.0)
    ensures Rectangle(x, y, width) == Rectangle(x, y, width, 1.0)
  {
  }

  /** `contains`: half-open on both axes, [x, x + width) by [y, y + height).
      Any vector works as a point; only its x and y are read. */
  predicate Contains(r: Rectangle, p: Vector) {
    p.x >= r.x &&
    p.x < r.x + r.width &&
    p.y >= r.y &&
    p.y < r.y + r.height
  }

  /** `intersects` against another rectangle: the separating-axis test, true
      unless the other rectangle lies wholly beyond one edge. */
  predicate Intersects(r: Rectangle, o: Rectangle) {
    !(o.x > r.x + r.width ||
      o.x + o.width < r.x ||
      o.y > r.y + r.height ||
      o.y + o.height < r.y)
  }

  /** Membership of the CLOSED rectangle [x, x + width] by [y, y + height]. */
  predicate InClosed(r: Rectangle, q: Vector) {
    r.x <= q.x <= r.x + r.width && r.y <= q.y <= r.y + r.height
  }

  predicate NonNegative(r: Rectangle) {
    r.width >= 0.0 && r.height >= 0.0
  }

  /** A rectangle contains a point only if both extents are positive, so a
      rectangle of width 0 or height 0 contains nothing. */
  lemma ContainsNeedsPositiveExtent(r: Rectangle, p: Vector)
    ensures Contains(r, p) ==> r.width > 0.0 && r.height > 0.0
    ensures r.width <= 0.0 || r.height <= 0.0 ==> !Contains(r, p)
  {
  }

  /** Containment is the half-open box and, within it, the closed one. */
  lemma ContainsWithinClosed(r: Rectangle, p: Vector)
    ensures Contains(r, p) ==> InClosed(r, p)
    ensures Contains(r, p) <==> InClosed(r, p) && p.x != r.x + r.width && p.y != r.y + r.height
  {
  }

  /** `intersects` does not depend on the order of its operands. */
  lemma IntersectsSymmetric(a: Rectangle, b: Rectangle)
    ensures Intersects(a, b) == Intersects(b, a)
  {
  }

  /** For rectangles of non-negative extent, `intersects` holds exactly when the
      two CLOSED rectangles share a point: touching edges and corners count. */
  lemma IntersectsIffClosedOverlap(a: Rectangle, b: Rectangle)
    requires NonNegative(a) && NonNegative(b)
    ensures Intersects(a, b) <==> exists q :: InClosed(a, q) && InClosed(b, q)
  {
    if Intersects(a, b) {
      var q := Vector2(if a.x < b.x then b.x else a.x, if a.y < b.y then b.y else a.y);
      assert InClosed(a, q) && InClosed(b, q);
    }
  }

  /** Two rectangles that meet only along an edge intersect. */
  lemma SharedEdgeIntersects(a: Rectangle, b: Rectangle)
    requires NonNegative(a) && NonNegative(b)
    requires b.x == a.x + a.width && b.y == a.y
    ensures Intersects(a, b)
  {
    IntersectsIffClosedOverlap(a, b);
    assert InClosed(a, Vector2(b.x, b.y)) && InClosed(b, Vector2(b.x, b.y));
  }

  /** Pruning soundness: a point contained by both rectangles forces
      `intersects`, so a node whose bounds fail the test holds no match. */
  lemma CommonPointIntersects(a: Rectangle, b: Rectangle, p: Vector)
    requires Contains(a, p) && Contains(b, p)
    ensures Intersects(a, b) && Intersects(b, a)
  {
  }

  /** A rectangle of non-negative extent intersects itself. */
  lemma SelfIntersects(r: Rectangle)
    ensures Intersects(r, r) <==> NonNegative(r)
  {
  }
}
