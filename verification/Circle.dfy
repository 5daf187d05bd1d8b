/** Circles (Geometry/Circle.js): a closed disk around (x, y). The factory's
    defaults are the unit circle at the origin. */
module Circles {
  import opened Wrappers
  import opened RealArith
  import opened Vectors
  import opened Rectangles

  /** The factory: every trailing argument may be omitted and takes its
      default. */
  datatype Circle = Circle(x: real := 0.0, y: real := 0.0, radius: real := 1.0)

  /** The factory with every argument omitted. */
  const UnitCircle := Circle()

  /** Omitted trailing arguments take the source's defaults. */
  lemma FactoryDefaults(x: real, y: real)
    ensures UnitCircle == Circle(0.0, 0.0, 1.0)
    ensures Circle(x) == Circle(x, 0.0, 1.0)
    ensures Circle(x, y) == Circle(x, y, 1.0)
  {
  }

  /** The argument of `intersects`, told apart in the source by which fields
      it has: a `radius` makes it a circle, `width` and `height` a rectangle,
      and anything else (a bare point, say) has neither. */
  datatype Shape =
    | CircleShape(circle: Circle)
    | RectangleShape(rect: Rectangle)
    | OtherShape(point: Vector)

  /** The square of `distance2d`, the Euclidean distance of two points. */
  function SqDistance2d(x1: real, y1: real, x2: real, y2: real): real {
    Sq(x2 - x1) + Sq(y2 - y1)
  }

  /** `contains`: `distance2d(p, centre) <= radius`, stated without the square
      root (see ContainsIsClosedDisk). */
  predicate Contains(c: Circle, p: Vector) {
    0.0 <= c.radius && SqDistance2d(p.x, p.y, c.x, c.y) <= Sq(c.radius)
  }

  /** Circle against circle: `distance2d(centres) < radius + this.radius`,
      stated without the square root (see IntersectsCircleIsStrict). */
  predicate IntersectsCircle(c: Circle, o: Circle) {
    0.0 < o.radius + c.radius && SqDistance2d(o.x, o.y, c.x, c.y) < Sq(o.radius + c.radius)
  }

  /** Circle against rectangle: the three-tier test of the source. The
      per-axis distance from this centre to the rectangle's centre is built
      as a two-component vector; then early reject, early accept, and last the
      squared distance to the nearest corner. */
  predicate IntersectsRectangle(c: Circle, r: Rectangle) {
    var centerDistance := MakeVector(Some(Abs(c.x - (r.x + r.width / 2.0))),
                                     Some(Abs(c.y - (r.y + r.height / 2.0))), None, None);
    if centerDistance.x > r.width / 2.0 + c.radius then false
    else if centerDistance.y > r.height / 2.0 + c.radius then false
    else if centerDistance.x <= r.width / 2.0 then true
    else if centerDistance.y <= r.height / 2.0 then true
    else Sq(c.radius) >= Sq(centerDistance.x - r.width / 2.0) + Sq(centerDistance.y - r.height / 2.0)
  }

  /** `intersects`, dispatching on the kind of its argument. */
  predicate Intersects(c: Circle, other: Shape) {
    match other
    case CircleShape(o) => IntersectsCircle(c, o)
    case RectangleShape(r) => IntersectsRectangle(c, r)
    case OtherShape(_) => false
  }

  /** For the non-negative root `d` of the squared distance, `contains` is the
      source's `d <= radius`: the closed disk. */
  lemma ContainsIsClosedDisk(c: Circle, p: Vector, d: real)
    requires d >= 0.0 && Sq(d) == SqDistance2d(p.x, p.y, c.x, c.y)
    ensures Contains(c, p) <==> d <= c.radius
  {
    RootAtMost(d, SqDistance2d(p.x, p.y, c.x, c.y), c.radius);
  }

  /** For the non-negative root `d` of the squared centre distance, circle
      against circle is the source's strict `d < o.radius + c.radius`:
      circles that only touch do not intersect. */
  lemma IntersectsCircleIsStrict(c: Circle, o: Circle, d: real)
    requires d >= 0.0 && Sq(d) == SqDistance2d(o.x, o.y, c.x, c.y)
    ensures IntersectsCircle(c, o) <==> d < o.radius + c.radius
  {
    RootBelow(d, SqDistance2d(o.x, o.y, c.x, c.y), o.radius + c.radius);
  }

  lemma IntersectsCircleSymmetric(a: Circle, b: Circle)
    ensures Intersects(a, CircleShape(b)) == Intersects(b, CircleShape(a))
  {
  }

  /** An argument that is neither a circle nor a rectangle never intersects. */
  lemma OtherNeverIntersects(c: Circle, v: Vector)
    ensures !Intersects(c, OtherShape(v))
  {
  }

  /** The point of the closed rectangle nearest to the centre. */
  function NearestPoint(c: Circle, r: Rectangle): (q: Vector)
    requires NonNegative(r)
    ensures InClosed(r, q)
  {
    Vector2(Clamp(c.x, r.x, r.x + r.width), Clamp(c.y, r.y, r.y + r.height))
  }

  /** The three tiers compute exactly "the nearest point of the closed
      rectangle lies in the closed disk". */
  lemma IntersectsRectangleIsNearestTest(c: Circle, r: Rectangle)
    requires c.radius >= 0.0 && NonNegative(r)
    ensures IntersectsRectangle(c, r) <==> Contains(c, NearestPoint(c, r))
  {
    var hw, hh := r.width / 2.0, r.height / 2.0;
    var dx, dy := Abs(c.x - (r.x + hw)), Abs(c.y - (r.y + hh));
    NearestSqDistance(c, r);
    TiersAreGapTest(c.radius, dx, dy, hw, hh);
  }

  /** The squared distance from the centre to the nearest point, per axis the
      gap between the centre and the rectangle's extent. */
  lemma NearestSqDistance(c: Circle, r: Rectangle)
    requires NonNegative(r)
    ensures var q := NearestPoint(c, r);
      SqDistance2d(q.x, q.y, c.x, c.y)
      == Sq(Gap(Abs(c.x - (r.x + r.width / 2.0)), r.width / 2.0))
         + Sq(Gap(Abs(c.y - (r.y + r.height / 2.0)), r.height / 2.0))
  {
    SqClampGap(c.x, r.x, r.width);
    SqClampGap(c.y, r.y, r.height);
  }

  /** The three tiers on the per-axis centre distances `dx`, `dy` and the
      half extents `hw`, `hh` decide "squared gap distance at most the squared
      radius". */
  lemma TiersAreGapTest(radius: real, dx: real, dy: real, hw: real, hh: real)
    requires radius >= 0.0 && dx >= 0.0 && dy >= 0.0 && hw >= 0.0 && hh >= 0.0
    ensures (if dx > hw + radius then false
             else if dy > hh + radius then false
             else if dx <= hw then true
             else if dy <= hh then true
             else Sq(radius) >= Sq(dx - hw) + Sq(dy - hh))
            <==> Sq(Gap(dx, hw)) + Sq(Gap(dy, hh)) <= Sq(radius)
  {
    var gx, gy := Gap(dx, hw), Gap(dy, hh);
    if dx > hw + radius {
      SqStrictMonotone(radius, gx);
    } else if dy > hh + radius {
      SqStrictMonotone(radius, gy);
    } else if dx <= hw {
      SqMonotone(gy, radius);
    } else if dy <= hh {
      SqMonotone(gx, radius);
    }
  }

  /** Circle against rectangle is exact: with a non-negative radius and
      extents, it holds if and only if some point of the closed rectangle lies
      within the radius of the centre. */
  lemma IntersectsRectangleExact(c: Circle, r: Rectangle)
    requires c.radius >= 0.0 && NonNegative(r)
    ensures IntersectsRectangle(c, r) <==> exists q :: InClosed(r, q) && Contains(c, q)
  {
    IntersectsRectangleIsNearestTest(c, r);
    var n := NearestPoint(c, r);
    forall q | InClosed(r, q) && Contains(c, q)
      ensures Contains(c, n)
    {
      ClampNearest(c.x, r.x, r.x + r.width, q.x);
      ClampNearest(c.y, r.y, r.y + r.height, q.y);
    }
  }

  /** A point both in a rectangle and in a circle makes the circle intersect
      the rectangle: the pruning test a query with a circular area needs. */
  lemma CommonPointIntersectsRectangle(c: Circle, r: Rectangle, p: Vector)
    requires Contains(c, p) && Rectangles.Contains(r, p)
    ensures IntersectsRectangle(c, r)
  {
    ContainsWithinClosed(r, p);
    IntersectsRectangleExact(c, r);
  }

  /** Worked cases: a circle of radius 5 centred 10 units right of a 10 by 10
      square misses it; centred 4 units right of it, it meets it; two unit
      circles whose centres are 2 apart touch and so do not intersect. */
  lemma RectangleExamples()
    ensures !Intersects(Circle(20.0, 5.0, 5.0), RectangleShape(Rectangle(0.0, 0.0, 10.0, 10.0)))
    ensures Intersects(Circle(14.0, 5.0, 5.0), RectangleShape(Rectangle(0.0, 0.0, 10.0, 10.0)))
    ensures !Intersects(Circle(0.0, 0.0, 1.0), CircleShape(Circle(2.0, 0.0, 1.0)))
  {
  }
}
