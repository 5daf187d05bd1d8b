/** Spheres (Common/Sphere.js): a closed ball around (x, y, z). The factory's
    defaults are the unit sphere at the origin. */
module Spheres {
  import opened RealArith
  import opened Vectors
  import opened Boxes

  /** The factory: every trailing argument may be omitted and takes its
      default. */
  datatype Sphere = Sphere(x: real := 0.0, y: real := 0.0, z: real := 0.0, radius: real := 1.0)

  /** The factory with every argument omitted. */
  const UnitSphere := Sphere()

  /** Omitted trailing arguments take the source's defaults. */
  lemma FactoryDefaults(x: real, y: real, z: real)
    ensures UnitSphere == Sphere(0.0, 0.0, 0.0, 1.0)
    ensures Sphere(x) == Sphere(x, 0.0, 0.0, 1.0)
    ensures Sphere(x, y, z) == Sphere(x, y, z, 1.0)
  {
  }

  /** The argument of `intersects`: a `radius` makes it a sphere, `width`,
      `height` and `depth` a box; anything else has neither. */
  datatype Shape =
    | SphereShape(sphere: Sphere)
    | BoxShape(box: Box)
    | OtherShape(point: Vector)

  /** What a call of `intersects` does as the file is written: return a
      boolean or throw. */
  datatype Outcome = Returned(value: bool) | Threw(message: string)

  /** The square of `distance3d`. */
  function SqDistance3d(x1: real, y1: real, z1: real, x2: real, y2: real, z2: real): real {
    Sq(x2 - x1) + Sq(y2 - y1) + Sq(z2 - z1)
  }

  /** `contains`: `distance3d(p, centre) <= radius`, stated without the square
      root. A two-component vector has no `z`, the distance is NaN and the
      comparison false. */
  predicate Contains(s: Sphere, p: Vector) {
    p.HasZ() && 0.0 <= s.radius && SqDistance3d(p.x, p.y, p.z, s.x, s.y, s.z) <= Sq(s.radius)
  }

  /** Sphere against sphere: strict `distance3d(centres) < radius + this.radius`. */
  predicate IntersectsSphere(s: Sphere, o: Sphere) {
    0.0 < o.radius + s.radius && SqDistance3d(o.x, o.y, o.z, s.x, s.y, s.z) < Sq(o.radius + s.radius)
  }

  /** Sphere against box with the per-axis centre distances kept as a plain
      triple (the file builds them with `Vector`, see IntersectsAsWritten),
      then the source's three tiers: early reject on any axis, early accept
      on any axis, squared distance to the nearest corner. The early accept
      is only right in two dimensions (see EarlyAcceptCounterexample). */
  predicate IntersectsBoxTiers(s: Sphere, b: Box) {
    var dx := Abs(s.x - (b.x + b.width / 2.0));
    var dy := Abs(s.y - (b.y + b.height / 2.0));
    var dz := Abs(s.z - (b.z + b.depth / 2.0));
    if dx > b.width / 2.0 + s.radius then false
    else if dy > b.height / 2.0 + s.radius then false
    else if dz > b.depth / 2.0 + s.radius then false
    else if dx <= b.width / 2.0 then true
    else if dy <= b.height / 2.0 then true
    else if dz <= b.depth / 2.0 then true
    else Sq(s.radius) >= Sq(dx - b.width / 2.0) + Sq(dy - b.height / 2.0) + Sq(dz - b.depth / 2.0)
  }

  /** Sphere against box as intended: the same early rejects, then the squared
      distance to the nearest point of the box, where an axis on which the
      centre lies within the half-extent contributes nothing. */
  predicate IntersectsBox(s: Sphere, b: Box) {
    var dx := Abs(s.x - (b.x + b.width / 2.0));
    var dy := Abs(s.y - (b.y + b.height / 2.0));
    var dz := Abs(s.z - (b.z + b.depth / 2.0));
    if dx > b.width / 2.0 + s.radius then false
    else if dy > b.height / 2.0 + s.radius then false
    else if dz > b.depth / 2.0 + s.radius then false
    else Sq(s.radius) >= Sq(Gap(dx, b.width / 2.0)) + Sq(Gap(dy, b.height / 2.0)) + Sq(Gap(dz, b.depth / 2.0))
  }

  /** `intersects` as the file is written: the box branch calls `Vector`,
      which the file never imports, so reaching it throws. */
  function IntersectsAsWritten(s: Sphere, other: Shape): (r: Outcome)
    ensures r.Threw? <==> other.BoxShape?
  {
    match other
    case SphereShape(o) => Returned(IntersectsSphere(s, o))
    case BoxShape(_) => Threw("ReferenceError: Vector is not defined")
    case OtherShape(_) => Returned(false)
  }

  /** `intersects` as intended, with the box branch computed on a plain triple. */
  predicate Intersects(s: Sphere, other: Shape) {
    match other
    case SphereShape(o) => IntersectsSphere(s, o)
    case BoxShape(b) => IntersectsBox(s, b)
    case OtherShape(_) => false
  }

  /** The written and the intended `intersects` agree wherever the written one
      returns; against every box the written one throws. */
  lemma AsWrittenThrowsOnBoxes(s: Sphere, other: Shape)
    ensures IntersectsAsWritten(s, other).Returned? ==>
      IntersectsAsWritten(s, other).value == Intersects(s, other)
    ensures other.BoxShape? ==> IntersectsAsWritten(s, other) == Threw("ReferenceError: Vector is not defined")
  {
  }

  /** For the non-negative root `d` of the squared distance, `contains` is the
      source's `d <= radius`: the closed ball. */
  lemma ContainsIsClosedBall(s: Sphere, p: Vector, d: real)
    requires p.HasZ()
    requires d >= 0.0 && Sq(d) == SqDistance3d(p.x, p.y, p.z, s.x, s.y, s.z)
    ensures Contains(s, p) <==> d <= s.radius
  {
    RootAtMost(d, SqDistance3d(p.x, p.y, p.z, s.x, s.y, s.z), s.radius);
  }

  /** Sphere against sphere is the strict `d < o.radius + s.radius`. */
  lemma IntersectsSphereIsStrict(s: Sphere, o: Sphere, d: real)
    requires d >= 0.0 && Sq(d) == SqDistance3d(o.x, o.y, o.z, s.x, s.y, s.z)
    ensures IntersectsSphere(s, o) <==> d < o.radius + s.radius
  {
    RootBelow(d, SqDistance3d(o.x, o.y, o.z, s.x, s.y, s.z), o.radius + s.radius);
  }

  lemma IntersectsSphereSymmetric(a: Sphere, b: Sphere)
    ensures Intersects(a, SphereShape(b)) == Intersects(b, SphereShape(a))
  {
  }

  lemma OtherNeverIntersects(s: Sphere, v: Vector)
    ensures !Intersects(s, OtherShape(v))
  {
  }

  /** The point of the closed box nearest to the centre. */
  function NearestPoint(s: Sphere, b: Box): (q: Vector)
    requires NonNegative(b)
    ensures InClosed(b, q)
  {
    Vector3(Clamp(s.x, b.x, b.x + b.width),
            Clamp(s.y, b.y, b.y + b.height),
            Clamp(s.z, b.z, b.z + b.depth))
  }

  /** The intended test is exactly "the nearest point of the closed box lies
      in the closed ball". */
  lemma IntersectsBoxIsNearestTest(s: Sphere, b: Box)
    requires s.radius >= 0.0 && NonNegative(b)
    ensures IntersectsBox(s, b) <==> Contains(s, NearestPoint(s, b))
  {
    var hw, hh, hd := b.width / 2.0, b.height / 2.0, b.depth / 2.0;
    var dx, dy, dz := Abs(s.x - (b.x + hw)), Abs(s.y - (b.y + hh)), Abs(s.z - (b.z + hd));
    NearestSqDistance(s, b);
    RejectsAreGapTest(s.radius, dx, dy, dz, hw, hh, hd);
  }

  /** The squared distance from the centre to the nearest point, per axis the
      gap between the centre and the box's extent. */
  lemma NearestSqDistance(s: Sphere, b: Box)
    requires NonNegative(b)
    ensures var q := NearestPoint(s, b);
      SqDistance3d(q.x, q.y, q.z, s.x, s.y, s.z)
      == Sq(Gap(Abs(s.x - (b.x + b.width / 2.0)), b.width / 2.0))
         + Sq(Gap(Abs(s.y - (b.y + b.height / 2.0)), b.height / 2.0))
         + Sq(Gap(Abs(s.z - (b.z + b.depth / 2.0)), b.depth / 2.0))
  {
    SqClampGap(s.x, b.x, b.width);
    SqClampGap(s.y, b.y, b.height);
    SqClampGap(s.z, b.z, b.depth);
  }

  /** The early rejects change nothing: an axis whose gap exceeds the radius
      already puts the squared gap distance over the squared radius. */
  lemma RejectsAreGapTest(radius: real, dx: real, dy: real, dz: real, hw: real, hh: real, hd: real)
    requires radius >= 0.0 && hw >= 0.0 && hh >= 0.0 && hd >= 0.0
    ensures (if dx > hw + radius then false
             else if dy > hh + radius then false
             else if dz > hd + radius then false
             else Sq(radius) >= Sq(Gap(dx, hw)) + Sq(Gap(dy, hh)) + Sq(Gap(dz, hd)))
            <==> Sq(Gap(dx, hw)) + Sq(Gap(dy, hh)) + Sq(Gap(dz, hd)) <= Sq(radius)
  {
    if dx > hw + radius {
      SqStrictMonotone(radius, Gap(dx, hw));
    } else if dy > hh + radius {
      SqStrictMonotone(radius, Gap(dy, hh));
    } else if dz > hd + radius {
      SqStrictMonotone(radius, Gap(dz, hd));
    }
  }

  /** Sphere against box is exact: with a non-negative radius and extents, it
      holds if and only if some point of the closed box lies within the
      radius of the centre. */
  lemma IntersectsBoxExact(s: Sphere, b: Box)
    requires s.radius >= 0.0 && NonNegative(b)
    ensures IntersectsBox(s, b) <==> exists q :: InClosed(b, q) && Contains(s, q)
  {
    IntersectsBoxIsNearestTest(s, b);
    var n := NearestPoint(s, b);
    forall q | InClosed(b, q) && Contains(s, q)
      ensures Contains(s, n)
    {
      ClampNearest(s.x, b.x, b.x + b.width, q.x);
      ClampNearest(s.y, b.y, b.y + b.height, q.y);
      ClampNearest(s.z, b.z, b.z + b.depth, q.z);
    }
  }

  /** A point both in a box and in a sphere makes the sphere intersect the box. */
  lemma CommonPointIntersectsBox(s: Sphere, b: Box, p: Vector)
    requires Contains(s, p) && Boxes.Contains(b, p)
    ensures IntersectsBox(s, b)
  {
    ContainsWithinClosed(b, p);
    IntersectsBoxExact(s, b);
  }

  /** The source's tiers never reject a box that the intended test accepts,
      so pruning by them is sound; they only over-approximate. */
  lemma TiersOverApproximate(s: Sphere, b: Box)
    requires s.radius >= 0.0 && NonNegative(b)
    ensures IntersectsBox(s, b) ==> IntersectsBoxTiers(s, b)
  {
    var hw, hh, hd := b.width / 2.0, b.height / 2.0, b.depth / 2.0;
    var dx, dy, dz := Abs(s.x - (b.x + hw)), Abs(s.y - (b.y + hh)), Abs(s.z - (b.z + hd));
    if IntersectsBox(s, b) && dx > hw && dy > hh && dz > hd {
      assert Gap(dx, hw) == dx - hw && Gap(dy, hh) == dy - hh && Gap(dz, hd) == dz - hd;
    }
  }

  /** The early accept of the source is wrong in three dimensions: the centre
      (5, 17, 17) lies over the box [0, 10]^3 on the x axis and within reach
      on y and z, so the tiers accept a sphere of radius 8, yet the nearest
      point of the box, (5, 10, 10), is at squared distance 98 > 64 and no
      point of the closed box lies in the ball. */
  lemma EarlyAcceptCounterexample()
    ensures IntersectsBoxTiers(Sphere(5.0, 17.0, 17.0, 8.0), Box(0.0, 0.0, 0.0, 10.0, 10.0, 10.0))
    ensures !exists q :: InClosed(Box(0.0, 0.0, 0.0, 10.0, 10.0, 10.0), q) && Contains(Sphere(5.0, 17.0, 17.0, 8.0), q)
  {
    var s, b := Sphere(5.0, 17.0, 17.0, 8.0), Box(0.0, 0.0, 0.0, 10.0, 10.0, 10.0);
    assert Abs(s.x - (b.x + b.width / 2.0)) == 0.0;
    assert Abs(s.y - (b.y + b.height / 2.0)) == 12.0;
    assert Abs(s.z - (b.z + b.depth / 2.0)) == 12.0;
    assert Gap(12.0, 5.0) == 7.0 && Gap(0.0, 5.0) == 0.0;
    assert Sq(0.0) + Sq(7.0) + Sq(7.0) == 98.0 && Sq(8.0) == 64.0;
    assert !IntersectsBox(s, b);
    IntersectsBoxExact(s, b);
  }

  /** The corner case: a sphere centred at (15, 15, 15) meets the box
      [0, 10]^3 exactly when its radius squared reaches 3 * 25. */
  lemma CornerExample(r: real)
    requires r >= 0.0
    ensures Intersects(Sphere(15.0, 15.0, 15.0, r), BoxShape(Box(0.0, 0.0, 0.0, 10.0, 10.0, 10.0)))
            <==> Sq(r) >= 75.0
  {
    var s := Sphere(15.0, 15.0, 15.0, r);
    assert Abs(15.0 - (0.0 + 10.0 / 2.0)) == 10.0;
    assert Sq(10.0 - 10.0 / 2.0) == 25.0;
    if r < 5.0 {
      SqStrictMonotone(r, 5.0);
    }
  }
}
