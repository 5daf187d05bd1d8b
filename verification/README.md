# Spatial primitives, point trees and polynomial easings

This project is a Dafny model of the geometry and tweening core of a small
JavaScript front-end toolkit:

- **Vectors** (`Common/Vector.js`): the factory that builds a 2-, 3- or
  4-component vector from whichever arguments are given.
- **Rectangles and boxes** (`Common/Rectangle.js`, `Common/Box.js`): the
  factories, whose omitted trailing arguments take their defaults, half-open
  `contains`, and the separating-axis `intersects`.
- **Circles and spheres** (`Geometry/Circle.js`, `Common/Sphere.js`):
  - `contains` is the closed disk or ball;
  - `intersects` with another circle or sphere is strict;
  - circle against rectangle is the source's tiered test: two early rejects,
    two early accepts, then the corner distance;
  - sphere against box is modelled twice. As written, the call throws, and
    its tiers accept too much (see Findings). As intended, three early rejects
    are followed by the distance to the nearest point of the box, with no early
    accepts; `Spheres.Intersects` uses this form;
  - `intersects` with anything else is `false`.
- **Quadtree and octree** (`Common/Quadtree.js`, `Geometry/Octree.js`):
  - each node holds up to `capacity` points;
  - on the first insert past capacity it splits once into 4 or 8 half-size
    children, and routes each later point to the first child that accepts it;
  - `query` prunes nodes whose bounds miss the query area or volume, and
    appends matches to a running list. The source's pruning test is wrong for
    circle and sphere areas (see Findings). The value model has both the
    as-written query (`QueryTreeAsWritten`) and the corrected one
    (`QueryTree`). The classes compute the corrected one, which equals the
    as-written one on rectangle and box areas;
  - `getAllPoints` queries with the node's own bounds;
  - `getRandomPoint` picks an index scaled from a random number.
- **Easings** (`Tween/easing.js`): `linear` and the in, out and in-out forms
  of the quadratic, cubic, quartic and quintic easings.

Each tree is modelled twice:

- **As a value** (`Tree`). Insert and query are functions over it, and every
  tree property is a lemma about these functions.
- **As a class** (`Quadtree`, `Octree`). The class keeps the node's
  `points` and `isDivided` as fields updated in place, and is proved to
  compute the value model. Its `Model()` is the value its fields denote.

Other conventions:

- Coordinates are real numbers.
- A comparison of a square-root distance becomes a comparison of squared
  distances. Lemmas tie it back to any non-negative root.
- A shape's dispatch on which fields are present becomes a closed datatype
  of the kinds of argument it can receive.

## Model

| member | source | states |
|---|---|---|
| Vectors.MakeVector | Common/Vector.js:31-35 | the arity is 4 if `w` is given, else 3 if `z` is given, else 2; the chosen components are the supplied values, and each omitted one defaults to 0 |
| Vectors.SuppliedComponentsKept | Common/Vector.js:1-29 | supplying 2, 3 or 4 components yields exactly Vector2, Vector3 or Vector4 of those values |
| Rectangles.FactoryDefaults | Common/Rectangle.js:1-5 | omitted trailing arguments of the factory default to x = 0, y = 0, width = 1, height = 1 |
| Rectangles.Contains | Common/Rectangle.js:6-13 | half-open membership `[x, x + width)` by `[y, y + height)`; only the point's x and y are read |
| Rectangles.Intersects | Common/Rectangle.js:14-21 | the separating-axis test: false exactly when the other rectangle lies wholly beyond one of the four edges |
| Rectangles.ContainsNeedsPositiveExtent | Common/Rectangle.js:6-13 | a rectangle contains a point only if its width and height are positive; a degenerate rectangle contains nothing |
| Rectangles.ContainsWithinClosed | Common/Rectangle.js:6-13 | `contains` is membership of the closed rectangle minus its right and bottom edges (half-open) |
| Rectangles.IntersectsSymmetric | Common/Rectangle.js:14-21 | `intersects` does not depend on operand order |
| Rectangles.IntersectsIffClosedOverlap | Common/Rectangle.js:14-21 | for non-negative extents, `intersects` holds iff the closed rectangles share a point |
| Rectangles.SharedEdgeIntersects | Common/Rectangle.js:14-21 | rectangles that only touch along an edge intersect |
| Rectangles.CommonPointIntersects | Common/Rectangle.js:14-21 | a point contained by both rectangles forces `intersects` both ways |
| Rectangles.SelfIntersects | Common/Rectangle.js:14-21 | a rectangle intersects itself iff its extents are non-negative |
| Boxes.FactoryDefaults | Common/Box.js:3-9 | omitted trailing arguments of the factory default to the unit cube at the origin |
| Boxes.Contains | Common/Box.js:10-19 | half-open membership on all three axes; a point without `z` is in no box |
| Boxes.Intersects | Common/Box.js:20-29 | the separating-axis test: false exactly when the other box lies wholly beyond one of the six faces |
| Boxes.ContainsNeedsPositiveExtent | Common/Box.js:10-19 | a box contains a point only if all three extents are positive |
| Boxes.ContainsWithinClosed | Common/Box.js:10-19 | `contains` is the closed box minus its three far faces |
| Boxes.IntersectsSymmetric | Common/Box.js:20-29 | `intersects` does not depend on operand order |
| Boxes.IntersectsIffClosedOverlap | Common/Box.js:20-29 | for non-negative extents, `intersects` holds iff the closed boxes share a point |
| Boxes.SharedFaceIntersects | Common/Box.js:20-29 | boxes that only touch along a face intersect |
| Boxes.CommonPointIntersects | Common/Box.js:20-29 | a point contained by both boxes forces `intersects` both ways |
| Boxes.SelfIntersects | Common/Box.js:20-29 | a box intersects itself iff its extents are non-negative |
| Circles.FactoryDefaults | Geometry/Circle.js:7-10 | omitted trailing arguments of the factory default to x = 0, y = 0, radius = 1 |
| Circles.Contains | Geometry/Circle.js:11-13 | `distance2d <= radius`, as squared distance at most radius squared with a non-negative radius |
| Circles.IntersectsCircle | Geometry/Circle.js:17-19 | `distance2d < radius + this.radius`, as squared distance below the squared sum with a positive sum |
| Circles.IntersectsRectangle | Geometry/Circle.js:21-37 | the source's tiers on the centre-distance vector: two rejects, two accepts, then the squared corner distance |
| Circles.Intersects | Geometry/Circle.js:14-41 | dispatch on the argument: circle, rectangle, or anything else (false) |
| Circles.ContainsIsClosedDisk | Geometry/Circle.js:11-13 | for any non-negative distance `d` to the centre, `contains` holds iff `d <= radius` |
| Circles.IntersectsCircleIsStrict | Geometry/Circle.js:17-19 | two circles intersect iff the centre distance is strictly below the sum of the radii |
| Circles.IntersectsCircleSymmetric | Geometry/Circle.js:17-19 | circle–circle `intersects` does not depend on operand order |
| Circles.OtherNeverIntersects | Geometry/Circle.js:40 | an argument that is neither a circle nor a rectangle never intersects |
| Circles.NearestPoint | Geometry/Circle.js:21-37 | the clamped centre lies in the closed rectangle |
| Circles.TiersAreGapTest | Geometry/Circle.js:28-37 | the two rejects, two accepts and the final corner test together equal "squared per-axis gaps sum to at most radius squared" |
| Circles.IntersectsRectangleIsNearestTest | Geometry/Circle.js:21-37 | the rectangle branch holds iff the circle contains the rectangle's point nearest to its centre |
| Circles.IntersectsRectangleExact | Geometry/Circle.js:21-37 | the rectangle branch holds iff the closed rectangle and the closed disk share a point |
| Circles.CommonPointIntersectsRectangle | Geometry/Circle.js:21-37 | a point contained by both the circle and the rectangle forces `intersects` |
| Circles.RectangleExamples | Geometry/Circle.js:14-41 | concrete cases: a far circle misses, an overlapping one hits, tangent circles do not intersect |
| Spheres.FactoryDefaults | Common/Sphere.js:7-11 | omitted trailing arguments of the factory default to the unit sphere at the origin |
| Spheres.Contains | Common/Sphere.js:12-14 | `distance3d <= radius` for a point with `z`, as squared distance at most radius squared; a point without `z` is never contained |
| Spheres.IntersectsSphere | Common/Sphere.js:18-20 | `distance3d < radius + this.radius`, as squared distance below the squared sum with a positive sum |
| Spheres.IntersectsBoxTiers | Common/Sphere.js:30-42 | the source's tiers: three rejects, three early accepts, then the squared corner distance |
| Spheres.IntersectsBox | Common/Sphere.js:22-42 | the intended box test: the three rejects, then the squared distance to the nearest box point at most radius squared |
| Spheres.Intersects | Common/Sphere.js:15-46 | the intended dispatch: sphere, box via IntersectsBox, or anything else (false) |
| Spheres.ContainsIsClosedBall | Common/Sphere.js:12-14 | for a point with `z` and any non-negative distance `d` to the centre, `contains` holds iff `d <= radius` |
| Spheres.IntersectsSphereIsStrict | Common/Sphere.js:18-20 | two spheres intersect iff the centre distance is strictly below the sum of the radii |
| Spheres.IntersectsSphereSymmetric | Common/Sphere.js:18-20 | sphere–sphere `intersects` does not depend on operand order |
| Spheres.OtherNeverIntersects | Common/Sphere.js:45 | an argument that is neither a sphere nor a box never intersects |
| Spheres.IntersectsAsWritten | Common/Sphere.js:15-46 | as written, the call throws exactly when the argument is a box |
| Spheres.AsWrittenThrowsOnBoxes | Common/Sphere.js:24 | when the call as written returns, it agrees with the intended test; on a box it throws `ReferenceError` |
| Spheres.NearestPoint | Common/Sphere.js:22-42 | the clamped centre lies in the closed box |
| Spheres.RejectsAreGapTest | Common/Sphere.js:30-42 | the source's three early rejects, followed by the gap-sum test in place of the early accepts and corner test, equal the gap-sum test alone: the rejects never change the answer |
| Spheres.IntersectsBoxIsNearestTest | Common/Sphere.js:22-42 | the intended box test holds iff the sphere contains the box's point nearest to its centre |
| Spheres.IntersectsBoxExact | Common/Sphere.js:22-42 | the intended box test holds iff the closed box and the closed ball share a point |
| Spheres.CommonPointIntersectsBox | Common/Sphere.js:22-42 | a point contained by both the sphere and the box forces the box test |
| Spheres.TiersOverApproximate | Common/Sphere.js:30-36 | whenever the ball meets the box, the written tiers also accept |
| Spheres.EarlyAcceptCounterexample | Common/Sphere.js:34-36 | the written tiers accept a sphere that shares no point with the box |
| Spheres.CornerExample | Common/Sphere.js:22-42 | the intended test on a concrete box and sphere |
| Quadtrees.AreaContains | Common/Quadtree.js:43 | `area.contains(point)` for a rectangle or a circle area |
| Quadtrees.BoundsIntersectsAsWritten | Common/Quadtree.js:38 | `bounds.intersects(area)` as written; for a circle only the two tests not involving the missing `width` and `height` remain |
| Quadtrees.BoundsMeet | Common/Quadtree.js:38 | the corrected pruning test: rectangle overlap, or the circle's own rectangle test |
| Quadtrees.AllPoints | Common/Quadtree.js:48-53 | the node's own points, then those under nw, ne, sw and se |
| Quadtrees.InsertInto | Common/Quadtree.js:17-35 | `insert`: reject outside the bounds, append below capacity, else subdivide once and try the quadrants; bounds and capacity never change |
| Quadtrees.InsertIntoQuadrants | Common/Quadtree.js:30-33 | the nw, ne, sw, se chain of child inserts; the node stays divided |
| Quadtrees.Matching | Common/Quadtree.js:40-46 | the stored points the area contains, in order; never more than the input |
| Quadtrees.QueryTree | Common/Quadtree.js:36-56 | `query` with the corrected pruning: a node's matches, then its quadrants' |
| Quadtrees.QueryTreeAsWritten | Common/Quadtree.js:36-56 | `query` as written, pruning with `bounds.intersects(area)` |
| Quadtrees.PruneSound | Common/Quadtree.js:38 | a point inside both the bounds and the area makes the bounds meet the area |
| Quadtrees.QuadrantsTile | Common/Quadtree.js:8-16 | a point of the bounds lies in exactly one of nw, ne, sw, se; a point outside lies in none |
| Quadtrees.EmptyTree | Common/Quadtree.js:3-7 | a new node is well-formed and holds no points |
| Quadtrees.FreshQuadrants | Common/Quadtree.js:11-14 | the four new quadrants are well-formed children of the bounds and hold no points |
| Quadtrees.Subdivided | Common/Quadtree.js:8-16 | subdividing keeps the bounds, capacity and the node's own points |
| Quadtrees.Chain | Common/Quadtree.js:30-33 | the children chain accepts iff some child accepted |
| Quadtrees.InsertAll | Common/Quadtree.js:17-35 | repeated inserts keep the tree well-formed, with the same bounds and capacity |
| Quadtrees.InsertPreservesWellFormed | Common/Quadtree.js:17-35 | insert keeps the tree well-formed: points within bounds, at most `capacity` per node, children only on full nodes, each child the right quadrant |
| Quadtrees.InsertAccepts | Common/Quadtree.js:17-35 | insert returns true iff the bounds contain the point |
| Quadtrees.InsertAddsPoint | Common/Quadtree.js:17-35 | the multiset of stored points grows by the point exactly when it is accepted, and is otherwise unchanged |
| Quadtrees.FailedInsertKeeps | Common/Quadtree.js:19 | a rejected insert leaves the tree unchanged |
| Quadtrees.BelowCapacityAppends | Common/Quadtree.js:19-24 | a point outside the bounds is rejected; a point inside a node below capacity is appended to that node |
| Quadtrees.FullNodeKeepsPoints | Common/Quadtree.js:25-33 | inserting into a full node leaves its own points alone and routes the point to the children |
| Quadtrees.FillWithoutSplitting | Common/Quadtree.js:21-24 | up to `capacity` in-bounds points land in the node's own list, in order |
| Quadtrees.MatchingMembers | Common/Quadtree.js:40-46 | the matched points are exactly the stored points the area contains |
| Quadtrees.MatchingConcat | Common/Quadtree.js:40-46 | the filtering loop distributes over concatenation |
| Quadtrees.AllPointsInBounds | Common/Quadtree.js:17-35 | every stored point lies in the root's bounds |
| Quadtrees.NoMatchWhenPruned | Common/Quadtree.js:38 | when the bounds miss the area, none of the node's points can match |
| Quadtrees.QueryExact | Common/Quadtree.js:36-56 | the pruned query returns exactly the stored points the area contains, in storage order |
| Quadtrees.QueryTreeSteps | Common/Quadtree.js:40-53 | the accumulating order: own matches, then nw, ne, sw and se |
| Quadtrees.MatchingAllInBounds | Common/Quadtree.js:57-60 | querying with a rectangle that contains every point returns them all |
| Quadtrees.GetAllPointsExact | Common/Quadtree.js:57-60 | `getAllPoints` returns every stored point |
| Quadtrees.AsWrittenAgreesOnRectangles | Common/Quadtree.js:38 | for rectangle areas, the query as written equals the intended query |
| Quadtrees.CircleQueryMissesPoint | Common/Quadtree.js:38 | with a circle area, the query as written drops a point that the circle contains |
| Quadtrees.AppendMatching | Common/Quadtree.js:40-46 | the loop appends exactly the matching points to `matched` |
| Quadtrees.QueryInto | Common/Quadtree.js:36-56 | the recursive query returns `matched` followed by the query result |
| Quadtrees.Quadtree.constructor | Common/Quadtree.js:3-7 | a new node is empty and undivided |
| Quadtrees.Quadtree.Subdivide | Common/Quadtree.js:8-16 | the node becomes divided, with four fresh quadrants |
| Quadtrees.Quadtree.Insert | Common/Quadtree.js:17-35 | the new state is the insert of the value model; the node stays well-formed; it answers true iff the bounds contain the point; its stored multiset grows by the point iff accepted |
| Quadtrees.Quadtree.Query | Common/Quadtree.js:36-56 | returns `matched` (default empty) followed by the corrected query `QueryTree`; for a rectangle area this also equals `matched` followed by the as-written query |
| Quadtrees.Quadtree.GetAllPoints | Common/Quadtree.js:57-60 | returns every stored point |
| Quadtrees.Quadtree.GetRandomPoint | Common/Quadtree.js:61-65 | the pick for draw `u` among all stored points: none for an empty tree, else the point at index `floor(u * n)` |
| Octrees.VolumeContains | Geometry/Octree.js:52 | `volume.contains(point)` for a box or a sphere volume |
| Octrees.BoundsIntersectsAsWritten | Geometry/Octree.js:47 | `bounds.intersects(volume)` as written; for a sphere only the three tests not involving the missing extents remain |
| Octrees.BoundsMeet | Geometry/Octree.js:47 | the corrected pruning test: box overlap, or the sphere's intended box test |
| Octrees.AllPoints | Geometry/Octree.js:57-66 | the node's own points, then those under cell000 through cell111 |
| Octrees.InsertInto | Geometry/Octree.js:23-45 | `insert`: reject outside the bounds, append below capacity, else subdivide once and try the cells; bounds and capacity never change |
| Octrees.InsertIntoOctants | Geometry/Octree.js:36-43 | the cell000 … cell111 chain of child inserts; the node stays divided |
| Octrees.Matching | Geometry/Octree.js:49-55 | the stored points the volume contains, in order; never more than the input |
| Octrees.QueryTree | Geometry/Octree.js:46-69 | `query` with the corrected pruning: a node's matches, then its cells' |
| Octrees.QueryTreeAsWritten | Geometry/Octree.js:46-69 | `query` as written, pruning with `bounds.intersects(volume)` |
| Octrees.PruneSound | Geometry/Octree.js:47 | a point inside both the bounds and the volume makes the bounds meet the volume |
| Octrees.InOctant | Geometry/Octree.js:8-22 | a point of the bounds lies in the octant of the halves it falls in |
| Octrees.OctantDetermined | Geometry/Octree.js:8-22 | an octant containing a point is the one picked by the point's halves |
| Octrees.OctantsTile | Geometry/Octree.js:8-22 | a point of the bounds lies in exactly one of the eight cells; a point outside lies in none |
| Octrees.EmptyTree | Geometry/Octree.js:3-7 | a new node is well-formed and holds no points |
| Octrees.FreshOctants | Geometry/Octree.js:12-19 | the eight new cells are well-formed children of the bounds and hold no points |
| Octrees.FreshOctantsAreTheCells | Geometry/Octree.js:12-19 | the cells are the eight boxes with the source's corners and half extents |
| Octrees.Subdivided | Geometry/Octree.js:8-22 | subdividing keeps the bounds, capacity and the node's own points |
| Octrees.Chain | Geometry/Octree.js:36-43 | the cell chain accepts iff some cell accepted |
| Octrees.InsertAll | Geometry/Octree.js:23-45 | repeated inserts keep the tree well-formed, with the same bounds and capacity |
| Octrees.InsertPreservesWellFormed | Geometry/Octree.js:23-45 | insert keeps the tree well-formed |
| Octrees.InsertAccepts | Geometry/Octree.js:23-45 | insert returns true iff the bounds contain the point |
| Octrees.InsertAddsPoint | Geometry/Octree.js:23-45 | the multiset of stored points grows by the point exactly when it is accepted |
| Octrees.FailedInsertKeeps | Geometry/Octree.js:25 | a rejected insert leaves the tree unchanged |
| Octrees.BelowCapacityAppends | Geometry/Octree.js:25-30 | a point outside the bounds is rejected; a point inside a node below capacity is appended |
| Octrees.FullNodeKeepsPoints | Geometry/Octree.js:31-44 | inserting into a full node leaves its own points alone and routes the point to the cells |
| Octrees.FillWithoutSplitting | Geometry/Octree.js:27-30 | up to `capacity` in-bounds points land in the node's own list, in order |
| Octrees.MatchingMembers | Geometry/Octree.js:49-55 | the matched points are exactly the stored points the volume contains |
| Octrees.MatchingConcat | Geometry/Octree.js:49-55 | the filtering loop distributes over concatenation |
| Octrees.AllPointsInBounds | Geometry/Octree.js:23-45 | every stored point lies in the root's bounds |
| Octrees.NoMatchWhenPruned | Geometry/Octree.js:47 | when the bounds miss the volume, none of the node's points can match |
| Octrees.QueryExact | Geometry/Octree.js:46-69 | the pruned query returns exactly the stored points the volume contains, in storage order |
| Octrees.QueryTreeSteps | Geometry/Octree.js:49-66 | the accumulating order: own matches, then cell000 through cell111 |
| Octrees.MatchingAllInBounds | Geometry/Octree.js:70-73 | querying with a box that contains every point returns them all |
| Octrees.GetAllPointsExact | Geometry/Octree.js:70-73 | `getAllPoints` returns every stored point |
| Octrees.AsWrittenAgreesOnBoxes | Geometry/Octree.js:47 | for box volumes, the query as written equals the intended query |
| Octrees.SphereQueryMissesPoint | Geometry/Octree.js:47 | with a sphere volume, the query as written drops a point that the sphere contains |
| Octrees.AppendMatching | Geometry/Octree.js:49-55 | the loop appends exactly the matching points to `matched` |
| Octrees.QueryInto | Geometry/Octree.js:46-69 | the recursive query returns `matched` followed by the query result |
| Octrees.Octree.constructor | Geometry/Octree.js:3-7 | a new node is empty and undivided |
| Octrees.Octree.Subdivide | Geometry/Octree.js:8-22 | the node becomes divided, with the eight fresh cells |
| Octrees.Octree.Insert | Geometry/Octree.js:23-45 | the new state is the insert of the value model; the node stays well-formed; it answers true iff the bounds contain the point; its stored multiset grows by the point iff accepted |
| Octrees.Octree.InsertIntoCells | Geometry/Octree.js:36-43 | the cell chain of a divided node updates the cells as the value model does and leaves the node's own points alone |
| Octrees.Octree.Query | Geometry/Octree.js:46-69 | returns `matched` (default empty) followed by the corrected query `QueryTree`; for a box volume this also equals `matched` followed by the as-written query |
| Octrees.Octree.GetAllPoints | Geometry/Octree.js:70-73 | returns every stored point |
| Octrees.Octree.GetRandomPoint | Geometry/Octree.js:74-78 | the pick for draw `u` among all stored points: none for an empty tree, else the point at index `floor(u * n)` |
| RandomPoints.Pick | Common/Quadtree.js:64 | the element at index `floor(u * n)` for a draw `u` in [0, 1); empty exactly when the list is |
| RandomPoints.PickedFromList | Common/Quadtree.js:64 | a pick is always one of the listed points, and a draw below k/n picks one of the first k |
| Easing.Linear | Tween/easing.js:12-15 | the identity |
| Easing.EaseInQuad | Tween/easing.js:38-41 | `a * a` |
| Easing.EaseOutQuad | Tween/easing.js:43-46 | `-1 * a * (a - 2)` |
| Easing.EaseInOutQuad | Tween/easing.js:48-54 | `a /= 0.5`; below 1, `0.5 * a * a`; else `a--` and `-0.5 * (a * (a - 2) - 1)` |
| Easing.EaseInCubic | Tween/easing.js:59-62 | `a * a * a` |
| Easing.EaseOutCubic | Tween/easing.js:64-68 | `a--`, then `a * a * a + 1` |
| Easing.EaseInOutCubic | Tween/easing.js:70-76 | `a /= 0.5`; below 1, `0.5 * a^3`; else `a -= 2` and `0.5 * (a^3 + 2)` |
| Easing.EaseInQuart | Tween/easing.js:81-84 | `a^4` |
| Easing.EaseOutQuart | Tween/easing.js:86-90 | `a--`, then `-1 * (a^4 - 1)` |
| Easing.EaseInOutQuart | Tween/easing.js:92-98 | `a /= 0.5`; below 1, `0.5 * a^4`; else `a -= 2` and `-0.5 * (a^4 - 2)` |
| Easing.EaseInQuint | Tween/easing.js:103-106 | `a^5` |
| Easing.EaseOutQuint | Tween/easing.js:108-112 | `a--`, then `a^5 + 1` |
| Easing.EaseInOutQuint | Tween/easing.js:114-120 | `a /= 0.5`; below 1, `0.5 * a^5`; else `a -= 2` and `0.5 * (a^5 + 2)` |
| Easing.InIsPower | Tween/easing.js:38-106 | each ease-in is the plain power `a^n` of its degree (2, 3, 4 or 5) |
| Easing.InEndpoints | Tween/easing.js:12-106 | `linear` and every ease-in map 0 to 0 and 1 to 1 |
| Easing.OutReflectsIn | Tween/easing.js:43-112 | each ease-out is the point reflection of its ease-in: `out(a) = 1 - in(1 - a)` |
| Easing.InOutFirstHalf | Tween/easing.js:48-120 | below 0.5 an in-out easing is the ease-in compressed into the first half: `0.5 * in(2a)` |
| Easing.InOutSecondHalf | Tween/easing.js:48-120 | from 0.5 on, an in-out easing is the reflected ease-in: `1 - 0.5 * in(2 - 2a)` |
| Easing.InOutBranchesAgree | Tween/easing.js:48-120 | the two branches meet at 0.5, so the in-out easing is continuous there |
| Easing.InOutEndpoints | Tween/easing.js:48-120 | each in-out easing maps 0, 0.5 and 1 to 0, 0.5 and 1 |
| Easing.InOutSymmetric | Tween/easing.js:48-120 | each in-out easing is point-symmetric about (0.5, 0.5) |
| Easing.EasingRange | Tween/easing.js:12-120 | on [0, 1] every easing stays within [0, 1]; an in-out easing stays below 0.5 in the first half and above it in the second |
| Easing.EasingMonotone | Tween/easing.js:38-120 | on [0, 1] every ease-in, ease-out and in-out easing is non-decreasing |

## Left out

- `visualize` on both trees (Common/Quadtree.js:66-86, Geometry/Octree.js:79-110) only draws on a canvas, so it is left out.
- The sine and exponential easings (Tween/easing.js:20-33, 125-141) use `Math.sin`, `Math.cos` and `Math.pow` with a real exponent, which have no exact counterpart over the reals here.
- Floating point is not modelled: coordinates and easing inputs are exact reals, so rounding, NaN and infinities do not arise. The one place NaN matters, a query shape without `width` and `height`, is modelled explicitly.
- `Math.random` in `getRandomPoint` is a parameter `u` in [0, 1).
- `getRandomPoint` on an empty tree reads past the end and returns `undefined`; the model returns `None`.
- Quadtrees.Quadtree and Octrees.Octree hold their children as tree values in one field that is replaced as a whole, not as separate mutable node objects. The model therefore does not capture child nodes shared or aliased by outside references, or a child mutated through such a reference.
- Quadtrees.Quadtree.Query and Octrees.Octree.Query return the extended `matched` list as a new sequence. The caller's array is not pushed to in place, so a caller that keeps its own reference to `matched` is not modelled.
- Quadtrees.Quadtree.constructor and Octrees.Octree.constructor require `capacity >= 1`. With capacity 0, a node can never store a point, and insert subdivides without end.
- Quadtrees.Quadtree.Query and Octrees.Octree.Query compute the query with the corrected pruning test `BoundsMeet`, not the source's `bounds.intersects`. For rectangle and box areas the two are proved equal. For circle and sphere areas the source's behaviour is modelled only by `QueryTreeAsWritten`, which the class does not compute.
- The query as written is modelled only for a rectangle, circle, box or sphere area. Other objects with `contains` methods are not.
- Circle and sphere `intersects` read `radius`, `width`, `height` and `depth` off an arbitrary object. The model takes a closed choice: a circle or sphere, a rectangle or box, or something else, which never intersects.
- `Geometry/Circle.js` imports `./Vector` from its own directory. That file is not part of this model, and it is taken to be the factory of Common/Vector.js.

## Findings

| source | as written | input that shows it | evidently intended | confidence | as-written member | corrected member |
|---|---|---|---|---|---|---|
| Common/Sphere.js:24 | the box branch calls `Vector`, which Sphere.js never imports, so every sphere–box `intersects` throws `ReferenceError` | any sphere against any box, e.g. Sphere(0,0,0,1) with Box(0,0,0,1,1,1) | the nearest-point overlap test | not executed | Spheres.AsWrittenThrowsOnBoxes | Spheres.IntersectsBoxExact |
| Common/Sphere.js:34-36 | once no axis rejects, a centre within the half-extent on any single axis accepts, even when the other two gaps together exceed the radius | Sphere(5,17,17,8) with Box(0,0,0,10,10,10): dx = 0 accepts, yet the nearest box point (5,10,10) is at distance √98 > 8 | accept only when the ball meets the box | not executed | Spheres.EarlyAcceptCounterexample | Spheres.IntersectsBoxExact |
| Common/Quadtree.js:38 | with a circle as the area, `Rectangle.intersects` reads the circle's undefined `width` and `height`; those comparisons are false, so only the far edges are tested and nodes whose interior the circle overlaps are pruned | bounds Rectangle(0,0,10,10), capacity 1, holding (9.5,5); area Circle(11,5,2) contains the point, but the query returns [] | prune only when the area cannot meet the bounds | not executed | Quadtrees.CircleQueryMissesPoint | Quadtrees.QueryExact |
| Geometry/Octree.js:47 | the same with a sphere as the volume: `Box.intersects` compares only the sphere's centre against the box's far faces | bounds Box(0,0,0,10,10,10), capacity 1, holding (9.5,5,5); volume Sphere(11,5,5,2) contains the point, but the query returns [] | prune only when the volume cannot meet the bounds | not executed | Octrees.SphereQueryMissesPoint | Octrees.QueryExact |
