/** The point octree of Geometry/Octree.js, the three-dimensional sibling of
    the quadtree: a node holds up to `capacity` points; on the first insert
    past that it splits once into eight half-size octants and routes later
    points to the first octant that takes them, in the order cell000,
    cell100, cell010, cell110, cell001, cell101, cell011, cell111 (the digits
    say which half of x, y and z the octant covers). Queries prune nodes
    whose bounds miss the query volume.

    The tree is modelled as a value (`Tree`), on which insert and query and
    every lemma are stated; class `Octree` is the source's node, whose
    methods are proved to compute the value model. */
module Octrees {
  import opened Wrappers
  import opened Vectors
  import opened Boxes
  import Spheres
  import opened RandomPoints

  /** A query volume: the source passes any shape with `contains`. */
  datatype Volume = BoxVolume(box: Box) | SphereVolume(sphere: Spheres.Sphere)

  predicate VolumeContains(volume: Volume, p: Vector) {
    match volume
    case BoxVolume(o) => Contains(o, p)
    case SphereVolume(s) => Spheres.Contains(s, p)
  }

  /** `this.bounds.intersects(volume)` as written. Against a sphere,
      `Box.intersects` reads the sphere's `width`, `height` and `depth`, all
      `undefined`; the three comparisons that use them are NaN comparisons
      and false, so only the far faces are tested. */
  predicate BoundsIntersectsAsWritten(b: Box, volume: Volume) {
    match volume
    case BoxVolume(o) => Intersects(b, o)
    case SphereVolume(s) => !(s.x > b.x + b.width || s.y > b.y + b.height || s.z > b.z + b.depth)
  }

  /** The pruning test as intended: the overlap test of the two shapes, which
      for a sphere is the sphere's own test against the box. */
  predicate BoundsMeet(b: Box, volume: Volume) {
    match volume
    case BoxVolume(o) => Intersects(b, o)
    case SphereVolume(s) => Spheres.IntersectsBox(s, b)
  }

  /** Pruning is sound: a point inside both the bounds and the volume makes
      the bounds meet the volume. */
  lemma PruneSound(b: Box, volume: Volume, p: Vector)
    requires Contains(b, p) && VolumeContains(volume, p)
    ensures BoundsMeet(b, volume)
  {
    match volume
    case BoxVolume(o) => CommonPointIntersects(b, o, p);
    case SphereVolume(s) => Spheres.CommonPointIntersectsBox(s, b, p);
  }

  // ---------------------------------------------------------------------
  // Octants

  /** The octant of `b` in the upper half of x when `ox`, of y when `oy`,
      of z when `oz`: the boxes `subdivide` builds. */
  function Octant(b: Box, ox: bool, oy: bool, oz: bool): Box {
    Box(if ox then b.x + b.width / 2.0 else b.x,
        if oy then b.y + b.height / 2.0 else b.y,
        if oz then b.z + b.depth / 2.0 else b.z,
        b.width / 2.0, b.height / 2.0, b.depth / 2.0)
  }

  /** A point of `b` lies in the octant of the halves it falls in. */
  lemma InOctant(b: Box, p: Vector)
    requires Contains(b, p)
    ensures Contains(Octant(b, p.x >= b.x + b.width / 2.0, p.y >= b.y + b.height / 2.0, p.z >= b.z + b.depth / 2.0), p)
  {
  }

  /** An octant that contains a point is the one of the halves the point
      falls in, and the point lies in `b`. */
  lemma OctantDetermined(b: Box, ox: bool, oy: bool, oz: bool, p: Vector)
    requires Contains(Octant(b, ox, oy, oz), p)
    ensures Contains(b, p)
    ensures ox == (p.x >= b.x + b.width / 2.0)
    ensures oy == (p.y >= b.y + b.height / 2.0)
    ensures oz == (p.z >= b.z + b.depth / 2.0)
  {
  }

  /** How many of the eight octants of `b` contain `p`. */
  function Claims(b: Box, p: Vector): nat {
    (if Contains(Octant(b, false, false, false), p) then 1 else 0) +
    (if Contains(Octant(b, true, false, false), p) then 1 else 0) +
    (if Contains(Octant(b, false, true, false), p) then 1 else 0) +
    (if Contains(Octant(b, true, true, false), p) then 1 else 0) +
    (if Contains(Octant(b, false, false, true), p) then 1 else 0) +
    (if Contains(Octant(b, true, false, true), p) then 1 else 0) +
    (if Contains(Octant(b, false, true, true), p) then 1 else 0) +
    (if Contains(Octant(b, true, true, true), p) then 1 else 0)
  }

  /** The octants tile their parent exactly: a point of the parent lies in
      exactly one octant, and a point outside it in none. */
  lemma OctantsTile(b: Box, p: Vector)
    ensures Claims(b, p) == if Contains(b, p) then 1 else 0
  {
    if Contains(Octant(b, false, false, false), p) {
      OctantDetermined(b, false, false, false, p);
    }
    if Contains(Octant(b, true, false, false), p) {
      OctantDetermined(b, true, false, false, p);
    }
    if Contains(Octant(b, false, true, false), p) {
      OctantDetermined(b, false, true, false, p);
    }
    if Contains(Octant(b, true, true, false), p) {
      OctantDetermined(b, true, true, false, p);
    }
    if Contains(Octant(b, false, false, true), p) {
      OctantDetermined(b, false, false, true, p);
    }
    if Contains(Octant(b, true, false, true), p) {
      OctantDetermined(b, true, false, true, p);
    }
    if Contains(Octant(b, false, true, true), p) {
      OctantDetermined(b, false, true, true, p);
    }
    if Contains(Octant(b, true, true, true), p) {
      OctantDetermined(b, true, true, true, p);
    }
    if Contains(b, p) {
      InOctant(b, p);
    }
  }

  // ---------------------------------------------------------------------
  // The value model

  datatype Tree = Node(bounds: Box, capacity: nat, points: seq<Vector>, children: Octants)

  datatype Octants =
    | Undivided
    | Divided(c000: Tree, c100: Tree, c010: Tree, c110: Tree, c001: Tree, c101: Tree, c011: Tree, c111: Tree)

  /** A node as the factory makes it. */
  function EmptyTree(bounds: Box, capacity: nat): (t: Tree)
    ensures WellFormed(t) && AllPoints(t) == []
    ensures capacity >= 1 ==> Rank(t) == 0
  {
    var t := Node(bounds, capacity, [], Undivided);
    assert AllPoints(t) == [] + OctantsPoints(Undivided);
    t
  }

  /** The invariant every node reachable by the source's operations keeps:
      at most `capacity` points, all within the node's bounds; a divided
      node is full and its children are well-formed nodes over its eight
      octants. */
  predicate WellFormed(t: Tree)
    decreases t, 1
  {
    && |t.points| <= t.capacity
    && (forall p <- t.points :: Contains(t.bounds, p))
    && (t.children.Divided? ==>
         |t.points| == t.capacity && OctantsWellFormed(t.children, t.bounds, t.capacity))
  }

  /** Eight well-formed children of capacity `capacity` over the octants of `b`. */
  predicate OctantsWellFormed(k: Octants, b: Box, capacity: nat)
    decreases k, 0
  {
    && k.Divided?
    && k.c000.bounds == Octant(b, false, false, false) && k.c000.capacity == capacity && WellFormed(k.c000)
    && k.c100.bounds == Octant(b, true, false, false) && k.c100.capacity == capacity && WellFormed(k.c100)
    && k.c010.bounds == Octant(b, false, true, false) && k.c010.capacity == capacity && WellFormed(k.c010)
    && k.c110.bounds == Octant(b, true, true, false) && k.c110.capacity == capacity && WellFormed(k.c110)
    && k.c001.bounds == Octant(b, false, false, true) && k.c001.capacity == capacity && WellFormed(k.c001)
    && k.c101.bounds == Octant(b, true, false, true) && k.c101.capacity == capacity && WellFormed(k.c101)
    && k.c011.bounds == Octant(b, false, true, true) && k.c011.capacity == capacity && WellFormed(k.c011)
    && k.c111.bounds == Octant(b, true, true, true) && k.c111.capacity == capacity && WellFormed(k.c111)
  }

  /** A bound on how deep an insert can recurse; a fresh node has room and
      ranks 0. */
  function Rank(t: Tree): nat
    decreases t, 1
  {
    match t.children
    case Undivided => if |t.points| < t.capacity then 0 else 1
    case Divided(_, _, _, _, _, _, _, _) => 1 + OctantsRank(t.children)
  }

  function OctantsRank(k: Octants): nat
    decreases k, 0
  {
    match k
    case Undivided => 0
    case Divided(c000, c100, c010, c110, c001, c101, c011, c111) =>
      Rank(c000) + Rank(c100) + Rank(c010) + Rank(c110) + Rank(c001) + Rank(c101) + Rank(c011) + Rank(c111)
  }

  /** Every stored point: the node's own, then those under each octant in
      the source's order. */
  function AllPoints(t: Tree): seq<Vector>
    decreases t, 1
  {
    t.points + OctantsPoints(t.children)
  }

  function OctantsPoints(k: Octants): seq<Vector>
    decreases k, 0
  {
    match k
    case Undivided => []
    case Divided(c000, c100, c010, c110, c001, c101, c011, c111) =>
      AllPoints(c000) + AllPoints(c100) + AllPoints(c010) + AllPoints(c110) + AllPoints(c001) + AllPoints(c101) + AllPoints(c011) + AllPoints(c111)
  }

  /** The fresh octants `subdivide` creates. */
  function FreshOctants(b: Box, capacity: nat): (k: Octants)
    ensures OctantsWellFormed(k, b, capacity) && OctantsPoints(k) == []
    ensures capacity >= 1 ==> OctantsRank(k) == 0
  {
    Divided(EmptyTree(Octant(b, false, false, false), capacity),
            EmptyTree(Octant(b, true, false, false), capacity),
            EmptyTree(Octant(b, false, true, false), capacity),
            EmptyTree(Octant(b, true, true, false), capacity),
            EmptyTree(Octant(b, false, false, true), capacity),
            EmptyTree(Octant(b, true, false, true), capacity),
            EmptyTree(Octant(b, false, true, true), capacity),
            EmptyTree(Octant(b, true, true, true), capacity))
  }

  /** The octants written out as `subdivide` builds them. */
  lemma FreshOctantsAreTheCells(b: Box, capacity: nat)
    ensures var x, y, z := b.x, b.y, b.z;
      var w, h, d := b.width / 2.0, b.height / 2.0, b.depth / 2.0;
      FreshOctants(b, capacity)
      == Divided(EmptyTree(Box(x, y, z, w, h, d), capacity),
                 EmptyTree(Box(x + w, y, z, w, h, d), capacity),
                 EmptyTree(Box(x, y + h, z, w, h, d), capacity),
                 EmptyTree(Box(x + w, y + h, z, w, h, d), capacity),
                 EmptyTree(Box(x, y, z + d, w, h, d), capacity),
                 EmptyTree(Box(x + w, y, z + d, w, h, d), capacity),
                 EmptyTree(Box(x, y + h, z + d, w, h, d), capacity),
                 EmptyTree(Box(x + w, y + h, z + d, w, h, d), capacity))
  {
  }

  /** `subdivide`: eight empty octant nodes of the same capacity. */
  function Subdivided(t: Tree): (s: Tree)
    ensures s.bounds == t.bounds && s.capacity == t.capacity && s.points == t.points
  {
    t.(children := FreshOctants(t.bounds, t.capacity))
  }

  /** `insert`: the new tree and what the call returns. */
  function InsertInto(t: Tree, p: Vector): (r: (Tree, bool))
    requires WellFormed(t) && t.capacity >= 1
    ensures r.0.bounds == t.bounds && r.0.capacity == t.capacity
    decreases 2 * Rank(t)
  {
    if !Contains(t.bounds, p) then (t, false)
    else if |t.points| < t.capacity then (t.(points := t.points + [p]), true)
    else
      var k := if t.children.Undivided? then FreshOctants(t.bounds, t.capacity) else t.children;
      var r := InsertIntoOctants(k, t.bounds, t.capacity, p);
      (t.(children := r.0), r.1)
  }

  /** The chain of child inserts in `insert`, tried in the source's order
      until one succeeds. */
  function InsertIntoOctants(k: Octants, b: Box, capacity: nat, p: Vector): (r: (Octants, bool))
    requires OctantsWellFormed(k, b, capacity) && capacity >= 1
    ensures r.0.Divided?
    decreases 2 * OctantsRank(k) + 1
  {
    Chain(k, InsertInto(k.c000, p), InsertInto(k.c100, p), InsertInto(k.c010, p), InsertInto(k.c110, p), InsertInto(k.c001, p), InsertInto(k.c101, p), InsertInto(k.c011, p), InsertInto(k.c111, p))
  }

  /** How the chain combines what each child insert would return: the first
      child that accepts the point is replaced by its new value and later
      children are left as they were (the value of an insert that is never
      made is discarded). When none accepts, the source falls off the end and
      returns `undefined`, which every caller reads as false. */
  function Chain(k: Octants, c000: (Tree, bool), c100: (Tree, bool), c010: (Tree, bool), c110: (Tree, bool), c001: (Tree, bool), c101: (Tree, bool), c011: (Tree, bool), c111: (Tree, bool)): (r: (Octants, bool))
    requires k.Divided?
    ensures r.0.Divided?
    ensures r.1 == (c000.1 || c100.1 || c010.1 || c110.1 || c001.1 || c101.1 || c011.1 || c111.1)
  {
    if c000.1 then (Divided(c000.0, k.c100, k.c010, k.c110, k.c001, k.c101, k.c011, k.c111), true)
    else if c100.1 then (Divided(c000.0, c100.0, k.c010, k.c110, k.c001, k.c101, k.c011, k.c111), true)
    else if c010.1 then (Divided(c000.0, c100.0, c010.0, k.c110, k.c001, k.c101, k.c011, k.c111), true)
    else if c110.1 then (Divided(c000.0, c100.0, c010.0, c110.0, k.c001, k.c101, k.c011, k.c111), true)
    else if c001.1 then (Divided(c000.0, c100.0, c010.0, c110.0, c001.0, k.c101, k.c011, k.c111), true)
    else if c101.1 then (Divided(c000.0, c100.0, c010.0, c110.0, c001.0, c101.0, k.c011, k.c111), true)
    else if c011.1 then (Divided(c000.0, c100.0, c010.0, c110.0, c001.0, c101.0, c011.0, k.c111), true)
    else (Divided(c000.0, c100.0, c010.0, c110.0, c001.0, c101.0, c011.0, c111.0), c111.1)
  }

  /** The points of `ps` that `volume` contains, in order. */
  function Matching(ps: seq<Vector>, volume: Volume): (r: seq<Vector>)
    ensures |r| <= |ps|
  {
    if ps == [] then []
    else
      var last := ps[|ps| - 1];
      Matching(ps[..|ps| - 1], volume) + if VolumeContains(volume, last) then [last] else []
  }

  /** Matching keeps exactly the points of `ps` the volume contains. */
  lemma {:induction false} MatchingMembers(ps: seq<Vector>, volume: Volume)
    ensures forall q :: q in Matching(ps, volume) <==> q in ps && VolumeContains(volume, q)
    decreases |ps|
  {
    if ps != [] {
      var init := ps[..|ps| - 1];
      MatchingMembers(init, volume);
      assert ps == init + [ps[|ps| - 1]];
    }
  }

  /** `query`, with the pruning test as intended: nothing from a node whose
      bounds miss the volume; otherwise the node's matching points, then what
      each octant contributes, in the source's order. */
  function QueryTree(t: Tree, volume: Volume): seq<Vector>
    decreases t, 1
  {
    if !BoundsMeet(t.bounds, volume) then []
    else Matching(t.points, volume) + QueryOctants(t.children, volume)
  }

  function QueryOctants(k: Octants, volume: Volume): seq<Vector>
    decreases k, 0
  {
    match k
    case Undivided => []
    case Divided(c000, c100, c010, c110, c001, c101, c011, c111) =>
      QueryTree(c000, volume) + QueryTree(c100, volume) + QueryTree(c010, volume) + QueryTree(c110, volume) + QueryTree(c001, volume) + QueryTree(c101, volume) + QueryTree(c011, volume) + QueryTree(c111, volume)
  }

  /** `query` as written, pruning with BoundsIntersectsAsWritten. */
  function QueryTreeAsWritten(t: Tree, volume: Volume): seq<Vector>
    decreases t, 1
  {
    if !BoundsIntersectsAsWritten(t.bounds, volume) then []
    else Matching(t.points, volume) + QueryOctantsAsWritten(t.children, volume)
  }

  function QueryOctantsAsWritten(k: Octants, volume: Volume): seq<Vector>
    decreases k, 0
  {
    match k
    case Undivided => []
    case Divided(c000, c100, c010, c110, c001, c101, c011, c111) =>
      QueryTreeAsWritten(c000, volume) + QueryTreeAsWritten(c100, volume) + QueryTreeAsWritten(c010, volume) + QueryTreeAsWritten(c110, volume) + QueryTreeAsWritten(c001, volume) + QueryTreeAsWritten(c101, volume) + QueryTreeAsWritten(c011, volume) + QueryTreeAsWritten(c111, volume)
  }

  /** Inserting several points in turn. */
  function InsertAll(t: Tree, ps: seq<Vector>): (r: Tree)
    requires WellFormed(t) && t.capacity >= 1
    ensures WellFormed(r) && r.bounds == t.bounds && r.capacity == t.capacity
    decreases |ps|
  {
    if ps == [] then t
    else
      InsertPreservesWellFormed(t, ps[0]);
      InsertAll(InsertInto(t, ps[0]).0, ps[1..])
  }

  // ---------------------------------------------------------------------
  // Lemmas about insert

  /** Insert keeps the invariant. */
  lemma {:induction false} InsertPreservesWellFormed(t: Tree, p: Vector)
    requires WellFormed(t) && t.capacity >= 1
    ensures WellFormed(InsertInto(t, p).0)
    decreases 2 * Rank(t)
  {
    if Contains(t.bounds, p) && |t.points| >= t.capacity {
      var k := if t.children.Undivided? then FreshOctants(t.bounds, t.capacity) else t.children;
      OctantsInsertPreservesWellFormed(k, t.bounds, t.capacity, p);
    }
  }

  lemma {:induction false} OctantsInsertPreservesWellFormed(k: Octants, b: Box, capacity: nat, p: Vector)
    requires OctantsWellFormed(k, b, capacity) && capacity >= 1
    ensures OctantsWellFormed(InsertIntoOctants(k, b, capacity, p).0, b, capacity)
    decreases 2 * OctantsRank(k) + 1
  {
    InsertPreservesWellFormed(k.c000, p);
    InsertPreservesWellFormed(k.c100, p);
    InsertPreservesWellFormed(k.c010, p);
    InsertPreservesWellFormed(k.c110, p);
    InsertPreservesWellFormed(k.c001, p);
    InsertPreservesWellFormed(k.c101, p);
    InsertPreservesWellFormed(k.c011, p);
    InsertPreservesWellFormed(k.c111, p);
  }

  /** Insert succeeds exactly for the points the node's bounds contain: with
      the octants tiling their parent, a point in bounds is never lost. */
  lemma {:induction false} InsertAccepts(t: Tree, p: Vector)
    requires WellFormed(t) && t.capacity >= 1
    ensures InsertInto(t, p).1 == Contains(t.bounds, p)
    decreases 2 * Rank(t)
  {
    if Contains(t.bounds, p) && |t.points| >= t.capacity {
      var k := if t.children.Undivided? then FreshOctants(t.bounds, t.capacity) else t.children;
      OctantsAccept(k, t.bounds, t.capacity, p);
    }
  }

  lemma {:induction false} OctantsAccept(k: Octants, b: Box, capacity: nat, p: Vector)
    requires OctantsWellFormed(k, b, capacity) && capacity >= 1
    ensures InsertIntoOctants(k, b, capacity, p).1 == Contains(b, p)
    decreases 2 * OctantsRank(k) + 1
  {
    InsertAccepts(k.c000, p);
    InsertAccepts(k.c100, p);
    InsertAccepts(k.c010, p);
    InsertAccepts(k.c110, p);
    InsertAccepts(k.c001, p);
    InsertAccepts(k.c101, p);
    InsertAccepts(k.c011, p);
    InsertAccepts(k.c111, p);
    OctantsTile(b, p);
  }

  /** A successful insert adds exactly its point to the stored points; a
      failed one adds nothing. */
  lemma {:induction false} InsertAddsPoint(t: Tree, p: Vector)
    requires WellFormed(t) && t.capacity >= 1
    ensures AddsPoint(t, p)
    decreases 2 * Rank(t)
  {
    if Contains(t.bounds, p) && |t.points| >= t.capacity {
      var k := if t.children.Undivided? then FreshOctants(t.bounds, t.capacity) else t.children;
      assert OctantsPoints(k) == OctantsPoints(t.children);
      OctantsAddPoint(k, t.bounds, t.capacity, p);
    }
  }

  lemma {:induction false} OctantsAddPoint(k: Octants, b: Box, capacity: nat, p: Vector)
    requires OctantsWellFormed(k, b, capacity) && capacity >= 1
    ensures multiset(OctantsPoints(InsertIntoOctants(k, b, capacity, p).0))
            == multiset(OctantsPoints(k)) + Grown(InsertIntoOctants(k, b, capacity, p).1, p)
    decreases 2 * OctantsRank(k) + 1
  {
    InsertAddsPoint(k.c000, p);
    FailedInsertKeeps(k.c000, p);
    InsertAddsPoint(k.c100, p);
    FailedInsertKeeps(k.c100, p);
    InsertAddsPoint(k.c010, p);
    FailedInsertKeeps(k.c010, p);
    InsertAddsPoint(k.c110, p);
    FailedInsertKeeps(k.c110, p);
    InsertAddsPoint(k.c001, p);
    FailedInsertKeeps(k.c001, p);
    InsertAddsPoint(k.c101, p);
    FailedInsertKeeps(k.c101, p);
    InsertAddsPoint(k.c011, p);
    FailedInsertKeeps(k.c011, p);
    InsertAddsPoint(k.c111, p);
    FailedInsertKeeps(k.c111, p);
    ChainAddsPoint(k, InsertInto(k.c000, p), InsertInto(k.c100, p), InsertInto(k.c010, p), InsertInto(k.c110, p), InsertInto(k.c001, p), InsertInto(k.c101, p), InsertInto(k.c011, p), InsertInto(k.c111, p), p);
  }

  /** The bookkeeping of the chain, given what each child insert does to
      its own points: an octant that takes the point grows by it, one that
      refuses it is left as it was. */
  lemma ChainAddsPoint(k: Octants, c000: (Tree, bool), c100: (Tree, bool), c010: (Tree, bool), c110: (Tree, bool), c001: (Tree, bool), c101: (Tree, bool), c011: (Tree, bool), c111: (Tree, bool), p: Vector)
    requires k.Divided?
    requires c000.1 ==> Bag(c000.0) == Bag(k.c000) + multiset{p}
    requires !c000.1 ==> c000.0 == k.c000
    requires c100.1 ==> Bag(c100.0) == Bag(k.c100) + multiset{p}
    requires !c100.1 ==> c100.0 == k.c100
    requires c010.1 ==> Bag(c010.0) == Bag(k.c010) + multiset{p}
    requires !c010.1 ==> c010.0 == k.c010
    requires c110.1 ==> Bag(c110.0) == Bag(k.c110) + multiset{p}
    requires !c110.1 ==> c110.0 == k.c110
    requires c001.1 ==> Bag(c001.0) == Bag(k.c001) + multiset{p}
    requires !c001.1 ==> c001.0 == k.c001
    requires c101.1 ==> Bag(c101.0) == Bag(k.c101) + multiset{p}
    requires !c101.1 ==> c101.0 == k.c101
    requires c011.1 ==> Bag(c011.0) == Bag(k.c011) + multiset{p}
    requires !c011.1 ==> c011.0 == k.c011
    requires c111.1 ==> Bag(c111.0) == Bag(k.c111) + multiset{p}
    requires !c111.1 ==> c111.0 == k.c111
    ensures multiset(OctantsPoints(Chain(k, c000, c100, c010, c110, c001, c101, c011, c111).0))
            == multiset(OctantsPoints(k)) + Grown(Chain(k, c000, c100, c010, c110, c001, c101, c011, c111).1, p)
  {
    if c000.1 {
      GrowsAtC000(k, c000.0, multiset{p});
    } else if c100.1 {
      GrowsAtC100(k, c100.0, multiset{p});
    } else if c010.1 {
      GrowsAtC010(k, c010.0, multiset{p});
    } else if c110.1 {
      GrowsAtC110(k, c110.0, multiset{p});
    } else if c001.1 {
      GrowsAtC001(k, c001.0, multiset{p});
    } else if c101.1 {
      GrowsAtC101(k, c101.0, multiset{p});
    } else if c011.1 {
      GrowsAtC011(k, c011.0, multiset{p});
    } else if c111.1 {
      GrowsAtC111(k, c111.0, multiset{p});
    } else {
      assert Chain(k, c000, c100, c010, c110, c001, c101, c011, c111).0 == k;
    }
  }

  lemma GrowsAtC000(k: Octants, t: Tree, e: multiset<Vector>)
    requires k.Divided? && Bag(t) == Bag(k.c000) + e
    ensures multiset(OctantsPoints(k.(c000 := t))) == multiset(OctantsPoints(k)) + e
  {
    OctantsPointsSplit(k);
    OctantsPointsSplit(k.(c000 := t));
  }

  lemma GrowsAtC100(k: Octants, t: Tree, e: multiset<Vector>)
    requires k.Divided? && Bag(t) == Bag(k.c100) + e
    ensures multiset(OctantsPoints(k.(c100 := t))) == multiset(OctantsPoints(k)) + e
  {
    OctantsPointsSplit(k);
    OctantsPointsSplit(k.(c100 := t));
  }

  lemma GrowsAtC010(k: Octants, t: Tree, e: multiset<Vector>)
    requires k.Divided? && Bag(t) == Bag(k.c010) + e
    ensures multiset(OctantsPoints(k.(c010 := t))) == multiset(OctantsPoints(k)) + e
  {
    OctantsPointsSplit(k);
    OctantsPointsSplit(k.(c010 := t));
  }

  lemma GrowsAtC110(k: Octants, t: Tree, e: multiset<Vector>)
    requires k.Divided? && Bag(t) == Bag(k.c110) + e
    ensures multiset(OctantsPoints(k.(c110 := t))) == multiset(OctantsPoints(k)) + e
  {
    OctantsPointsSplit(k);
    OctantsPointsSplit(k.(c110 := t));
  }

  lemma GrowsAtC001(k: Octants, t: Tree, e: multiset<Vector>)
    requires k.Divided? && Bag(t) == Bag(k.c001) + e
    ensures multiset(OctantsPoints(k.(c001 := t))) == multiset(OctantsPoints(k)) + e
  {
    OctantsPointsSplit(k);
    OctantsPointsSplit(k.(c001 := t));
  }

  lemma GrowsAtC101(k: Octants, t: Tree, e: multiset<Vector>)
    requires k.Divided? && Bag(t) == Bag(k.c101) + e
    ensures multiset(OctantsPoints(k.(c101 := t))) == multiset(OctantsPoints(k)) + e
  {
    OctantsPointsSplit(k);
    OctantsPointsSplit(k.(c101 := t));
  }

  lemma GrowsAtC011(k: Octants, t: Tree, e: multiset<Vector>)
    requires k.Divided? && Bag(t) == Bag(k.c011) + e
    ensures multiset(OctantsPoints(k.(c011 := t))) == multiset(OctantsPoints(k)) + e
  {
    OctantsPointsSplit(k);
    OctantsPointsSplit(k.(c011 := t));
  }

  lemma GrowsAtC111(k: Octants, t: Tree, e: multiset<Vector>)
    requires k.Divided? && Bag(t) == Bag(k.c111) + e
    ensures multiset(OctantsPoints(k.(c111 := t))) == multiset(OctantsPoints(k)) + e
  {
    OctantsPointsSplit(k);
    OctantsPointsSplit(k.(c111 := t));
  }

  /** What a successful insert of `p` adds: `p`, or nothing. */
  function Grown(ok: bool, p: Vector): multiset<Vector> {
    if ok then multiset{p} else multiset{}
  }

  /** The stored points of a node, as a multiset. */
  function Bag(t: Tree): multiset<Vector> {
    multiset(AllPoints(t))
  }

  /** What InsertAddsPoint states about one node. */
  predicate AddsPoint(t: Tree, p: Vector)
    requires WellFormed(t) && t.capacity >= 1
  {
    Bag(InsertInto(t, p).0) == Bag(t) + Grown(InsertInto(t, p).1, p)
  }

  lemma OctantsPointsSplit(k: Octants)
    requires k.Divided?
    ensures multiset(OctantsPoints(k)) == Bag(k.c000) + Bag(k.c100) + Bag(k.c010) + Bag(k.c110) + Bag(k.c001) + Bag(k.c101) + Bag(k.c011) + Bag(k.c111)
  {
  }

  /** A failed insert leaves the node as it was. */
  lemma FailedInsertKeeps(t: Tree, p: Vector)
    requires WellFormed(t) && t.capacity >= 1
    ensures !InsertInto(t, p).1 ==> InsertInto(t, p).0 == t
  {
    InsertAccepts(t, p);
  }

  /** Below capacity the point is appended to this node and the node does not
      split; a point outside the bounds changes nothing. */
  lemma BelowCapacityAppends(t: Tree, p: Vector)
    requires WellFormed(t) && t.capacity >= 1
    ensures !Contains(t.bounds, p) ==> InsertInto(t, p) == (t, false)
    ensures Contains(t.bounds, p) && |t.points| < t.capacity ==>
      InsertInto(t, p) == (t.(points := t.points + [p]), true) && t.children.Undivided?
  {
  }

  /** Once full, a node keeps its points: they never move into the octants;
      it splits on the first overflow and stays split over the same octants. */
  lemma FullNodeKeepsPoints(t: Tree, p: Vector)
    requires WellFormed(t) && t.capacity >= 1 && Contains(t.bounds, p)
    requires |t.points| == t.capacity
    ensures InsertInto(t, p).0.points == t.points
    ensures OctantsWellFormed(InsertInto(t, p).0.children, t.bounds, t.capacity)
  {
    InsertPreservesWellFormed(t, p);
  }

  /** A node takes points without splitting until it holds `capacity` of them. */
  lemma {:induction false} FillWithoutSplitting(t: Tree, ps: seq<Vector>)
    requires WellFormed(t) && t.capacity >= 1 && t.children.Undivided?
    requires |t.points| + |ps| <= t.capacity
    requires forall q <- ps :: Contains(t.bounds, q)
    ensures InsertAll(t, ps) == t.(points := t.points + ps)
    decreases |ps|
  {
    if ps != [] {
      var t' := t.(points := t.points + [ps[0]]);
      assert InsertInto(t, ps[0]).0 == t';
      FillWithoutSplitting(t', ps[1..]);
      assert t'.points + ps[1..] == t.points + ps;
    }
  }

  // ---------------------------------------------------------------------
  // Lemmas about query

  lemma {:induction false} MatchingConcat(a: seq<Vector>, b: seq<Vector>, volume: Volume)
    ensures Matching(a + b, volume) == Matching(a, volume) + Matching(b, volume)
    decreases |b|
  {
    if b == [] {
      assert a + b == a;
    } else {
      var b' := b[..|b| - 1];
      assert (a + b)[..|a + b| - 1] == a + b';
      MatchingConcat(a, b', volume);
    }
  }

  /** Every point stored under a node lies in that node's bounds. */
  lemma {:induction false} AllPointsInBounds(t: Tree)
    requires WellFormed(t)
    ensures forall q <- AllPoints(t) :: Contains(t.bounds, q)
    decreases t, 1
  {
    if t.children.Divided? {
      OctantsPointsInBounds(t.children, t.bounds, t.capacity);
    }
  }

  lemma {:induction false} OctantsPointsInBounds(k: Octants, b: Box, capacity: nat)
    requires OctantsWellFormed(k, b, capacity)
    ensures forall q <- OctantsPoints(k) :: Contains(b, q)
    decreases k, 0
  {
    AllPointsInBounds(k.c000);
    AllPointsInBounds(k.c100);
    AllPointsInBounds(k.c010);
    AllPointsInBounds(k.c110);
    AllPointsInBounds(k.c001);
    AllPointsInBounds(k.c101);
    AllPointsInBounds(k.c011);
    AllPointsInBounds(k.c111);
    forall q <- OctantsPoints(k)
      ensures Contains(b, q)
    {
      OctantsTile(b, q);
    }
  }

  /** Nothing in a list of points inside `b` matches a volume that `b` does
      not meet. */
  lemma {:induction false} NoMatchWhenPruned(ps: seq<Vector>, b: Box, volume: Volume)
    requires forall q <- ps :: Contains(b, q)
    requires !BoundsMeet(b, volume)
    ensures Matching(ps, volume) == []
    decreases |ps|
  {
    if ps != [] {
      var last := ps[|ps| - 1];
      if VolumeContains(volume, last) {
        PruneSound(b, volume, last);
      }
      NoMatchWhenPruned(ps[..|ps| - 1], b, volume);
    }
  }

  /** Query correctness: pruning never drops a match and never adds one;
      the query returns exactly the stored points the volume contains, in
      the order of AllPoints. */
  lemma {:induction false} QueryExact(t: Tree, volume: Volume)
    requires WellFormed(t)
    ensures QueryTree(t, volume) == Matching(AllPoints(t), volume)
    decreases t, 1
  {
    if !BoundsMeet(t.bounds, volume) {
      AllPointsInBounds(t);
      NoMatchWhenPruned(AllPoints(t), t.bounds, volume);
    } else {
      OctantsQueryExact(t.children, t.bounds, t.capacity, volume);
      MatchingConcat(t.points, OctantsPoints(t.children), volume);
    }
  }

  lemma {:induction false} OctantsQueryExact(k: Octants, b: Box, capacity: nat, volume: Volume)
    requires k.Divided? ==> OctantsWellFormed(k, b, capacity)
    ensures QueryOctants(k, volume) == Matching(OctantsPoints(k), volume)
    decreases k, 0
  {
    if k.Divided? {
      QueryExact(k.c000, volume);
      QueryExact(k.c100, volume);
      QueryExact(k.c010, volume);
      QueryExact(k.c110, volume);
      QueryExact(k.c001, volume);
      QueryExact(k.c101, volume);
      QueryExact(k.c011, volume);
      QueryExact(k.c111, volume);
      var p0, p1, p2, p3, p4, p5, p6, p7 := AllPoints(k.c000), AllPoints(k.c100), AllPoints(k.c010), AllPoints(k.c110), AllPoints(k.c001), AllPoints(k.c101), AllPoints(k.c011), AllPoints(k.c111);
      MatchingConcat((p0 + p1 + p2 + p3 + p4 + p5 + p6), p7, volume);
      MatchingConcat((p0 + p1 + p2 + p3 + p4 + p5), p6, volume);
      MatchingConcat((p0 + p1 + p2 + p3 + p4), p5, volume);
      MatchingConcat((p0 + p1 + p2 + p3), p4, volume);
      MatchingConcat((p0 + p1 + p2), p3, volume);
      MatchingConcat((p0 + p1), p2, volume);
      MatchingConcat(p0, p1, volume);
    }
  }

  /** One level of `query`, as the accumulator grows: the node's own
      matches, then the octants' answers in order. */
  lemma QueryTreeSteps(t: Tree, volume: Volume, m: seq<Vector>)
    requires BoundsMeet(t.bounds, volume)
    ensures t.children.Undivided? ==> m + QueryTree(t, volume) == m + Matching(t.points, volume)
    ensures t.children.Divided? ==>
      m + QueryTree(t, volume)
      == m + Matching(t.points, volume)
           + QueryTree(t.children.c000, volume)
           + QueryTree(t.children.c100, volume)
           + QueryTree(t.children.c010, volume)
           + QueryTree(t.children.c110, volume)
           + QueryTree(t.children.c001, volume)
           + QueryTree(t.children.c101, volume)
           + QueryTree(t.children.c011, volume)
           + QueryTree(t.children.c111, volume)
  {
    var own := Matching(t.points, volume);
    assert QueryTree(t, volume) == own + QueryOctants(t.children, volume);
    if t.children.Divided? {
      var k := t.children;
      ConcatRegroup(m, own, QueryTree(k.c000, volume), QueryTree(k.c100, volume), QueryTree(k.c010, volume), QueryTree(k.c110, volume), QueryTree(k.c001, volume), QueryTree(k.c101, volume), QueryTree(k.c011, volume), QueryTree(k.c111, volume));
    } else {
      assert QueryOctants(t.children, volume) == [];
      assert own + [] == own;
    }
  }

  lemma ConcatRegroup(m: seq<Vector>, own: seq<Vector>, s0: seq<Vector>, s1: seq<Vector>, s2: seq<Vector>, s3: seq<Vector>, s4: seq<Vector>, s5: seq<Vector>, s6: seq<Vector>, s7: seq<Vector>)
    ensures m + (own + (s0 + s1 + s2 + s3 + s4 + s5 + s6 + s7)) == m + own + s0 + s1 + s2 + s3 + s4 + s5 + s6 + s7
  {
  }

  /** Matching a list all of whose points lie in `b` against `b` itself keeps
      the whole list. */
  lemma {:induction false} MatchingAllInBounds(ps: seq<Vector>, b: Box)
    requires forall q <- ps :: Contains(b, q)
    ensures Matching(ps, BoxVolume(b)) == ps
    decreases |ps|
  {
    if ps != [] {
      MatchingAllInBounds(ps[..|ps| - 1], b);
      assert ps[..|ps| - 1] + [ps[|ps| - 1]] == ps;
    }
  }

  /** `getAllPoints`, the query of a node's own bounds, returns every stored
      point. */
  lemma GetAllPointsExact(t: Tree)
    requires WellFormed(t)
    ensures QueryTree(t, BoxVolume(t.bounds)) == AllPoints(t)
  {
    QueryExact(t, BoxVolume(t.bounds));
    AllPointsInBounds(t);
    MatchingAllInBounds(AllPoints(t), t.bounds);
  }

  /** With a box as the volume, the written pruning is the intended one. */
  lemma {:induction false} AsWrittenAgreesOnBoxes(t: Tree, o: Box)
    ensures QueryTreeAsWritten(t, BoxVolume(o)) == QueryTree(t, BoxVolume(o))
    decreases t, 1
  {
    OctantsAsWrittenAgree(t.children, o);
  }

  lemma {:induction false} OctantsAsWrittenAgree(k: Octants, o: Box)
    ensures QueryOctantsAsWritten(k, BoxVolume(o)) == QueryOctants(k, BoxVolume(o))
    decreases k, 0
  {
    if k.Divided? {
      AsWrittenAgreesOnBoxes(k.c000, o);
      AsWrittenAgreesOnBoxes(k.c100, o);
      AsWrittenAgreesOnBoxes(k.c010, o);
      AsWrittenAgreesOnBoxes(k.c110, o);
      AsWrittenAgreesOnBoxes(k.c001, o);
      AsWrittenAgreesOnBoxes(k.c101, o);
      AsWrittenAgreesOnBoxes(k.c011, o);
      AsWrittenAgreesOnBoxes(k.c111, o);
    }
  }

  /** With a sphere as the volume, the written pruning drops a match: a
      sphere of radius 2 centred at (11, 5, 5) contains the stored point
      (9.5, 5, 5) of the cube [0, 10)^3, but its centre lies beyond the
      cube's x face, so the written test prunes the node and the query
      returns nothing. */
  lemma SphereQueryMissesPoint()
    ensures WellFormed(Node(Box(0.0, 0.0, 0.0, 10.0, 10.0, 10.0), 1, [Vector3(9.5, 5.0, 5.0)], Undivided))
    ensures Spheres.Contains(Spheres.Sphere(11.0, 5.0, 5.0, 2.0), Vector3(9.5, 5.0, 5.0))
    ensures QueryTreeAsWritten(Node(Box(0.0, 0.0, 0.0, 10.0, 10.0, 10.0), 1, [Vector3(9.5, 5.0, 5.0)], Undivided),
                               SphereVolume(Spheres.Sphere(11.0, 5.0, 5.0, 2.0))) == []
    ensures QueryTree(Node(Box(0.0, 0.0, 0.0, 10.0, 10.0, 10.0), 1, [Vector3(9.5, 5.0, 5.0)], Undivided),
                      SphereVolume(Spheres.Sphere(11.0, 5.0, 5.0, 2.0))) == [Vector3(9.5, 5.0, 5.0)]
  {
    var t := Node(Box(0.0, 0.0, 0.0, 10.0, 10.0, 10.0), 1, [Vector3(9.5, 5.0, 5.0)], Undivided);
    var volume := SphereVolume(Spheres.Sphere(11.0, 5.0, 5.0, 2.0));
    QueryExact(t, volume);
    assert AllPoints(t) == [Vector3(9.5, 5.0, 5.0)];
    assert Matching([Vector3(9.5, 5.0, 5.0)], volume) == Matching([], volume) + [Vector3(9.5, 5.0, 5.0)];
  }

  /** The loop in `query` over a node's own points: pushes, in order, each
      point the volume contains. */
  method AppendMatching(matched: seq<Vector>, ps: seq<Vector>, volume: Volume) returns (result: seq<Vector>)
    ensures result == matched + Matching(ps, volume)
  {
    result := matched;
    var i := 0;
    while i < |ps|
      invariant 0 <= i <= |ps|
      invariant result == matched + Matching(ps[..i], volume)
    {
      assert ps[..i + 1][..i] == ps[..i];
      if VolumeContains(volume, ps[i]) {
        result := result + [ps[i]];
      }
      i := i + 1;
    }
    assert ps[..|ps|] == ps;
  }

  /** `query` on a subtree, recursing in the source's order: nothing when the
      node's bounds miss the volume, else the node's own matches, then each
      octant's. */
  method QueryInto(t: Tree, volume: Volume, matched: seq<Vector>) returns (result: seq<Vector>)
    ensures result == matched + QueryTree(t, volume)
    decreases t
  {
    result := matched;
    if !BoundsMeet(t.bounds, volume) {
      assert result + [] == result;
      return;
    }
    QueryTreeSteps(t, volume, matched);
    result := AppendMatching(result, t.points, volume);
    if t.children.Divided? {
      result := QueryInto(t.children.c000, volume, result);
      result := QueryInto(t.children.c100, volume, result);
      result := QueryInto(t.children.c010, volume, result);
      result := QueryInto(t.children.c110, volume, result);
      result := QueryInto(t.children.c001, volume, result);
      result := QueryInto(t.children.c101, volume, result);
      result := QueryInto(t.children.c011, volume, result);
      result := QueryInto(t.children.c111, volume, result);
    }
  }

  // ---------------------------------------------------------------------
  // The mutable node of the source

  /** An octree node: `points` and `isDivided` change in place; the eight
      octants are held as values (see `Tree`) and replaced as a whole when an
      insert reaches one of them. */
  class Octree {
    const bounds: Box
    const capacity: nat
    var points: seq<Vector>
    var isDivided: bool
    var cells: Octants

    /** The tree this node stands for. */
    function Model(): Tree
      reads this
    {
      Node(bounds, capacity, points, cells)
    }

    ghost predicate Valid()
      reads this
    {
      && capacity >= 1
      && isDivided == cells.Divided?
      && WellFormed(Model())
    }

    /** The factory `Octree(bounds, capacity = 10)`. A capacity of 0 would
        make every insert in bounds split and recurse without end. */
    constructor (bounds: Box, capacity: nat := 10)
      requires capacity >= 1
      ensures Valid() && Model() == EmptyTree(bounds, capacity) && !isDivided
    {
      this.bounds := bounds;
      this.capacity := capacity;
      points := [];
      isDivided := false;
      cells := Undivided;
    }

    /** `subdivide`, reached from `insert` on a full node that has not split:
        eight empty nodes of the same capacity over the eight octants. */
    method Subdivide()
      requires Valid() && !isDivided && |points| == capacity
      modifies this
      ensures Valid() && isDivided
      ensures Model() == Subdivided(old(Model()))
    {
      var x, y, z := bounds.x, bounds.y, bounds.z;
      var w, h, d := bounds.width / 2.0, bounds.height / 2.0, bounds.depth / 2.0;
      FreshOctantsAreTheCells(bounds, capacity);
      cells := Divided(EmptyTree(Box(x, y, z, w, h, d), capacity),
                       EmptyTree(Box(x + w, y, z, w, h, d), capacity),
                       EmptyTree(Box(x, y + h, z, w, h, d), capacity),
                       EmptyTree(Box(x + w, y + h, z, w, h, d), capacity),
                       EmptyTree(Box(x, y, z + d, w, h, d), capacity),
                       EmptyTree(Box(x + w, y, z + d, w, h, d), capacity),
                       EmptyTree(Box(x, y + h, z + d, w, h, d), capacity),
                       EmptyTree(Box(x + w, y + h, z + d, w, h, d), capacity));
      isDivided := true;
    }

    /** `insert`: proved to compute InsertInto; with the lemmas about
        InsertInto it succeeds exactly for points in bounds and adds exactly
        its point. */
    method Insert(p: Vector) returns (ok: bool)
      requires Valid()
      modifies this
      ensures Valid()
      ensures (Model(), ok) == InsertInto(old(Model()), p)
      ensures ok == Contains(bounds, p)
      ensures multiset(AllPoints(Model())) == multiset(AllPoints(old(Model()))) + Grown(ok, p)
    {
      InsertAccepts(Model(), p);
      InsertAddsPoint(Model(), p);
      InsertPreservesWellFormed(Model(), p);
      if !Contains(bounds, p) {
        return false;
      }
      if |points| < capacity {
        points := points + [p];
        return true;
      }
      if !isDivided {
        Subdivide();
      }
      ok := InsertIntoCells(p);
    }

    /** The chain `cell000.insert(point) || cell100.insert(point) || ...` of
        a divided node, as the source runs it: each octant in turn until one
        takes the point. */
    method InsertIntoCells(p: Vector) returns (ok: bool)
      requires Valid() && isDivided
      modifies this
      ensures (cells, ok) == InsertIntoOctants(old(cells), bounds, capacity, p)
      ensures points == old(points) && isDivided
    {
      var k := cells;
      assert OctantsWellFormed(k, bounds, capacity);
      FailedInsertKeeps(k.c000, p);
      FailedInsertKeeps(k.c100, p);
      FailedInsertKeeps(k.c010, p);
      FailedInsertKeeps(k.c110, p);
      FailedInsertKeeps(k.c001, p);
      FailedInsertKeeps(k.c101, p);
      FailedInsertKeeps(k.c011, p);
      var r := InsertInto(k.c000, p);
      if r.1 {
        cells := k.(c000 := r.0);
        return true;
      }
      r := InsertInto(k.c100, p);
      if r.1 {
        cells := k.(c100 := r.0);
        return true;
      }
      r := InsertInto(k.c010, p);
      if r.1 {
        cells := k.(c010 := r.0);
        return true;
      }
      r := InsertInto(k.c110, p);
      if r.1 {
        cells := k.(c110 := r.0);
        return true;
      }
      r := InsertInto(k.c001, p);
      if r.1 {
        cells := k.(c001 := r.0);
        return true;
      }
      r := InsertInto(k.c101, p);
      if r.1 {
        cells := k.(c101 := r.0);
        return true;
      }
      r := InsertInto(k.c011, p);
      if r.1 {
        cells := k.(c011 := r.0);
        return true;
      }
      r := InsertInto(k.c111, p);
      cells := k.(c111 := r.0);
      ok := r.1;
    }

    /** `query(volume, matched)` with the corrected pruning test BoundsMeet:
        appends to `matched` exactly the stored points the volume contains,
        in the order of AllPoints; the caller's earlier entries stay as a
        prefix. For a box volume this is also what the source computes
        (QueryTreeAsWritten); for a sphere volume the source prunes with
        BoundsIntersectsAsWritten instead, see SphereQueryMissesPoint. */
    method Query(volume: Volume, matched: seq<Vector> := []) returns (result: seq<Vector>)
      requires Valid()
      ensures result == matched + QueryTree(Model(), volume)
      ensures volume.BoxVolume? ==> result == matched + QueryTreeAsWritten(Model(), volume)
    {
      if volume.BoxVolume? {
        AsWrittenAgreesOnBoxes(Model(), volume.box);
      }
      result := QueryInto(Model(), volume, matched);
    }

    /** `getAllPoints`: every stored point. */
    method GetAllPoints() returns (all: seq<Vector>)
      requires Valid()
      ensures all == AllPoints(Model())
    {
      GetAllPointsExact(Model());
      all := Query(BoxVolume(bounds));
    }

    /** `getRandomPoint`, with the value of `Math.random()` passed in as `u`:
        the element at index floor(u * n) of the n stored points, or nothing
        when the tree is empty. */
    method GetRandomPoint(u: real) returns (r: Option<Vector>)
      requires Valid() && 0.0 <= u < 1.0
      ensures r == Pick(AllPoints(Model()), u)
    {
      var all := GetAllPoints();
      r := Pick(all, u);
    }
  }
}
