/** The point quadtree of Common/Quadtree.js: a node holds up to `capacity`
    points; on the first insert past that it splits once into four
    half-size quadrants and routes later points to the first quadrant that
    takes them. Queries prune nodes whose bounds miss the query area.

    The tree is modelled twice: as a value (`Tree`), on which the insert and
    query functions and every lemma are stated, and as the mutable objects
    of the source (class `Quadtree`), whose methods are proved to follow the
    value model step for step. */
module Quadtrees {
  import opened Wrappers
  import opened Vectors
  import opened Rectangles
  import Circles
  import opened RandomPoints

  /** A query area: the source passes any shape with `contains`. */
  datatype Area = RectArea(rect: Rectangle) | CircleArea(circle: Circles.Circle)

  predicate AreaContains(area: Area, p: Vector) {
    match area
    case RectArea(r) => Contains(r, p)
    case CircleArea(c) => Circles.Contains(c, p)
  }

  /** `this.bounds.intersects(area)` as written. Against a circle,
      `Rectangle.intersects` reads the circle's `width` and `height`, both
      `undefined`; the two comparisons that use them are NaN comparisons and
      false, so only the other two edges are tested. */
  predicate BoundsIntersectsAsWritten(b: Rectangle, area: Area) {
    match area
    case RectArea(r) => Intersects(b, r)
    case CircleArea(c) => !(c.x > b.x + b.width || c.y > b.y + b.height)
  }

  /** The pruning test as intended: the overlap test of the two shapes, which
      for a circle is the circle's own test against the rectangle. */
  predicate BoundsMeet(b: Rectangle, area: Area) {
    match area
    case RectArea(r) => Intersects(b, r)
    case CircleArea(c) => Circles.IntersectsRectangle(c, b)
  }

  /** Pruning is sound: a point inside both the bounds and the area makes
      the bounds meet the area. */
  lemma PruneSound(b: Rectangle, area: Area, p: Vector)
    requires Contains(b, p) && AreaContains(area, p)
    ensures BoundsMeet(b, area)
  {
    match area
    case RectArea(r) => CommonPointIntersects(b, r, p);
    case CircleArea(c) => Circles.CommonPointIntersectsRectangle(c, b, p);
  }

  // ---------------------------------------------------------------------
  // Quadrants

  function NwOf(b: Rectangle): Rectangle {
    Rectangle(b.x, b.y, b.width / 2.0, b.height / 2.0)
  }

  function NeOf(b: Rectangle): Rectangle {
    Rectangle(b.x + b.width / 2.0, b.y, b.width / 2.0, b.height / 2.0)
  }

  function SwOf(b: Rectangle): Rectangle {
    Rectangle(b.x, b.y + b.height / 2.0, b.width / 2.0, b.height / 2.0)
  }

  function SeOf(b: Rectangle): Rectangle {
    Rectangle(b.x + b.width / 2.0, b.y + b.height / 2.0, b.width / 2.0, b.height / 2.0)
  }

  /** How many of the four quadrants of `b` contain `p`. */
  function Claims(b: Rectangle, p: Vector): nat {
    (if Contains(NwOf(b), p) then 1 else 0) +
    (if Contains(NeOf(b), p) then 1 else 0) +
    (if Contains(SwOf(b), p) then 1 else 0) +
    (if Contains(SeOf(b), p) then 1 else 0)
  }

  /** The quadrants tile their parent exactly: a point of the parent lies in
      exactly one quadrant, and a point outside it in none. */
  lemma QuadrantsTile(b: Rectangle, p: Vector)
    ensures Claims(b, p) == if Contains(b, p) then 1 else 0
  {
  }

  // ---------------------------------------------------------------------
  // The value model

  datatype Tree = Node(bounds: Rectangle, capacity: nat, points: seq<Vector>, children: Children)

  datatype Children =
    | Undivided
    | Divided(nw: Tree, ne: Tree, sw: Tree, se: Tree)

  /** A node as the factory makes it. */
  function EmptyTree(bounds: Rectangle, capacity: nat): (t: Tree)
    ensures WellFormed(t) && AllPoints(t) == []
    ensures capacity >= 1 ==> Rank(t) == 0
  {
    var t := Node(bounds, capacity, [], Undivided);
    assert AllPoints(t) == [] + QuadrantsPoints(Undivided);
    t
  }

  /** The invariant every node reachable by the source's operations keeps:
      at most `capacity` points, all within the node's bounds; a divided
      node is full (it split on overflow and never moved its points) and its
      children are well-formed nodes over its four quadrants. */
  predicate WellFormed(t: Tree)
    decreases t, 1
  {
    && |t.points| <= t.capacity
    && (forall p <- t.points :: Contains(t.bounds, p))
    && (t.children.Divided? ==>
         |t.points| == t.capacity && QuadrantsWellFormed(t.children, t.bounds, t.capacity))
  }

  /** Four well-formed children of capacity `capacity` over the quadrants of `b`. */
  predicate QuadrantsWellFormed(k: Children, b: Rectangle, capacity: nat)
    decreases k, 0
  {
    && k.Divided?
    && k.nw.bounds == NwOf(b) && k.ne.bounds == NeOf(b)
    && k.sw.bounds == SwOf(b) && k.se.bounds == SeOf(b)
    && k.nw.capacity == capacity && k.ne.capacity == capacity
    && k.sw.capacity == capacity && k.se.capacity == capacity
    && WellFormed(k.nw) && WellFormed(k.ne) && WellFormed(k.sw) && WellFormed(k.se)
  }

  /** A bound on how deep an insert can recurse; a fresh node has room and
      ranks 0. */
  function Rank(t: Tree): nat
    decreases t, 1
  {
    match t.children
    case Undivided => if |t.points| < t.capacity then 0 else 1
    case Divided(_, _, _, _) => 1 + QuadrantsRank(t.children)
  }

  function QuadrantsRank(k: Children): nat
    decreases k, 0
  {
    match k
    case Undivided => 0
    case Divided(nw, ne, sw, se) => Rank(nw) + Rank(ne) + Rank(sw) + Rank(se)
  }

  /** Every stored point: the node's own, then those under nw, ne, sw, se. */
  function AllPoints(t: Tree): seq<Vector>
    decreases t, 1
  {
    t.points + QuadrantsPoints(t.children)
  }

  function QuadrantsPoints(k: Children): seq<Vector>
    decreases k, 0
  {
    match k
    case Undivided => []
    case Divided(nw, ne, sw, se) => AllPoints(nw) + AllPoints(ne) + AllPoints(sw) + AllPoints(se)
  }

  /** The fresh quadrants `subdivide` creates. */
  function FreshQuadrants(b: Rectangle, capacity: nat): (k: Children)
    ensures QuadrantsWellFormed(k, b, capacity) && QuadrantsPoints(k) == []
    ensures capacity >= 1 ==> QuadrantsRank(k) == 0
  {
    Divided(EmptyTree(NwOf(b), capacity), EmptyTree(NeOf(b), capacity),
            EmptyTree(SwOf(b), capacity), EmptyTree(SeOf(b), capacity))
  }

  /** `subdivide`: four empty quadrant nodes of the same capacity. */
  function Subdivided(t: Tree): (s: Tree)
    ensures s.bounds == t.bounds && s.capacity == t.capacity && s.points == t.points
  {
    t.(children := FreshQuadrants(t.bounds, t.capacity))
  }

  /** `insert`: the new tree and what the call returns. */
  function InsertInto(t: Tree, p: Vector): (r: (Tree, bool))
    requires WellFormed(t) && t.capacity >= 1
    ensures r.0.bounds == t.bounds && r.0.capacity == t.capacity
    decreases 2 * Rank(t)
  {
    if !Contains(t.bounds, p) then (t, false)
    else if |t.points| < t.capacity then (t.(points := t.points + [p]), true)
    else
      var k := if t.children.Undivided? then FreshQuadrants(t.bounds, t.capacity) else t.children;
      var r := InsertIntoQuadrants(k, t.bounds, t.capacity, p);
      (t.(children := r.0), r.1)
  }

  /** The chain of child inserts in `insert`, tried in the order nw, ne, sw,
      se until one succeeds. */
  function InsertIntoQuadrants(k: Children, b: Rectangle, capacity: nat, p: Vector): (r: (Children, bool))
    requires QuadrantsWellFormed(k, b, capacity) && capacity >= 1
    ensures r.0.Divided?
    decreases 2 * QuadrantsRank(k) + 1
  {
    Chain(k, InsertInto(k.nw, p), InsertInto(k.ne, p), InsertInto(k.sw, p), InsertInto(k.se, p))
  }

  /** How the chain combines what each child insert would return: the first
      child that accepts the point is replaced by its new value and later
      children are left as they were (the value of an insert that is never
      made is discarded). When none accepts, the source falls off the end and
      returns `undefined`, which every caller reads as false; a child whose
      insert failed keeps whatever that insert did to it. */
  function Chain(k: Children, nw: (Tree, bool), ne: (Tree, bool), sw: (Tree, bool), se: (Tree, bool)): (r: (Children, bool))
    requires k.Divided?
    ensures r.0.Divided?
    ensures r.1 == (nw.1 || ne.1 || sw.1 || se.1)
  {
    if nw.1 then (Divided(nw.0, k.ne, k.sw, k.se), true)
    else if ne.1 then (Divided(nw.0, ne.0, k.sw, k.se), true)
    else if sw.1 then (Divided(nw.0, ne.0, sw.0, k.se), true)
    else (Divided(nw.0, ne.0, sw.0, se.0), se.1)
  }

  /** The points of `ps` that `area` contains, in order. */
  function Matching(ps: seq<Vector>, area: Area): (r: seq<Vector>)
    ensures |r| <= |ps|
  {
    if ps == [] then []
    else
      var last := ps[|ps| - 1];
      Matching(ps[..|ps| - 1], area) + if AreaContains(area, last) then [last] else []
  }

  /** Matching keeps exactly the points of `ps` the area contains. */
  lemma {:induction false} MatchingMembers(ps: seq<Vector>, area: Area)
    ensures forall q :: q in Matching(ps, area) <==> q in ps && AreaContains(area, q)
    decreases |ps|
  {
    if ps != [] {
      var init := ps[..|ps| - 1];
      MatchingMembers(init, area);
      assert ps == init + [ps[|ps| - 1]];
    }
  }

  /** `query`, with the pruning test as intended: nothing from a node whose
      bounds miss the area; otherwise the node's matching points, then what
      nw, ne, sw and se contribute, in that order. */
  function QueryTree(t: Tree, area: Area): seq<Vector>
    decreases t, 1
  {
    if !BoundsMeet(t.bounds, area) then []
    else Matching(t.points, area) + QueryQuadrants(t.children, area)
  }

  function QueryQuadrants(k: Children, area: Area): seq<Vector>
    decreases k, 0
  {
    match k
    case Undivided => []
    case Divided(nw, ne, sw, se) =>
      QueryTree(nw, area) + QueryTree(ne, area) + QueryTree(sw, area) + QueryTree(se, area)
  }

  /** `query` as written, pruning with BoundsIntersectsAsWritten. */
  function QueryTreeAsWritten(t: Tree, area: Area): seq<Vector>
    decreases t, 1
  {
    if !BoundsIntersectsAsWritten(t.bounds, area) then []
    else Matching(t.points, area) + QueryQuadrantsAsWritten(t.children, area)
  }

  function QueryQuadrantsAsWritten(k: Children, area: Area): seq<Vector>
    decreases k, 0
  {
    match k
    case Undivided => []
    case Divided(nw, ne, sw, se) =>
      QueryTreeAsWritten(nw, area) + QueryTreeAsWritten(ne, area) +
      QueryTreeAsWritten(sw, area) + QueryTreeAsWritten(se, area)
  }

  /** Inserting several points in turn. */
  function InsertAll(t: Tree, ps: seq<Vector>): (r: Tree)
    requires WellFormed(t) && t.capacity >= 1
    ensures WellFormed(r) && r.bounds == t.bounds && r.capacity == t.capacity
    decreases |ps|
  {
    if ps == [] then t
    else
      InsertPreservesWellFormed(t, ps[0]);
      InsertAll(InsertInto(t, ps[0]).0, ps[1..])
  }

  // ---------------------------------------------------------------------
  // Lemmas about insert

  /** Insert keeps the invariant. */
  lemma {:induction false} InsertPreservesWellFormed(t: Tree, p: Vector)
    requires WellFormed(t) && t.capacity >= 1
    ensures WellFormed(InsertInto(t, p).0)
    decreases 2 * Rank(t)
  {
    if Contains(t.bounds, p) && |t.points| >= t.capacity {
      var k := if t.children.Undivided? then FreshQuadrants(t.bounds, t.capacity) else t.children;
      QuadrantsInsertPreservesWellFormed(k, t.bounds, t.capacity, p);
    }
  }

  lemma {:induction false} QuadrantsInsertPreservesWellFormed(k: Children, b: Rectangle, capacity: nat, p: Vector)
    requires QuadrantsWellFormed(k, b, capacity) && capacity >= 1
    ensures QuadrantsWellFormed(InsertIntoQuadrants(k, b, capacity, p).0, b, capacity)
    decreases 2 * QuadrantsRank(k) + 1
  {
    InsertPreservesWellFormed(k.nw, p);
    InsertPreservesWellFormed(k.ne, p);
    InsertPreservesWellFormed(k.sw, p);
    InsertPreservesWellFormed(k.se, p);
  }

  /** Insert succeeds exactly for the points the node's bounds contain: with
      the quadrants tiling their parent, a point in bounds is never lost. */
  lemma {:induction false} InsertAccepts(t: Tree, p: Vector)
    requires WellFormed(t) && t.capacity >= 1
    ensures InsertInto(t, p).1 == Contains(t.bounds, p)
    decreases 2 * Rank(t)
  {
    if Contains(t.bounds, p) && |t.points| >= t.capacity {
      var k := if t.children.Undivided? then FreshQuadrants(t.bounds, t.capacity) else t.children;
      QuadrantsAccept(k, t.bounds, t.capacity, p);
    }
  }

  lemma {:induction false} QuadrantsAccept(k: Children, b: Rectangle, capacity: nat, p: Vector)
    requires QuadrantsWellFormed(k, b, capacity) && capacity >= 1
    ensures InsertIntoQuadrants(k, b, capacity, p).1 == Contains(b, p)
    decreases 2 * QuadrantsRank(k) + 1
  {
    InsertAccepts(k.nw, p);
    InsertAccepts(k.ne, p);
    InsertAccepts(k.sw, p);
    InsertAccepts(k.se, p);
    QuadrantsTile(b, p);
  }

  /** A successful insert adds exactly its point to the stored points; a
      failed one adds nothing. */
  lemma {:induction false} InsertAddsPoint(t: Tree, p: Vector)
    requires WellFormed(t) && t.capacity >= 1
    ensures AddsPoint(t, p)
    decreases 2 * Rank(t)
  {
    if Contains(t.bounds, p) && |t.points| >= t.capacity {
      var k := if t.children.Undivided? then FreshQuadrants(t.bounds, t.capacity) else t.children;
      assert QuadrantsPoints(k) == QuadrantsPoints(t.children);
      QuadrantsAddPoint(k, t.bounds, t.capacity, p);
    }
  }

  lemma {:induction false} QuadrantsAddPoint(k: Children, b: Rectangle, capacity: nat, p: Vector)
    requires QuadrantsWellFormed(k, b, capacity) && capacity >= 1
    ensures multiset(QuadrantsPoints(InsertIntoQuadrants(k, b, capacity, p).0))
            == multiset(QuadrantsPoints(k)) + Grown(InsertIntoQuadrants(k, b, capacity, p).1, p)
    decreases 2 * QuadrantsRank(k) + 1
  {
    InsertAddsPoint(k.nw, p);
    InsertAddsPoint(k.ne, p);
    InsertAddsPoint(k.sw, p);
    InsertAddsPoint(k.se, p);
    ChainAddsPoint(k, InsertInto(k.nw, p), InsertInto(k.ne, p), InsertInto(k.sw, p), InsertInto(k.se, p), p);
  }

  /** The bookkeeping of the chain, given what each child insert does to
      its own points. */
  lemma ChainAddsPoint(k: Children, nw: (Tree, bool), ne: (Tree, bool), sw: (Tree, bool), se: (Tree, bool), p: Vector)
    requires k.Divided?
    requires Bag(nw.0) == Bag(k.nw) + Grown(nw.1, p) && Bag(ne.0) == Bag(k.ne) + Grown(ne.1, p)
    requires Bag(sw.0) == Bag(k.sw) + Grown(sw.1, p) && Bag(se.0) == Bag(k.se) + Grown(se.1, p)
    ensures multiset(QuadrantsPoints(Chain(k, nw, ne, sw, se).0))
            == multiset(QuadrantsPoints(k)) + Grown(Chain(k, nw, ne, sw, se).1, p)
  {
    var r := Chain(k, nw, ne, sw, se);
    var e, z := multiset{p}, multiset{};
    if nw.1 {
      Regrown(k, r.0, e, z, z, z);
    } else if ne.1 {
      Regrown(k, r.0, z, e, z, z);
    } else if sw.1 {
      Regrown(k, r.0, z, z, e, z);
    } else {
      Regrown(k, r.0, z, z, z, Grown(se.1, p));
    }
  }

  /** What a successful insert of `p` adds: `p`, or nothing. */
  function Grown(ok: bool, p: Vector): multiset<Vector> {
    if ok then multiset{p} else multiset{}
  }

  /** Four quadrants each grown by a multiset of points hold the old points
      plus the total growth. */
  lemma Regrown(k: Children, k': Children, ea: multiset<Vector>, eb: multiset<Vector>,
                ec: multiset<Vector>, ed: multiset<Vector>)
    requires k.Divided? && k'.Divided?
    requires Bag(k'.nw) == Bag(k.nw) + ea && Bag(k'.ne) == Bag(k.ne) + eb
    requires Bag(k'.sw) == Bag(k.sw) + ec && Bag(k'.se) == Bag(k.se) + ed
    ensures multiset(QuadrantsPoints(k')) == multiset(QuadrantsPoints(k)) + (ea + eb + ec + ed)
  {
    QuadrantsPointsSplit(k.nw, k.ne, k.sw, k.se);
    QuadrantsPointsSplit(k'.nw, k'.ne, k'.sw, k'.se);
  }

  /** The stored points of a node, as a multiset. */
  function Bag(t: Tree): multiset<Vector> {
    multiset(AllPoints(t))
  }

  /** What InsertAddsPoint states about one node. */
  predicate AddsPoint(t: Tree, p: Vector)
    requires WellFormed(t) && t.capacity >= 1
  {
    Bag(InsertInto(t, p).0) == Bag(t) + Grown(InsertInto(t, p).1, p)
  }

  lemma QuadrantsPointsSplit(a: Tree, b: Tree, c: Tree, d: Tree)
    ensures multiset(QuadrantsPoints(Divided(a, b, c, d)))
            == multiset(AllPoints(a)) + multiset(AllPoints(b)) + multiset(AllPoints(c)) + multiset(AllPoints(d))
  {
  }

  /** A failed insert leaves the node as it was. */
  lemma FailedInsertKeeps(t: Tree, p: Vector)
    requires WellFormed(t) && t.capacity >= 1
    ensures !InsertInto(t, p).1 ==> InsertInto(t, p).0 == t
  {
    InsertAccepts(t, p);
  }

  /** Below capacity the point is appended to this node and the node does not
      split; a point outside the bounds changes nothing. */
  lemma BelowCapacityAppends(t: Tree, p: Vector)
    requires WellFormed(t) && t.capacity >= 1
    ensures !Contains(t.bounds, p) ==> InsertInto(t, p) == (t, false)
    ensures Contains(t.bounds, p) && |t.points| < t.capacity ==>
      InsertInto(t, p) == (t.(points := t.points + [p]), true) && t.children.Undivided?
  {
  }

  /** Once full, a node keeps its points: they never move into the
      quadrants; it splits on the first overflow and stays split over the
      same quadrants. */
  lemma FullNodeKeepsPoints(t: Tree, p: Vector)
    requires WellFormed(t) && t.capacity >= 1 && Contains(t.bounds, p)
    requires |t.points| == t.capacity
    ensures InsertInto(t, p).0.points == t.points
    ensures QuadrantsWellFormed(InsertInto(t, p).0.children, t.bounds, t.capacity)
  {
    InsertPreservesWellFormed(t, p);
  }

  /** A node takes points without splitting until it holds `capacity` of them. */
  lemma {:induction false} FillWithoutSplitting(t: Tree, ps: seq<Vector>)
    requires WellFormed(t) && t.capacity >= 1 && t.children.Undivided?
    requires |t.points| + |ps| <= t.capacity
    requires forall q <- ps :: Contains(t.bounds, q)
    ensures InsertAll(t, ps) == t.(points := t.points + ps)
    decreases |ps|
  {
    if ps != [] {
      var t' := t.(points := t.points + [ps[0]]);
      assert InsertInto(t, ps[0]).0 == t';
      FillWithoutSplitting(t', ps[1..]);
      assert t'.points + ps[1..] == t.points + ps;
    }
  }

  // ---------------------------------------------------------------------
  // Lemmas about query

  lemma {:induction false} MatchingConcat(a: seq<Vector>, b: seq<Vector>, area: Area)
    ensures Matching(a + b, area) == Matching(a, area) + Matching(b, area)
    decreases |b|
  {
    if b == [] {
      assert a + b == a;
    } else {
      var b' := b[..|b| - 1];
      assert (a + b)[..|a + b| - 1] == a + b';
      MatchingConcat(a, b', area);
    }
  }

  /** Every point stored under a node lies in that node's bounds. */
  lemma {:induction false} AllPointsInBounds(t: Tree)
    requires WellFormed(t)
    ensures forall q <- AllPoints(t) :: Contains(t.bounds, q)
    decreases t, 1
  {
    if t.children.Divided? {
      QuadrantsPointsInBounds(t.children, t.bounds, t.capacity);
    }
  }

  lemma {:induction false} QuadrantsPointsInBounds(k: Children, b: Rectangle, capacity: nat)
    requires QuadrantsWellFormed(k, b, capacity)
    ensures forall q <- QuadrantsPoints(k) :: Contains(b, q)
    decreases k, 0
  {
    AllPointsInBounds(k.nw);
    AllPointsInBounds(k.ne);
    AllPointsInBounds(k.sw);
    AllPointsInBounds(k.se);
    forall q <- QuadrantsPoints(k)
      ensures Contains(b, q)
    {
      QuadrantsTile(b, q);
    }
  }

  /** Nothing in a list of points inside `b` matches an area that `b` does
      not meet. */
  lemma {:induction false} NoMatchWhenPruned(ps: seq<Vector>, b: Rectangle, area: Area)
    requires forall q <- ps :: Contains(b, q)
    requires !BoundsMeet(b, area)
    ensures Matching(ps, area) == []
    decreases |ps|
  {
    if ps != [] {
      var last := ps[|ps| - 1];
      if AreaContains(area, last) {
        PruneSound(b, area, last);
      }
      NoMatchWhenPruned(ps[..|ps| - 1], b, area);
    }
  }

  /** Query correctness: pruning never drops a match and never adds one;
      the query returns exactly the stored points the area contains, in the
      order of AllPoints. */
  lemma {:induction false} QueryExact(t: Tree, area: Area)
    requires WellFormed(t)
    ensures QueryTree(t, area) == Matching(AllPoints(t), area)
    decreases t, 1
  {
    if !BoundsMeet(t.bounds, area) {
      AllPointsInBounds(t);
      NoMatchWhenPruned(AllPoints(t), t.bounds, area);
    } else {
      QuadrantsQueryExact(t.children, t.bounds, t.capacity, area);
      MatchingConcat(t.points, QuadrantsPoints(t.children), area);
    }
  }

  lemma {:induction false} QuadrantsQueryExact(k: Children, b: Rectangle, capacity: nat, area: Area)
    requires k.Divided? ==> QuadrantsWellFormed(k, b, capacity)
    ensures QueryQuadrants(k, area) == Matching(QuadrantsPoints(k), area)
    decreases k, 0
  {
    if k.Divided? {
      QueryExact(k.nw, area);
      QueryExact(k.ne, area);
      QueryExact(k.sw, area);
      QueryExact(k.se, area);
      var a, c, d, e := AllPoints(k.nw), AllPoints(k.ne), AllPoints(k.sw), AllPoints(k.se);
      MatchingConcat((a + c) + d, e, area);
      MatchingConcat(a + c, d, area);
      MatchingConcat(a, c, area);
    }
  }

  /** One level of `query`, as the accumulator grows: the node's own
      matches, then the four quadrants' answers. */
  lemma QueryTreeSteps(t: Tree, area: Area, m: seq<Vector>)
    requires BoundsMeet(t.bounds, area)
    ensures t.children.Undivided? ==> m + QueryTree(t, area) == m + Matching(t.points, area)
    ensures t.children.Divided? ==>
      m + QueryTree(t, area)
      == m + Matching(t.points, area) + QueryTree(t.children.nw, area) + QueryTree(t.children.ne, area)
           + QueryTree(t.children.sw, area) + QueryTree(t.children.se, area)
  {
    var own := Matching(t.points, area);
    assert QueryTree(t, area) == own + QueryQuadrants(t.children, area);
    if t.children.Divided? {
      var a, b := QueryTree(t.children.nw, area), QueryTree(t.children.ne, area);
      var c, d := QueryTree(t.children.sw, area), QueryTree(t.children.se, area);
      assert QueryQuadrants(t.children, area) == a + b + c + d;
      ConcatRegroup(m, own, a, b, c, d);
    } else {
      assert QueryQuadrants(t.children, area) == [];
      assert own + [] == own;
    }
  }

  lemma ConcatRegroup(m: seq<Vector>, own: seq<Vector>, a: seq<Vector>, b: seq<Vector>, c: seq<Vector>, d: seq<Vector>)
    ensures m + (own + (a + b + c + d)) == m + own + a + b + c + d
  {
  }

  /** Matching a list all of whose points lie in `b` against `b` itself keeps
      the whole list. */
  lemma {:induction false} MatchingAllInBounds(ps: seq<Vector>, b: Rectangle)
    requires forall q <- ps :: Contains(b, q)
    ensures Matching(ps, RectArea(b)) == ps
    decreases |ps|
  {
    if ps != [] {
      MatchingAllInBounds(ps[..|ps| - 1], b);
      assert ps[..|ps| - 1] + [ps[|ps| - 1]] == ps;
    }
  }

  /** `getAllPoints`, the query of a node's own bounds, returns every stored
      point. */
  lemma GetAllPointsExact(t: Tree)
    requires WellFormed(t)
    ensures QueryTree(t, RectArea(t.bounds)) == AllPoints(t)
  {
    QueryExact(t, RectArea(t.bounds));
    AllPointsInBounds(t);
    MatchingAllInBounds(AllPoints(t), t.bounds);
  }

  /** With a rectangle as the area, the written pruning is the intended one. */
  lemma {:induction false} AsWrittenAgreesOnRectangles(t: Tree, r: Rectangle)
    ensures QueryTreeAsWritten(t, RectArea(r)) == QueryTree(t, RectArea(r))
    decreases t, 1
  {
    QuadrantsAsWrittenAgree(t.children, r);
  }

  lemma {:induction false} QuadrantsAsWrittenAgree(k: Children, r: Rectangle)
    ensures QueryQuadrantsAsWritten(k, RectArea(r)) == QueryQuadrants(k, RectArea(r))
    decreases k, 0
  {
    if k.Divided? {
      AsWrittenAgreesOnRectangles(k.nw, r);
      AsWrittenAgreesOnRectangles(k.ne, r);
      AsWrittenAgreesOnRectangles(k.sw, r);
      AsWrittenAgreesOnRectangles(k.se, r);
    }
  }

  /** With a circle as the area, the written pruning drops a match: a circle
      of radius 2 centred at (11, 5) contains the stored point (9.5, 5) of the
      square [0, 10) x [0, 10), but its centre lies right of the square, so
      the written test prunes the node and the query returns nothing. */
  lemma CircleQueryMissesPoint()
    ensures WellFormed(Node(Rectangle(0.0, 0.0, 10.0, 10.0), 1, [Vector2(9.5, 5.0)], Undivided))
    ensures Circles.Contains(Circles.Circle(11.0, 5.0, 2.0), Vector2(9.5, 5.0))
    ensures QueryTreeAsWritten(Node(Rectangle(0.0, 0.0, 10.0, 10.0), 1, [Vector2(9.5, 5.0)], Undivided),
                               CircleArea(Circles.Circle(11.0, 5.0, 2.0))) == []
    ensures QueryTree(Node(Rectangle(0.0, 0.0, 10.0, 10.0), 1, [Vector2(9.5, 5.0)], Undivided),
                      CircleArea(Circles.Circle(11.0, 5.0, 2.0))) == [Vector2(9.5, 5.0)]
  {
    var t := Node(Rectangle(0.0, 0.0, 10.0, 10.0), 1, [Vector2(9.5, 5.0)], Undivided);
    var area := CircleArea(Circles.Circle(11.0, 5.0, 2.0));
    QueryExact(t, area);
    assert AllPoints(t) == [Vector2(9.5, 5.0)];
    assert Matching([Vector2(9.5, 5.0)], area) == Matching([], area) + [Vector2(9.5, 5.0)];
  }

  /** The loop in `query` over a node's own points: pushes, in order, each
      point the area contains. */
  method AppendMatching(matched: seq<Vector>, ps: seq<Vector>, area: Area) returns (result: seq<Vector>)
    ensures result == matched + Matching(ps, area)
  {
    result := matched;
    var i := 0;
    while i < |ps|
      invariant 0 <= i <= |ps|
      invariant result == matched + Matching(ps[..i], area)
    {
      assert ps[..i + 1][..i] == ps[..i];
      if AreaContains(area, ps[i]) {
        result := result + [ps[i]];
      }
      i := i + 1;
    }
    assert ps[..|ps|] == ps;
  }

  /** `query` on a subtree, recursing in the source's order: nothing when the
      node's bounds miss the area, else the node's own matches, then nw, ne,
      sw and se. */
  method QueryInto(t: Tree, area: Area, matched: seq<Vector>) returns (result: seq<Vector>)
    ensures result == matched + QueryTree(t, area)
    decreases t
  {
    result := matched;
    if !BoundsMeet(t.bounds, area) {
      assert result + [] == result;
      return;
    }
    QueryTreeSteps(t, area, matched);
    result := AppendMatching(result, t.points, area);
    if t.children.Divided? {
      result := QueryInto(t.children.nw, area, result);
      result := QueryInto(t.children.ne, area, result);
      result := QueryInto(t.children.sw, area, result);
      result := QueryInto(t.children.se, area, result);
    }
  }

  // ---------------------------------------------------------------------
  // The mutable node of the source

  /** A quadtree node: `points` and `isDivided` change in place; the four
      quadrants are held as values (see `Tree`) and replaced as a whole when
      an insert reaches one of them. */
  class Quadtree {
    const bounds: Rectangle
    const capacity: nat
    var points: seq<Vector>
    var isDivided: bool
    var quadrants: Children

    /** The tree this node stands for. */
    function Model(): Tree
      reads this
    {
      Node(bounds, capacity, points, quadrants)
    }

    ghost predicate Valid()
      reads this
    {
      && capacity >= 1
      && isDivided == quadrants.Divided?
      && WellFormed(Model())
    }

    /** The factory `Quadtree(bounds, capacity = 10)`. A capacity of 0 would
        make every insert in bounds split and recurse without end. */
    constructor (bounds: Rectangle, capacity: nat := 10)
      requires capacity >= 1
      ensures Valid() && Model() == EmptyTree(bounds, capacity) && !isDivided
    {
      this.bounds := bounds;
      this.capacity := capacity;
      points := [];
      isDivided := false;
      quadrants := Undivided;
    }

    /** `subdivide`, reached from `insert` on a full node that has not split:
        four empty nodes of the same capacity over the four quadrants. */
    method Subdivide()
      requires Valid() && !isDivided && |points| == capacity
      modifies this
      ensures Valid() && isDivided
      ensures Model() == Subdivided(old(Model()))
    {
      var w, h := bounds.width / 2.0, bounds.height / 2.0;
      quadrants := Divided(EmptyTree(Rectangle(bounds.x, bounds.y, w, h), capacity),
                           EmptyTree(Rectangle(bounds.x + w, bounds.y, w, h), capacity),
                           EmptyTree(Rectangle(bounds.x, bounds.y + h, w, h), capacity),
                           EmptyTree(Rectangle(bounds.x + w, bounds.y + h, w, h), capacity));
      isDivided := true;
    }

    /** `insert`: proved to compute InsertInto; with the lemmas about
        InsertInto it succeeds exactly for points in bounds and adds exactly
        its point. */
    method Insert(p: Vector) returns (ok: bool)
      requires Valid()
      modifies this
      ensures Valid()
      ensures (Model(), ok) == InsertInto(old(Model()), p)
      ensures ok == Contains(bounds, p)
      ensures multiset(AllPoints(Model())) == multiset(AllPoints(old(Model()))) + Grown(ok, p)
    {
      InsertAccepts(Model(), p);
      InsertAddsPoint(Model(), p);
      InsertPreservesWellFormed(Model(), p);
      if !Contains(bounds, p) {
        return false;
      }
      if |points| < capacity {
        points := points + [p];
        return true;
      }
      if !isDivided {
        Subdivide();
      }
      // nw.insert(point) || ne.insert(point) || sw.insert(point) || se.insert(point)
      var k := quadrants;
      assert QuadrantsWellFormed(k, bounds, capacity);
      FailedInsertKeeps(k.nw, p);
      FailedInsertKeeps(k.ne, p);
      FailedInsertKeeps(k.sw, p);
      var r := InsertInto(k.nw, p);
      if r.1 {
        quadrants := k.(nw := r.0);
        return true;
      }
      r := InsertInto(k.ne, p);
      if r.1 {
        quadrants := k.(ne := r.0);
        return true;
      }
      r := InsertInto(k.sw, p);
      if r.1 {
        quadrants := k.(sw := r.0);
        return true;
      }
      r := InsertInto(k.se, p);
      quadrants := k.(se := r.0);
      ok := r.1;
    }

    /** `query(area, matched)` with the corrected pruning test BoundsMeet:
        appends to `matched` exactly the stored points the area contains, in
        the order of AllPoints; the caller's earlier entries stay as a
        prefix. For a rectangle area this is also what the source computes
        (QueryTreeAsWritten); for a circle area the source prunes with
        BoundsIntersectsAsWritten instead, see CircleQueryMissesPoint. */
    method Query(area: Area, matched: seq<Vector> := []) returns (result: seq<Vector>)
      requires Valid()
      ensures result == matched + QueryTree(Model(), area)
      ensures area.RectArea? ==> result == matched + QueryTreeAsWritten(Model(), area)
    {
      if area.RectArea? {
        AsWrittenAgreesOnRectangles(Model(), area.rect);
      }
      result := QueryInto(Model(), area, matched);
    }

    /** `getAllPoints`: every stored point. */
    method GetAllPoints() returns (all: seq<Vector>)
      requires Valid()
      ensures all == AllPoints(Model())
    {
      GetAllPointsExact(Model());
      all := Query(RectArea(bounds));
    }

    /** `getRandomPoint`, with the value of `Math.random()` passed in as `u`:
        the element at index floor(u * n) of the n stored points, or nothing
        when the tree is empty (the source reads past the end of an empty
        array and returns `undefined`). */
    method GetRandomPoint(u: real) returns (r: Option<Vector>)
      requires Valid() && 0.0 <= u < 1.0
      ensures r == Pick(AllPoints(Model()), u)
    {
      var all := GetAllPoints();
      r := Pick(all, u);
    }
  }
}
