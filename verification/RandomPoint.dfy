/** The indexing step of `getRandomPoint` in Common/Quadtree.js and
    Geometry/Octree.js: the value of `Math.random()` is a parameter `u` in
    [0, 1), scaled by the number of points and floored to an index. */
module RandomPoints {
  import opened Wrappers
  import opened Vectors
  import RealArith

  /** The point a draw `u` selects from a list: the one at index
      floor(u * n) of the n points, or nothing when the list is empty (index
      0 of an empty array reads `undefined`). */
  function Pick(ps: seq<Vector>, u: real): (r: Option<Vector>)
    requires 0.0 <= u < 1.0
    ensures r.None? <==> ps == []
  {
    if ps == [] then None
    else
      RealArith.FloorIndex(u, |ps|);
      Some(ps[(u * |ps| as real).Floor])
  }

  /** Every draw selects one of the listed points, and a draw below k/n
      selects one of the first k. */
  lemma PickedFromList(ps: seq<Vector>, u: real, k: nat)
    requires 0.0 <= u < 1.0 && k <= |ps|
    ensures Pick(ps, u).Some? ==> Pick(ps, u).value in ps
    ensures u * |ps| as real < k as real ==> Pick(ps, u).Some? && Pick(ps, u).value in ps[..k]
  {
    if ps != [] {
      RealArith.FloorIndex(u, |ps|);
      var i := (u * |ps| as real).Floor;
      if u * |ps| as real < k as real {
        assert i < k;
        assert ps[i] == ps[..k][i];
      }
    }
  }
}
