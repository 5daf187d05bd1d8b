/** Coordinate tuples (Common/Vector.js). A vector is both a point and a
    displacement; it has two, three or four components. */
module Vectors {
  import opened Wrappers

  datatype Vector =
    | Vector2(x: real, y: real)
    | Vector3(x: real, y: real, z: real)
    | Vector4(x: real, y: real, z: real, w: real)
  {
    /** Whether the vector has a `z` component at all. */
    predicate HasZ() {
      !Vector2?
    }

    function Arity(): nat {
      match this
      case Vector2(_, _) => 2
      case Vector3(_, _, _) => 3
      case Vector4(_, _, _, _) => 4
    }
  }

  /** The exported factory: the arity is chosen by the last argument that is
      not `undefined` (None), and every omitted component of the chosen arity
      takes its default, 0. */
  function MakeVector(x: Option<real>, y: Option<real>, z: Option<real>, w: Option<real>): (v: Vector)
    ensures v.Arity() == if w.Some? then 4 else if z.Some? then 3 else 2
    ensures v.x == x.GetOr(0.0) && v.y == y.GetOr(0.0)
    ensures v.HasZ() ==> v.z == z.GetOr(0.0)
    ensures v.Vector4? ==> v.w == w.GetOr(0.0)
  {
    if w.Some? then Vector4(x.GetOr(0.0), y.GetOr(0.0), z.GetOr(0.0), w.value)
    else if z.Some? then Vector3(x.GetOr(0.0), y.GetOr(0.0), z.value)
    else Vector2(x.GetOr(0.0), y.GetOr(0.0))
  }

  /** Components supplied to the factory come back unchanged. */
  lemma SuppliedComponentsKept(a: real, b: real, c: real, d: real)
    ensures MakeVector(Some(a), Some(b), None, None) == Vector2(a, b)
    ensures MakeVector(Some(a), Some(b), Some(c), None) == Vector3(a, b, c)
    ensures MakeVector(Some(a), Some(b), Some(c), Some(d)) == Vector4(a, b, c, d)
  {
  }
}
