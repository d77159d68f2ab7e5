/**
 * Axis-aligned boxes. A free cuboid and a placed item's box are both a
 * `Space`: an origin (x, y, z) and extents (w, d, h) along width, depth and
 * height, as in the tuples `(x, y, z, w, d, h)` of app.py.
 */
module Geometry {

  /** One orientation of an item: its extents along x, y and z. */
  datatype Dims = Dims(dx: real, dy: real, dz: real)

  datatype Space = Space(x: real, y: real, z: real, w: real, d: real, h: real)

  /** The whole container, `(0, 0, 0, W, D, H)`. */
  function Bounds(width: real, depth: real, height: real): Space
  {
    Space(0.0, 0.0, 0.0, width, depth, height)
  }

  /** `a` lies inside `b`. */
  predicate Within(a: Space, b: Space)
  {
    && b.x <= a.x && a.x + a.w <= b.x + b.w
    && b.y <= a.y && a.y + a.d <= b.y + b.d
    && b.z <= a.z && a.z + a.h <= b.z + b.h
  }

  /** The interiors of `a` and `b` do not meet: on some axis one ends where
      or before the other begins. */
  predicate Disjoint(a: Space, b: Space)
  {
    || a.x + a.w <= b.x || a.x >= b.x + b.w
    || a.y + a.d <= b.y || a.y >= b.y + b.d
    || a.z + a.h <= b.z || a.z >= b.z + b.h
  }

  /** All three extents are positive (the filter `f[3]>0 and f[4]>0 and f[5]>0`). */
  predicate HasVolume(s: Space)
  {
    s.w > 0.0 && s.d > 0.0 && s.h > 0.0
  }

  /** The tuple itself as a sort key: Python orders the free list by it. */
  function TupleKey(s: Space): seq<real>
  {
    [s.x, s.y, s.z, s.w, s.d, s.h]
  }

  /** The search order of free cuboids: lowest, then left-most, then front-most. */
  function SearchKey(s: Space): seq<real>
  {
    [s.z, s.y, s.x]
  }

  lemma TupleKeyInjective()
    ensures forall a, b :: TupleKey(a) == TupleKey(b) ==> a == b
  {
    forall a, b | TupleKey(a) == TupleKey(b) ensures a == b {
      assert TupleKey(a)[0] == TupleKey(b)[0] && TupleKey(a)[1] == TupleKey(b)[1];
      assert TupleKey(a)[2] == TupleKey(b)[2] && TupleKey(a)[3] == TupleKey(b)[3];
      assert TupleKey(a)[4] == TupleKey(b)[4] && TupleKey(a)[5] == TupleKey(b)[5];
    }
  }
}
