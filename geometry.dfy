/** Axis-aligned simulation volume (Bounds.h) over raylib's three-component
    vector, with the float components read as exact reals. */
module Geometry {

  /** raylib's Vector3. */
  datatype Vector3 = Vector3(x: real, y: real, z: real) {

    function Plus(o: Vector3): Vector3 {
      Vector3(x + o.x, y + o.y, z + o.z)
    }

    function Minus(o: Vector3): Vector3 {
      Vector3(x - o.x, y - o.y, z - o.z)
    }

    function Scale(k: real): Vector3 {
      Vector3(k * x, k * y, k * z)
    }

    /** Every component is at least zero. */
    predicate NonNegative() {
      x >= 0.0 && y >= 0.0 && z >= 0.0
    }
  }

  /** The closed (inclusive) or open (exclusive) interval test on one axis. */
  predicate InRange(v: real, lo: real, hi: real, inclusive: bool) {
    if inclusive then lo <= v <= hi else lo < v < hi
  }

  /** An immutable box stored as its center and its size; every other
      quantity is derived from those two on demand. */
  datatype Bounds = Bounds(center: Vector3, size: Vector3) {

    /** The stored center: the midpoint of the two corners. */
    function Center(): (c: Vector3)
      ensures c.Scale(2.0) == Min().Plus(Max())
    {
      center
    }

    /** The stored size: the span from the lower to the upper corner. */
    function Size(): (s: Vector3)
      ensures s == Max().Minus(Min())
    {
      size
    }

    /** Half the size on each axis. */
    function Extents(): (e: Vector3)
      ensures e.Plus(e) == size
    {
      Vector3(size.x / 2.0, size.y / 2.0, size.z / 2.0)
    }

    /** The corner lying half a size below the center on every axis. */
    function Min(): (m: Vector3)
      ensures m.Plus(Extents()) == center
      ensures 2.0 * (center.x - m.x) == size.x
      ensures 2.0 * (center.y - m.y) == size.y
      ensures 2.0 * (center.z - m.z) == size.z
    {
      var extents := Extents();
      Vector3(center.x - extents.x, center.y - extents.y, center.z - extents.z)
    }

    /** The corner lying half a size above the center on every axis. */
    function Max(): (m: Vector3)
      ensures m.Minus(Extents()) == center
      ensures 2.0 * (m.x - center.x) == size.x
      ensures 2.0 * (m.y - center.y) == size.y
      ensures 2.0 * (m.z - center.z) == size.z
    {
      var extents := Extents();
      Vector3(center.x + extents.x, center.y + extents.y, center.z + extents.z)
    }

    /** Point containment; the faces belong to the box only when
        `inclusive` holds, which is the default. */
    function Contains(point: Vector3, inclusive: bool := true): (r: bool)
      ensures r ==> Min().x <= point.x <= Max().x
      ensures r ==> Min().y <= point.y <= Max().y
      ensures r ==> Min().z <= point.z <= Max().z
      ensures r && !inclusive ==>
        point.x != Min().x && point.x != Max().x &&
        point.y != Min().y && point.y != Max().y &&
        point.z != Min().z && point.z != Max().z
      ensures inclusive && size.NonNegative() && point == center ==> r
    {
      var min := Min();
      var max := Max();
      if inclusive then
        point.x >= min.x && point.x <= max.x &&
        point.y >= min.y && point.y <= max.y &&
        point.z >= min.z && point.z <= max.z
      else
        point.x > min.x && point.x < max.x &&
        point.y > min.y && point.y < max.y &&
        point.z > min.z && point.z < max.z
    }
  }

  /** The accessors hand back exactly what the box was built from. */
  lemma AccessorsReturnConstructorArguments(c: Vector3, s: Vector3)
    ensures Bounds(c, s).Center() == c
    ensures Bounds(c, s).Size() == s
  {
  }

  /** The box spans exactly its size on every axis. */
  lemma MaxMinusMinIsSize(b: Bounds)
    ensures b.Max().Minus(b.Min()) == b.Size()
  {
  }

  /** The center lies halfway between the two corners. */
  lemma MinPlusMaxIsTwiceCenter(b: Bounds)
    ensures b.Min().Plus(b.Max()) == b.Center().Scale(2.0)
  {
  }

  /** The corners are ordered on an axis exactly when that axis' size is
      not negative. */
  lemma MinAtMostMaxIffSizeNonNegative(b: Bounds)
    ensures b.Min().x <= b.Max().x <==> b.size.x >= 0.0
    ensures b.Min().y <= b.Max().y <==> b.size.y >= 0.0
    ensures b.Min().z <= b.Max().z <==> b.size.z >= 0.0
  {
  }

  /** A box of non-negative size contains its center and both corners
      inclusively; with a negative size on some axis it contains nothing. */
  lemma WellFormedBoxContainsCenterAndCorners(b: Bounds)
    ensures b.size.NonNegative() <==> b.Contains(b.Center(), true)
    ensures b.size.NonNegative() <==> b.Contains(b.Min(), true)
    ensures b.size.NonNegative() <==> b.Contains(b.Max(), true)
    ensures !b.size.NonNegative() ==> forall p :: !b.Contains(p, true)
  {
  }

  /** Omitting the second argument means the inclusive test. */
  lemma DefaultIsInclusive(b: Bounds, p: Vector3)
    ensures b.Contains(p) == b.Contains(p, true)
  {
  }

  /** Containment is the conjunction of the three per-axis interval tests. */
  lemma ContainsIsPerAxis(b: Bounds, p: Vector3, inclusive: bool)
    ensures b.Contains(p, inclusive) <==>
      InRange(p.x, b.Min().x, b.Max().x, inclusive) &&
      InRange(p.y, b.Min().y, b.Max().y, inclusive) &&
      InRange(p.z, b.Min().z, b.Max().z, inclusive)
  {
  }

  /** Failing the interval test on any one axis rejects the point,
      whatever the other two axes say. */
  lemma OutOfRangeOnOneAxisIsRejected(b: Bounds, p: Vector3, inclusive: bool)
    requires !InRange(p.x, b.Min().x, b.Max().x, inclusive)
             || !InRange(p.y, b.Min().y, b.Max().y, inclusive)
             || !InRange(p.z, b.Min().z, b.Max().z, inclusive)
    ensures !b.Contains(p, inclusive)
  {
  }

  /** The open box lies inside the closed box. */
  lemma ExclusiveImpliesInclusive(b: Bounds, p: Vector3)
    ensures b.Contains(p, false) ==> b.Contains(p, true)
  {
  }

  /** A point on a face (its coordinate equals Min or Max on some axis) is
      rejected by the exclusive test. */
  lemma FacePointsAreNotStrictlyInside(b: Bounds, p: Vector3)
    requires p.x == b.Min().x || p.x == b.Max().x
             || p.y == b.Min().y || p.y == b.Max().y
             || p.z == b.Min().z || p.z == b.Max().z
    ensures !b.Contains(p, false)
  {
  }

  /** The two tests differ only on the faces: a point inside the closed
      box and on no face is inside the open box. */
  lemma InclusiveOffTheFacesIsExclusive(b: Bounds, p: Vector3)
    requires b.Contains(p, true)
    requires p.x != b.Min().x && p.x != b.Max().x
    requires p.y != b.Min().y && p.y != b.Max().y
    requires p.z != b.Min().z && p.z != b.Max().z
    ensures b.Contains(p, false)
  {
  }

  /** The simulation volume of the driver: centered at the origin with a
      side of 200, so it runs from -100 to 100 on each axis. */
  lemma SimulationVolume()
    ensures
      var b := Bounds(Vector3(0.0, 0.0, 0.0), Vector3(200.0, 200.0, 200.0));
      b.Min() == Vector3(-100.0, -100.0, -100.0) &&
      b.Max() == Vector3(100.0, 100.0, 100.0) &&
      b.Extents() == Vector3(100.0, 100.0, 100.0)
  {
  }
}
