/** The engine's small value types that the wall builder and the slope tools
    consume: 2D/3D vectors, planes and the rounding used on plane heights.
    Doubles are modelled by exact reals. */
module Geometry {

  datatype Vec2 = Vec2(x: real, y: real)

  datatype Vec3 = Vec3(x: real, y: real, z: real)

  function Add(a: Vec3, b: Vec3): Vec3 { Vec3(a.x + b.x, a.y + b.y, a.z + b.z) }

  function Sub(a: Vec3, b: Vec3): Vec3 { Vec3(a.x - b.x, a.y - b.y, a.z - b.z) }

  function Scale(a: Vec3, s: real): Vec3 { Vec3(a.x * s, a.y * s, a.z * s) }

  function Dot(a: Vec3, b: Vec3): real { a.x * b.x + a.y * b.y + a.z * b.z }

  function Cross(a: Vec3, b: Vec3): Vec3
  {
    Vec3(a.y * b.z - a.z * b.y, a.z * b.x - a.x * b.z, a.x * b.y - a.y * b.x)
  }

  function Lift(p: Vec2, z: real): Vec3 { Vec3(p.x, p.y, z) }

  function Midpoint(a: Vec2, b: Vec2): Vec2 { Vec2((a.x + b.x) / 2.0, (a.y + b.y) / 2.0) }

  function Sub2(a: Vec2, b: Vec2): Vec2 { Vec2(a.x - b.x, a.y - b.y) }

  /** The z component of the cross product of two map-plane vectors. */
  function Cross2(a: Vec2, b: Vec2): real { a.x * b.y - a.y * b.x }

  /** An axis-aligned rectangle given by its corner with the smallest
      coordinates and its extent, as a `RectangleF`. */
  datatype Box = Box(x: real, y: real, width: real, height: real)

  predicate InBox(b: Box, p: Vec2)
  {
    b.x <= p.x <= b.x + b.width && b.y <= p.y <= b.y + b.height
  }

  function BoxCenter(b: Box): Vec2 { Vec2(b.x + b.width / 2.0, b.y + b.height / 2.0) }

  /** A plane `{ p | Dot(normal, p) == offset }`; the normal need not be unit length. */
  datatype Plane = Plane(normal: Vec3, offset: real)

  /** Signed distance (scaled by |normal|): positive in front of the plane. */
  function Distance(pl: Plane, v: Vec3): real { Dot(pl.normal, v) - pl.offset }

  /** The same plane facing the other way. */
  function Inverted(pl: Plane): (r: Plane)
    ensures forall v :: Distance(r, v) == -Distance(pl, v)
  {
    Plane(Vec3(-pl.normal.x, -pl.normal.y, -pl.normal.z), -pl.offset)
  }

  /** A plane can answer height queries when it is not vertical. */
  predicate NonVertical(pl: Plane) { pl.normal.z != 0.0 }

  /** Height of the plane above the point `p` of the map. */
  function ZAt(pl: Plane, p: Vec2): (z: real)
    requires NonVertical(pl)
    ensures Distance(pl, Lift(p, z)) == 0.0
  {
    (pl.offset - pl.normal.x * p.x - pl.normal.y * p.y) / pl.normal.z
  }

  /** The point where the segment v1-v2 meets the plane: v1 + (v2 - v1) * u with
      u = d1 / (d1 - d2), as the plane's segment intersection computes it. */
  function Intersection(pl: Plane, v1: Vec3, v2: Vec3): Vec3
    requires Distance(pl, v1) != Distance(pl, v2)
  {
    var u := Distance(pl, v1) / (Distance(pl, v1) - Distance(pl, v2));
    Add(v1, Scale(Sub(v2, v1), u))
  }

  /** The crossing point computed for the segment v1-v2; when the segment runs
      parallel to the plane the intersection parameter stays 0 and the point is v1. */
  function CutPoint(pl: Plane, v1: Vec3, v2: Vec3): Vec3
  {
    if Distance(pl, v1) != Distance(pl, v2) then Intersection(pl, v1, v2) else v1
  }

  /** With exact arithmetic the inserted crossing vertex lies on the plane. */
  lemma IntersectionOnPlane(pl: Plane, v1: Vec3, v2: Vec3)
    requires Distance(pl, v1) != Distance(pl, v2)
    ensures Distance(pl, Intersection(pl, v1, v2)) == 0.0
  {
    var d1 := Distance(pl, v1);
    var d2 := Distance(pl, v2);
    var u := d1 / (d1 - d2);
    var n := pl.normal;
    var w := Sub(v2, v1);
    assert Dot(n, Add(v1, Scale(w, u))) == Dot(n, v1) + u * Dot(n, w);
    assert Dot(n, w) == d2 - d1;
    assert u * (d2 - d1) == -d1;
  }

  /** Truncation toward zero, as a C# cast from a floating value to `int`. */
  function Trunc(x: real): (r: int)
    ensures x >= 0.0 ==> 0 <= r && r as real <= x < r as real + 1.0
    ensures x < 0.0 ==> r <= 0 && r as real - 1.0 < x <= r as real
  {
    if x >= 0.0 then x.Floor else -((-x).Floor)
  }

  /** Round half to even, the default midpoint rule of `Math.Round`. */
  function Round(x: real): (r: int)
    ensures x - 0.5 <= r as real <= x + 0.5
    ensures r as real == x + 0.5 || r as real == x - 0.5 ==> r % 2 == 0
  {
    var f := x.Floor;
    var frac := x - f as real;
    if frac < 0.5 then f
    else if frac > 0.5 then f + 1
    else if f % 2 == 0 then f
    else f + 1
  }
}
