/**
 * Points, vectors and the geometry oracle.
 *
 * Coordinates are exact reals. Everything that needs a square root, a
 * trigonometric function or the terrain mesh itself is a field of `Oracle`,
 * supplied by the caller: the model never looks inside those answers.
 */
module Geometry {
  import opened Wrappers

  /** A point or a vector in world space. */
  datatype Vec3 = Vec3(x: real, y: real, z: real)

  function Add(a: Vec3, b: Vec3): Vec3 {
    Vec3(a.x + b.x, a.y + b.y, a.z + b.z)
  }

  function Sub(a: Vec3, b: Vec3): Vec3 {
    Vec3(a.x - b.x, a.y - b.y, a.z - b.z)
  }

  function Scale(k: real, v: Vec3): Vec3 {
    Vec3(k * v.x, k * v.y, k * v.z)
  }

  function Dot(a: Vec3, b: Vec3): real {
    a.x * b.x + a.y * b.y + a.z * b.z
  }

  /** Squared Euclidean distance: the square of what `DistanceTo` measures. */
  function Dist2(a: Vec3, b: Vec3): (d: real)
    ensures d >= 0.0
  {
    var v := Sub(a, b);
    assert v.x * v.x >= 0.0 && v.y * v.y >= 0.0 && v.z * v.z >= 0.0;
    Dot(v, v)
  }

  lemma Dist2Symmetric(a: Vec3, b: Vec3)
    ensures Dist2(a, b) == Dist2(b, a)
  {
  }

  const ZAxis: Vec3 := Vec3(0.0, 0.0, 1.0)

  /** A grounded point on the terrain together with the surface normal there. */
  datatype Hit = Hit(point: Vec3, normal: Vec3)

  /**
   * The foreign geometry calls the solver makes.
   * - project(p, radius): the closest mesh point within `radius` of `p`
   *   and the mesh normal at it, or None when there is none.
   * - unitize(v): `v` scaled to unit length (as Vector3d.Unitize leaves it).
   * - angleDeg(u, v): the angle between `u` and `v`, in degrees.
   * - cosDeg(a), sinDeg(a): cosine and sine of an angle given in degrees.
   */
  datatype Oracle = Oracle(
    project: (Vec3, real) -> Option<Hit>,
    unitize: Vec3 -> Vec3,
    angleDeg: (Vec3, Vec3) -> real,
    cosDeg: real -> real,
    sinDeg: real -> real)
}
