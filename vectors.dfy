/** Real-valued stand-ins for the vector type the ray tracer takes from its
    graphics library. Components are exact reals, not single-precision floats. */
module Vectors {

  /** A point or direction in three-dimensional space. */
  datatype Vec3 = Vec3(x: real, y: real, z: real)

  const Zero := Vec3(0.0, 0.0, 0.0)

  function Add(a: Vec3, b: Vec3): Vec3 {
    Vec3(a.x + b.x, a.y + b.y, a.z + b.z)
  }

  function Sub(a: Vec3, b: Vec3): Vec3 {
    Vec3(a.x - b.x, a.y - b.y, a.z - b.z)
  }

  function Scale(a: Vec3, k: real): Vec3 {
    Vec3(a.x * k, a.y * k, a.z * k)
  }

  function Neg(a: Vec3): Vec3 {
    Vec3(-a.x, -a.y, -a.z)
  }

  function Dot(a: Vec3, b: Vec3): real {
    a.x * b.x + a.y * b.y + a.z * b.z
  }

  /** Squared length of the point `m + t*d`, expanded as a quadratic in `t`. */
  lemma DotOfOffsetRay(m: Vec3, d: Vec3, t: real)
    ensures Dot(Add(m, Scale(d, t)), Add(m, Scale(d, t)))
         == Dot(m, m) + 2.0 * t * Dot(m, d) + t * t * Dot(d, d)
  {
    var p := Add(m, Scale(d, t));
    assert p.x * p.x == m.x * m.x + 2.0 * t * (m.x * d.x) + t * t * (d.x * d.x);
    assert p.y * p.y == m.y * m.y + 2.0 * t * (m.y * d.y) + t * t * (d.y * d.y);
    assert p.z * p.z == m.z * m.z + 2.0 * t * (m.z * d.z) + t * t * (d.z * d.z);
  }

  lemma ProductNonNegative(a: real, b: real)
    requires 0.0 <= a && 0.0 <= b
    ensures 0.0 <= a * b
  {
  }

  /** The dot product is linear in its first argument along a ray. */
  lemma DotAlongRay(e: Vec3, d: Vec3, t: real, n: Vec3)
    ensures Dot(Add(e, Scale(d, t)), n) == Dot(e, n) + t * Dot(d, n)
  {
    assert (e.x + d.x * t) * n.x == e.x * n.x + t * (d.x * n.x);
    assert (e.y + d.y * t) * n.y == e.y * n.y + t * (d.y * n.y);
    assert (e.z + d.z * t) * n.z == e.z * n.z + t * (d.z * n.z);
  }
}
