/** The scene's primitives and their ray intersection tests
    (`Plane` and `Sphere` in ConsoleApp1/RayTracer.cs). A ray starts at `eye`
    and points along `dir`; the caller passes a normalised direction, but the
    tests themselves never rely on that. */
module Geometry {
  import opened Vectors

  /** The primitives of the scene. `Unrecognized` stands for any other
      subclass of the abstract object type: the shader rejects it. */
  datatype Primitive =
    | Plane(position: Vec3, normal: Vec3)
    | Sphere(center: Vec3, radius: real)
    | Unrecognized

  /** What an `Intersect` call reports: whether the ray hit, and the value it
      writes to its `out t` parameter. */
  datatype HitResult = HitResult(hit: bool, t: real)

  /** A miss with `t` set to 0. The plane test returns it when the ray is
      parallel; when the plane lies behind the eye it reports a miss but keeps
      the non-positive distance it computed. */
  const Miss := HitResult(false, 0.0)

  /** Below this magnitude of dot(dir, normal) a ray counts as parallel to a plane. */
  const ParallelTolerance: real := 0.000001

  function Abs(x: real): real {
    if x < 0.0 then -x else x
  }

  // ---------------------------------------------------------------- Plane

  /** Plane.Intersect: a ray (nearly) parallel to the plane misses with t = 0;
      otherwise t solves t * dot(dir, n) == dot(position - eye, n) and the ray
      hits exactly when t is strictly positive. */
  function PlaneIntersect(plane: Primitive, eye: Vec3, dir: Vec3): (r: HitResult)
    requires plane.Plane?
    ensures Abs(Dot(dir, plane.normal)) <= ParallelTolerance ==> r == Miss
    ensures Abs(Dot(dir, plane.normal)) > ParallelTolerance ==>
              r.t * Dot(dir, plane.normal) == Dot(Sub(plane.position, eye), plane.normal)
              && (r.hit <==> r.t > 0.0)
  {
    var denom := Dot(dir, plane.normal);
    if Abs(denom) > ParallelTolerance then
      var t := Dot(Sub(plane.position, eye), plane.normal) / denom;
      HitResult(t > 0.0, t)
    else
      Miss
  }

  /** Whenever the plane test is not in its parallel case, the point at the
      reported distance lies on the plane, so every plane hit is a point of
      the plane in front of the eye. */
  lemma PlaneHitLiesOnPlane(plane: Primitive, eye: Vec3, dir: Vec3)
    requires plane.Plane?
    requires Abs(Dot(dir, plane.normal)) > ParallelTolerance
    ensures var r := PlaneIntersect(plane, eye, dir);
            Dot(Sub(Add(eye, Scale(dir, r.t)), plane.position), plane.normal) == 0.0
  {
    var r := PlaneIntersect(plane, eye, dir);
    var n := plane.normal;
    var p := Add(eye, Scale(dir, r.t));
    DotAlongRay(eye, dir, r.t, n);
    assert Dot(Sub(p, plane.position), n) == Dot(p, n) - Dot(plane.position, n);
    assert Dot(Sub(plane.position, eye), n) == Dot(plane.position, n) - Dot(eye, n);
  }

  /** A ray whose direction is exactly perpendicular to the normal never hits. */
  lemma ParallelRayMisses(plane: Primitive, eye: Vec3, dir: Vec3)
    requires plane.Plane? && Dot(dir, plane.normal) == 0.0
    ensures !PlaneIntersect(plane, eye, dir).hit
  {
  }

  // --------------------------------------------------------------- Sphere

  /** p_d = dot(eye - center, dir) */
  function ProjectedOffset(sphere: Primitive, eye: Vec3, dir: Vec3): real
    requires sphere.Sphere?
  {
    Dot(Sub(eye, sphere.center), dir)
  }

  /** p_p - r^2 = |eye - center|^2 - r^2 */
  function ConstantTerm(sphere: Primitive, eye: Vec3): real
    requires sphere.Sphere?
  {
    Dot(Sub(eye, sphere.center), Sub(eye, sphere.center)) - sphere.radius * sphere.radius
  }

  /** The reduced discriminant p_d^2 - (p_p - r^2). */
  function Discriminant(sphere: Primitive, eye: Vec3, dir: Vec3): real
    requires sphere.Sphere?
  {
    var pd := ProjectedOffset(sphere, eye, dir);
    pd * pd - ConstantTerm(sphere, eye)
  }

  /** The reduced ray-sphere equation t^2 + 2*p_d*t + (p_p - r^2), whose
      roots -p_d -+ sqrt(discriminant) the intersection test computes. */
  function Quadratic(pd: real, c: real, t: real): real {
    t * t + 2.0 * pd * t + c
  }

  function SphereEquation(sphere: Primitive, eye: Vec3, dir: Vec3, t: real): real
    requires sphere.Sphere?
  {
    Quadratic(ProjectedOffset(sphere, eye, dir), ConstantTerm(sphere, eye), t)
  }

  /** `s` is what the square root of `disc` returns, where the source takes one. */
  predicate IsSqrt(disc: real, s: real) {
    0.0 <= disc ==> 0.0 <= s && s * s == disc
  }

  /** The meaning of Sphere.Intersect, independently of how the roots are
      computed: a hit reports the smallest non-negative root of the ray-sphere
      equation (a root at exactly 0 counts); a miss writes t = 0 and happens
      exactly when the equation has no non-negative root. */
  ghost predicate IsSphereHit(sphere: Primitive, eye: Vec3, dir: Vec3, r: HitResult)
    requires sphere.Sphere?
  {
    if r.hit then
      0.0 <= r.t && SphereEquation(sphere, eye, dir, r.t) == 0.0
      && forall u :: 0.0 <= u && SphereEquation(sphere, eye, dir, u) == 0.0 ==> r.t <= u
    else
      r.t == 0.0 && forall u :: SphereEquation(sphere, eye, dir, u) == 0.0 ==> u < 0.0
  }

  /** Sphere.Intersect, with the square root of the discriminant supplied as
      `sqrtDisc`. It computes both roots, orders them by a swap, keeps the near
      root unless it is negative, falls back to the far root, or misses. */
  method SphereIntersect(sphere: Primitive, eye: Vec3, dir: Vec3, sqrtDisc: real)
    returns (hit: bool, t: real)
    requires sphere.Sphere?
    requires IsSqrt(Discriminant(sphere, eye, dir), sqrtDisc)
    ensures Discriminant(sphere, eye, dir) < 0.0 ==> !hit && t == 0.0
    ensures IsSphereHit(sphere, eye, dir, HitResult(hit, t))
  {
    var p := eye;
    var d := dir;
    var m := Sub(p, sphere.center);
    var pd := Dot(m, d);
    var pp := Dot(m, m);
    var discriminant := pd * pd - (pp - sphere.radius * sphere.radius);
    ghost var c := ConstantTerm(sphere, eye);
    if discriminant < 0.0 {
      forall u ensures SphereEquation(sphere, eye, dir, u) > 0.0 {
        NoRootWhenDiscriminantNegative(pd, c, u);
      }
      t := 0.0;
      return false, t;
    }
    var t1 := -pd - sqrtDisc;
    var t2 := -pd + sqrtDisc;
    if t1 > t2 {
      var temp := t1;
      t1 := t2;
      t2 := temp;
    }
    assert t1 <= t2 && {t1, t2} == {-pd - sqrtDisc, -pd + sqrtDisc};
    RootsSolveQuadratic(pd, c, sqrtDisc);
    forall u | SphereEquation(sphere, eye, dir, u) == 0.0 ensures u == t1 || u == t2 {
      OnlyTwoRoots(pd, c, sqrtDisc, u);
    }
    if t1 < 0.0 {
      t1 := t2;
      if t1 < 0.0 {
        t := 0.0;
        return false, t;
      }
    }
    t := t1;
    return true, t;
  }

  /** The sphere test's specification is complete: at most one result meets it. */
  lemma SphereHitIsUnique(sphere: Primitive, eye: Vec3, dir: Vec3, r1: HitResult, r2: HitResult)
    requires sphere.Sphere?
    requires IsSphereHit(sphere, eye, dir, r1) && IsSphereHit(sphere, eye, dir, r2)
    ensures r1 == r2
  {
    if r1.hit && r2.hit {
      assert r1.t <= r2.t && r2.t <= r1.t;
    }
  }

  /** For a unit direction the reduced equation is the geometric one: `t`
      solves it exactly when the point eye + t*dir lies on the sphere. */
  lemma SphereEquationMeansOnSphere(sphere: Primitive, eye: Vec3, dir: Vec3, t: real)
    requires sphere.Sphere? && Dot(dir, dir) == 1.0
    ensures var q := Sub(Add(eye, Scale(dir, t)), sphere.center);
            (SphereEquation(sphere, eye, dir, t) == 0.0
             <==> Dot(q, q) == sphere.radius * sphere.radius)
  {
    var m := Sub(eye, sphere.center);
    assert Sub(Add(eye, Scale(dir, t)), sphere.center) == Add(m, Scale(dir, t));
    DotOfOffsetRay(m, dir, t);
  }

  /** The specification pins down the result as the source computes it:
      the near root -p_d - s if it is non-negative, else the far root
      -p_d + s if that is, else a miss with t = 0. */
  lemma SphereHitClosedForm(sphere: Primitive, eye: Vec3, dir: Vec3, s: real, r: HitResult)
    requires sphere.Sphere?
    requires 0.0 <= Discriminant(sphere, eye, dir) && IsSqrt(Discriminant(sphere, eye, dir), s)
    requires IsSphereHit(sphere, eye, dir, r)
    ensures var pd := ProjectedOffset(sphere, eye, dir);
            r == if 0.0 <= -pd - s then HitResult(true, -pd - s)
                 else if 0.0 <= -pd + s then HitResult(true, -pd + s)
                 else Miss
  {
    var pd := ProjectedOffset(sphere, eye, dir);
    var c := ConstantTerm(sphere, eye);
    RootsSolveQuadratic(pd, c, s);
    assert SphereEquation(sphere, eye, dir, -pd - s) == 0.0;
    assert SphereEquation(sphere, eye, dir, -pd + s) == 0.0;
    if r.hit {
      OnlyTwoRoots(pd, c, s, r.t);
    }
  }

  /** With the eye strictly inside the sphere the near root is negative, so the
      test falls back to the far root, which is strictly positive. */
  lemma EyeInsideSphereHitsFarRoot(sphere: Primitive, eye: Vec3, dir: Vec3, s: real, r: HitResult)
    requires sphere.Sphere?
    requires IsSqrt(Discriminant(sphere, eye, dir), s)
    requires ConstantTerm(sphere, eye) < 0.0
    requires IsSphereHit(sphere, eye, dir, r)
    ensures -ProjectedOffset(sphere, eye, dir) - s < 0.0
    ensures r.hit && r.t == -ProjectedOffset(sphere, eye, dir) + s && r.t > 0.0
  {
    var pd := ProjectedOffset(sphere, eye, dir);
    var c := ConstantTerm(sphere, eye);
    SquareNonNegative(pd);
    assert s * s > pd * pd;
    SqrtExceedsMagnitude(pd, s);
    RootsSolveQuadratic(pd, c, s);
    assert SphereEquation(sphere, eye, dir, -pd + s) == 0.0;
    if r.hit {
      OnlyTwoRoots(pd, c, s, r.t);
    }
  }

  /** With the eye outside the sphere and the centre behind it (p_d > 0), both
      roots are negative and the test misses. */
  lemma SphereBehindEyeMisses(sphere: Primitive, eye: Vec3, dir: Vec3, r: HitResult)
    requires sphere.Sphere?
    requires ConstantTerm(sphere, eye) > 0.0 && ProjectedOffset(sphere, eye, dir) > 0.0
    requires IsSphereHit(sphere, eye, dir, r)
    ensures !r.hit && r.t == 0.0
  {
    var pd := ProjectedOffset(sphere, eye, dir);
    var c := ConstantTerm(sphere, eye);
    if r.hit {
      assert false;
    }
  }

  /** A ray from outside the sphere aimed at its centre, which lies at
      distance `dist` along the unit direction, hits the near surface at
      dist - r: the near root is taken. */
  lemma RayAtCentreHitsNearSurface(sphere: Primitive, eye: Vec3, dir: Vec3, dist: real,
                                   r: HitResult)
    requires sphere.Sphere? && Dot(dir, dir) == 1.0
    requires Sub(sphere.center, eye) == Scale(dir, dist) && 0.0 <= sphere.radius <= dist
    requires IsSphereHit(sphere, eye, dir, r)
    ensures r == HitResult(true, dist - sphere.radius)
  {
    var m := Sub(eye, sphere.center);
    var rad := sphere.radius;
    assert m == Vec3(-dist * dir.x, -dist * dir.y, -dist * dir.z);
    assert Dot(m, dir) == -dist * Dot(dir, dir);
    assert Dot(m, m) == dist * dist * Dot(dir, dir);
    assert ProjectedOffset(sphere, eye, dir) == -dist;
    assert ConstantTerm(sphere, eye) == dist * dist - rad * rad;
    assert Discriminant(sphere, eye, dir) == rad * rad;
    SphereHitClosedForm(sphere, eye, dir, rad, r);
  }

  /** GetNormal before normalisation: the plane's stored normal, or the
      offset of the point from the sphere's centre. */
  function NormalDirection(obj: Primitive, point: Vec3): Vec3
    requires !obj.Unrecognized?
  {
    if obj.Plane? then obj.normal else Sub(point, obj.center)
  }

  /** At a sphere hit along a unit direction the un-normalised normal has
      length equal to the radius, so normalising it is well defined for a
      sphere of non-zero radius. */
  lemma SphereHitNormalHasRadiusLength(sphere: Primitive, eye: Vec3, dir: Vec3, r: HitResult)
    requires sphere.Sphere? && Dot(dir, dir) == 1.0
    requires IsSphereHit(sphere, eye, dir, r) && r.hit
    ensures var n := NormalDirection(sphere, Add(eye, Scale(dir, r.t)));
            Dot(n, n) == sphere.radius * sphere.radius
  {
    SphereEquationMeansOnSphere(sphere, eye, dir, r.t);
  }

  /** With a negative discriminant the specified result is a miss. */
  lemma NegativeDiscriminantMisses(sphere: Primitive, eye: Vec3, dir: Vec3, r: HitResult)
    requires sphere.Sphere?
    requires Discriminant(sphere, eye, dir) < 0.0
    requires IsSphereHit(sphere, eye, dir, r)
    ensures r == Miss
  {
    if r.hit {
      NoRootWhenDiscriminantNegative(ProjectedOffset(sphere, eye, dir), ConstantTerm(sphere, eye), r.t);
    }
  }

  /** With a negative discriminant the equation has no real root at all. */
  lemma NoRootWhenDiscriminantNegative(pd: real, c: real, u: real)
    requires pd * pd - c < 0.0
    ensures Quadratic(pd, c, u) > 0.0
  {
    assert Quadratic(pd, c, u) == (u + pd) * (u + pd) + (c - pd * pd);
    SquareNonNegative(u + pd);
  }

  /** Both computed roots -p_d -+ s solve the equation. */
  lemma RootsSolveQuadratic(pd: real, c: real, s: real)
    requires s * s == pd * pd - c
    ensures Quadratic(pd, c, -pd - s) == 0.0 && Quadratic(pd, c, -pd + s) == 0.0
  {
    assert Quadratic(pd, c, -pd - s) == s * s - pd * pd + c;
    assert Quadratic(pd, c, -pd + s) == s * s - pd * pd + c;
  }

  /** The equation has no root besides -p_d -+ s. */
  lemma OnlyTwoRoots(pd: real, c: real, s: real, u: real)
    requires 0.0 <= s && s * s == pd * pd - c
    requires Quadratic(pd, c, u) == 0.0
    ensures u == -pd - s || u == -pd + s
  {
    assert (u + pd - s) * (u + pd + s) == Quadratic(pd, c, u);
    if u + pd - s != 0.0 {
      assert u + pd + s == 0.0 by {
        ProductZero(u + pd - s, u + pd + s);
      }
    }
  }

  lemma SquareNonNegative(a: real)
    ensures a * a >= 0.0
  {
    if a < 0.0 {
      assert a * a == (-a) * (-a);
    }
  }

  /** A non-negative `s` whose square exceeds pd^2 exceeds |pd|. */
  lemma SqrtExceedsMagnitude(pd: real, s: real)
    requires 0.0 <= s && s * s > pd * pd
    ensures s > pd && s > -pd
  {
    if s <= pd {
      ProductMonotone(s, pd);
    }
    if s <= -pd {
      ProductMonotone(s, -pd);
    }
  }

  lemma ProductMonotone(a: real, b: real)
    requires 0.0 <= a <= b
    ensures a * a <= b * b
  {
    ProductNonNegative(b - a, b + a);
  }

  lemma ProductZero(a: real, b: real)
    requires a * b == 0.0 && a != 0.0
    ensures b == 0.0
  {
  }
}
