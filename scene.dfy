/** The scene of Window_RenderFrame in ConsoleApp1/RayTracer.cs, a floor
    plane and three spheres, and nearest-hit resolution: the per-sample block
    that calls every primitive's `Intersect` in a fixed order and keeps the
    closest hit. */
module Scene {
  import opened Vectors
  import opened Geometry
  import opened Options

  /** float.MaxValue, the initial `minDist`: a hit at this distance or beyond
      is never recorded. */
  const FloatMax: real := 340282346638528859811704183484516925440.0

  /** `closest` and `minDist` are what the block leaves behind for the
      intersection results `hits`, taken in scene order: with no recorded hit
      the null object and float.MaxValue; otherwise the index of a hit at the
      least distance, the first such index on a tie, and that distance. */
  ghost predicate IsNearest(hits: seq<HitResult>, closest: Option<nat>, minDist: real) {
    match closest
    case None =>
      minDist == FloatMax
      && forall i :: 0 <= i < |hits| && hits[i].hit ==> FloatMax <= hits[i].t
    case Some(k) =>
      k < |hits| && hits[k].hit && hits[k].t == minDist && minDist < FloatMax
      && (forall i :: 0 <= i < |hits| && hits[i].hit ==> minDist <= hits[i].t)
      && (forall i :: 0 <= i < k && hits[i].hit ==> minDist < hits[i].t)
  }

  /** The scan: every primitive that reports a hit closer than the current
      `minDist` (strict `<`) replaces the current choice. */
  method NearestHit(hits: seq<HitResult>) returns (closest: Option<nat>, minDist: real)
    ensures IsNearest(hits, closest, minDist)
    ensures (forall i :: 0 <= i < |hits| ==> hits[i].t < FloatMax) ==>
              (closest == None <==> forall i :: 0 <= i < |hits| ==> !hits[i].hit)
  {
    minDist := FloatMax;
    closest := None;
    for j := 0 to |hits|
      invariant IsNearest(hits[..j], closest, minDist)
    {
      if hits[j].hit {
        if hits[j].t < minDist {
          minDist := hits[j].t;
          closest := Some(j);
        }
      }
    }
    assert hits[..|hits|] == hits;
  }

  /** The strict `<` makes the choice deterministic: the outcome is unique. */
  lemma NearestIsUnique(hits: seq<HitResult>, c1: Option<nat>, d1: real, c2: Option<nat>, d2: real)
    requires IsNearest(hits, c1, d1) && IsNearest(hits, c2, d2)
    ensures c1 == c2 && d1 == d2
  {
  }

  /** Reordering the primitives never changes the nearest distance, nor
      whether anything is hit; only the index on a tie depends on the order. */
  lemma NearestDistanceIgnoresOrder(a: seq<HitResult>, ca: Option<nat>, da: real,
                                    b: seq<HitResult>, cb: Option<nat>, db: real)
    requires multiset(a) == multiset(b)
    requires IsNearest(a, ca, da) && IsNearest(b, cb, db)
    ensures da == db && (ca == None <==> cb == None)
  {
    if ca.Some? {
      FoundIn(a, b, ca.value);
    }
    if cb.Some? {
      FoundIn(b, a, cb.value);
    }
  }

  /** An element of `a` has a position in any `b` with the same multiset. */
  lemma FoundIn(a: seq<HitResult>, b: seq<HitResult>, k: nat)
    requires multiset(a) == multiset(b) && k < |a|
    ensures exists i :: 0 <= i < |b| && b[i] == a[k]
  {
    assert a[k] in multiset(a);
    assert a[k] in b;
  }

  /** The floor plane y = -2 and the three spheres of the rendered scene. */
  const ScenePlane := Plane(Vec3(0.0, -2.0, 0.0), Vec3(0.0, 1.0, 0.0))
  const Sphere1 := Sphere(Vec3(-4.0, 0.0, -7.0), 1.0)
  const Sphere2 := Sphere(Vec3(0.0, 0.0, -7.0), 2.0)
  const Sphere3 := Sphere(Vec3(4.0, 0.0, -7.0), 1.0)
  /** The order in which the intersection tests run. */
  const Objects: seq<Primitive> := [ScenePlane, Sphere1, Sphere2, Sphere3]

  /** The layout the per-sample code relies on: a plane, then three spheres.
      The per-sample methods take the objects as a parameter of this shape;
      the renderer passes `Objects`. */
  predicate IsSceneLayout(objects: seq<Primitive>) {
    |objects| == 4 && objects[0].Plane?
    && objects[1].Sphere? && objects[2].Sphere? && objects[3].Sphere?
  }

  /** The source's scene has the layout the per-sample code expects. */
  lemma SourceSceneHasLayout()
    ensures IsSceneLayout(Objects)
  {
  }
}
