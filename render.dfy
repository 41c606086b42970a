/** The per-sample work of Window_RenderFrame in ConsoleApp1/RayTracer.cs
    over its fixed camera and scene: generate the ray, test the plane and the
    three spheres, keep the nearest hit. The source's `t` serves both as the
    image-plane top bound and as the `out` argument of every `Intersect`
    call, so each sample hands the next one the value sphere3's test wrote:
    `TraceSample` takes that bound as `top` and returns it as `topAfter`. */
module Render {
  import opened Vectors
  import opened Geometry
  import opened Camera
  import opened Scene
  import opened Options

  const Eye := Vec3(0.0, 0.0, 0.0)
  const CameraU := Vec3(1.0, 0.0, 0.0)
  const CameraV := Vec3(0.0, 1.0, 0.0)
  const CameraW := Vec3(0.0, 0.0, 1.0)
  const Left: real := -0.1
  const Right: real := 0.1
  const Bottom: real := -0.1
  /** The value `t` holds when a frame starts. */
  const InitialTop: real := 0.1
  const FocalDistance: real := 0.1
  /** The window is 512 by 512 pixels. */
  const FrameSize: int := 512

  /** What a sample found: nothing (painted white, GL.Color3(1, 1, 1)), or the index
      in `Objects` of the nearest object and its distance. */
  datatype Sample = Background | Hit(index: nat, dist: real)

  /** `sqrt` returns a square root of every non-negative argument. */
  ghost predicate IsSqrtFunction(sqrt: real -> real) {
    forall z :: IsSqrt(z, sqrt(z))
  }

  /** The direction CalculateRayDirection builds for a sample, before it is
      normalised, with the window's top bound `top`. */
  function RawDirection(x: int, y: int, rx: real, ry: real, top: real): Vec3 {
    RayDirection(x, y, rx, ry, FrameSize, FrameSize, Left, Right, Bottom, top,
                 FocalDistance, CameraU, CameraV, CameraW)
  }

  /** The ray direction of a sample, normalised by `normalize`. */
  function SampleDirection(x: int, y: int, rx: real, ry: real, top: real,
                           normalize: Vec3 -> Vec3): Vec3
  {
    normalize(RawDirection(x, y, rx, ry, top))
  }

  /** `normalize` maps `raw` to a unit vector pointing the same way, as
      Vector3.Normalized does: it scales `raw` by k > 0. */
  predicate IsUnitScaling(raw: Vec3, normalize: Vec3 -> Vec3, k: real) {
    0.0 < k && normalize(raw) == Scale(raw, k) && Dot(normalize(raw), normalize(raw)) == 1.0
  }

  /** What one sample computes: the four intersection results in scene order,
      the nearest hit among them, and the value left in `t`, which is the one
      sphere3's test wrote. */
  ghost predicate SampleTrace(objects: seq<Primitive>, x: int, y: int, rx: real, ry: real,
                              top: real, normalize: Vec3 -> Vec3,
                              hits: seq<HitResult>, sample: Sample, topAfter: real)
    requires IsSceneLayout(objects)
  {
    var dir := SampleDirection(x, y, rx, ry, top, normalize);
    |hits| == 4
    && hits[0] == PlaneIntersect(objects[0], Eye, dir)
    && IsSphereHit(objects[1], Eye, dir, hits[1])
    && IsSphereHit(objects[2], Eye, dir, hits[2])
    && IsSphereHit(objects[3], Eye, dir, hits[3])
    && IsOutcome(hits, sample)
    && topAfter == hits[3].t
  }

  /** `sample` is what the nearest-hit scan leaves for `hits`. */
  ghost predicate IsOutcome(hits: seq<HitResult>, sample: Sample) {
    match sample
    case Background => IsNearest(hits, None, FloatMax)
    case Hit(k, d) => IsNearest(hits, Some(k), d)
  }

  /** One sample of one pixel, with the jitter (rx, ry) and the current value
      of `t` as `top`. */
  method TraceSample(objects: seq<Primitive>, x: int, y: int, rx: real, ry: real, top: real,
                     normalize: Vec3 -> Vec3, sqrt: real -> real)
    returns (hits: seq<HitResult>, sample: Sample, topAfter: real)
    requires IsSceneLayout(objects) && IsSqrtFunction(sqrt)
    ensures SampleTrace(objects, x, y, rx, ry, top, normalize, hits, sample, topAfter)
  {
    var rayDir := SampleDirection(x, y, rx, ry, top, normalize);
    var hit: bool;
    var t: real;
    var plane, sphere1, sphere2, sphere3 := objects[0], objects[1], objects[2], objects[3];
    var planeHit := PlaneIntersect(plane, Eye, rayDir);
    t := planeHit.t;
    hit, t := SphereIntersect(sphere1, Eye, rayDir, sqrt(Discriminant(sphere1, Eye, rayDir)));
    var sphere1Hit := HitResult(hit, t);
    hit, t := SphereIntersect(sphere2, Eye, rayDir, sqrt(Discriminant(sphere2, Eye, rayDir)));
    var sphere2Hit := HitResult(hit, t);
    hit, t := SphereIntersect(sphere3, Eye, rayDir, sqrt(Discriminant(sphere3, Eye, rayDir)));
    var sphere3Hit := HitResult(hit, t);
    hits := [planeHit, sphere1Hit, sphere2Hit, sphere3Hit];
    var closest, minDist := NearestHit(hits);
    sample := if closest.None? then Background else Hit(closest.value, minDist);
    topAfter := t;
  }

  /** The samples of one pixel, one per jitter pair. Each sample reassigns
      the pixel's colour rather than adding to it, so the pixel shows the last
      sample (nothing new when there are no samples); `t` carries over from
      each sample to the next. */
  method RenderPixel(objects: seq<Primitive>, x: int, y: int, jitters: seq<(real, real)>,
                     top: real, normalize: Vec3 -> Vec3, sqrt: real -> real)
    returns (shown: Option<Sample>, samples: seq<Sample>, traces: seq<seq<HitResult>>,
             tops: seq<real>)
    requires IsSceneLayout(objects) && IsSqrtFunction(sqrt)
    ensures |samples| == |jitters| && |traces| == |jitters| && |tops| == |jitters| + 1
    ensures tops[0] == top
    ensures forall k :: 0 <= k < |jitters| ==>
              SampleTrace(objects, x, y, jitters[k].0, jitters[k].1, tops[k], normalize,
                          traces[k], samples[k], tops[k + 1])
    ensures shown == if jitters == [] then None else Some(samples[|jitters| - 1])
  {
    shown := None;
    samples, traces, tops := [], [], [top];
    for s := 0 to |jitters|
      invariant |samples| == s && |traces| == s && |tops| == s + 1 && tops[0] == top
      invariant forall k :: 0 <= k < s ==>
                  SampleTrace(objects, x, y, jitters[k].0, jitters[k].1, tops[k], normalize,
                              traces[k], samples[k], tops[k + 1])
      invariant shown == if s == 0 then None else Some(samples[s - 1])
    {
      var (rx, ry) := jitters[s];
      var hits, sample, topAfter := TraceSample(objects, x, y, rx, ry, tops[s], normalize, sqrt);
      ghost var samples0, traces0, tops0 := samples, traces, tops;
      samples, traces, tops := samples + [sample], traces + [hits], tops + [topAfter];
      forall k | 0 <= k < s + 1
        ensures SampleTrace(objects, x, y, jitters[k].0, jitters[k].1, tops[k], normalize,
                            traces[k], samples[k], tops[k + 1])
      {
        if k < s {
          assert tops[k] == tops0[k] && tops[k + 1] == tops0[k + 1];
          assert traces[k] == traces0[k] && samples[k] == samples0[k];
        }
      }
      shown := Some(sample);
    }
  }

  /** The samples of one pixel as the source evidently intends them: every
      sample uses the frame's window [Bottom, InitialTop], and the value the
      intersection tests write goes to a variable of its own. */
  method RenderPixelFixedWindow(objects: seq<Primitive>, x: int, y: int,
                                jitters: seq<(real, real)>, normalize: Vec3 -> Vec3,
                                sqrt: real -> real)
    returns (shown: Option<Sample>, samples: seq<Sample>, traces: seq<seq<HitResult>>)
    requires IsSceneLayout(objects) && IsSqrtFunction(sqrt)
    ensures |samples| == |jitters| && |traces| == |jitters|
    ensures forall k :: 0 <= k < |jitters| ==>
              |traces[k]| == 4
              && SampleTrace(objects, x, y, jitters[k].0, jitters[k].1, InitialTop, normalize,
                             traces[k], samples[k], traces[k][3].t)
    ensures shown == if jitters == [] then None else Some(samples[|jitters| - 1])
  {
    shown := None;
    samples, traces := [], [];
    for s := 0 to |jitters|
      invariant |samples| == s && |traces| == s
      invariant forall k :: 0 <= k < s ==>
                  |traces[k]| == 4
                  && SampleTrace(objects, x, y, jitters[k].0, jitters[k].1, InitialTop, normalize,
                                 traces[k], samples[k], traces[k][3].t)
      invariant shown == if s == 0 then None else Some(samples[s - 1])
    {
      var (rx, ry) := jitters[s];
      var hits, sample, sphere3Dist := TraceSample(objects, x, y, rx, ry, InitialTop, normalize, sqrt);
      ghost var samples0, traces0 := samples, traces;
      samples, traces := samples + [sample], traces + [hits];
      forall k | 0 <= k < s + 1
        ensures |traces[k]| == 4
                && SampleTrace(objects, x, y, jitters[k].0, jitters[k].1, InitialTop, normalize,
                               traces[k], samples[k], traces[k][3].t)
      {
        if k < s {
          assert traces[k] == traces0[k] && samples[k] == samples0[k];
        }
      }
      shown := Some(sample);
    }
  }

  /** A sample is a function of its inputs: the pixel, the jitter, the window
      top and the scene. So in `RenderPixelFixedWindow` each sample depends on
      its own jitter alone, never on the samples before it. */
  lemma SampleTraceIsDeterministic(objects: seq<Primitive>, x: int, y: int, rx: real, ry: real,
                                   top: real, normalize: Vec3 -> Vec3,
                                   hits1: seq<HitResult>, sample1: Sample, topAfter1: real,
                                   hits2: seq<HitResult>, sample2: Sample, topAfter2: real)
    requires IsSceneLayout(objects)
    requires SampleTrace(objects, x, y, rx, ry, top, normalize, hits1, sample1, topAfter1)
    requires SampleTrace(objects, x, y, rx, ry, top, normalize, hits2, sample2, topAfter2)
    ensures hits1 == hits2 && sample1 == sample2 && topAfter1 == topAfter2
  {
    var dir := SampleDirection(x, y, rx, ry, top, normalize);
    SceneHitsAreUnique(objects, dir, hits1, hits2);
    OutcomeIsUnique(hits1, sample1, sample2);
  }

  lemma SceneHitsAreUnique(objects: seq<Primitive>, dir: Vec3, hits1: seq<HitResult>,
                           hits2: seq<HitResult>)
    requires IsSceneLayout(objects) && |hits1| == 4 && |hits2| == 4 && hits1[0] == hits2[0]
    requires IsSphereHit(objects[1], Eye, dir, hits1[1]) && IsSphereHit(objects[1], Eye, dir, hits2[1])
    requires IsSphereHit(objects[2], Eye, dir, hits1[2]) && IsSphereHit(objects[2], Eye, dir, hits2[2])
    requires IsSphereHit(objects[3], Eye, dir, hits1[3]) && IsSphereHit(objects[3], Eye, dir, hits2[3])
    ensures hits1 == hits2
  {
    SphereHitIsUnique(objects[1], Eye, dir, hits1[1], hits2[1]);
    SphereHitIsUnique(objects[2], Eye, dir, hits1[2], hits2[2]);
    SphereHitIsUnique(objects[3], Eye, dir, hits1[3], hits2[3]);
    assert hits1 == [hits1[0], hits1[1], hits1[2], hits1[3]];
    assert hits2 == [hits2[0], hits2[1], hits2[2], hits2[3]];
  }

  lemma OutcomeIsUnique(hits: seq<HitResult>, sample1: Sample, sample2: Sample)
    requires IsOutcome(hits, sample1) && IsOutcome(hits, sample2)
    ensures sample1 == sample2
  {
    var c1, d1 := if sample1.Hit? then Some(sample1.index) else None,
                  if sample1.Hit? then sample1.dist else FloatMax;
    var c2, d2 := if sample2.Hit? then Some(sample2.index) else None,
                  if sample2.Hit? then sample2.dist else FloatMax;
    NearestIsUnique(hits, c1, d1, c2, d2);
  }

  /** Every sample left of the image's middle column (x + rx <= 256) misses
      sphere3, whatever the current top bound, so the source's `t` becomes 0:
      the ray leans left of the axis while sphere3 lies to its right. The
      first sample of every frame, at pixel (0, 0), is such a sample, so from
      then on the window's top bound is 0 instead of 0.1, until a sample hits
      sphere3. */
  lemma LeftHalfSampleZeroesTop(objects: seq<Primitive>, x: int, y: int, rx: real, ry: real,
                                top: real, normalize: Vec3 -> Vec3, k: real,
                                hits: seq<HitResult>, sample: Sample, topAfter: real)
    requires IsSceneLayout(objects) && objects[3] == Sphere3
    requires 0.0 <= x as real + rx <= 256.0
    requires IsUnitScaling(RawDirection(x, y, rx, ry, top), normalize, k)
    requires SampleTrace(objects, x, y, rx, ry, top, normalize, hits, sample, topAfter)
    ensures topAfter == 0.0
  {
    LeftHalfRayMissesSphere3(x, y, rx, ry, top, normalize, k);
    Sphere3MissZeroesTop(objects, x, y, rx, ry, top, normalize, hits, sample, topAfter);
  }

  /** With the top bound at 0 instead of 0.1, the window's middle row 256
      maps to -0.05 instead of 0: the picture's vertical extent is halved. */
  lemma ZeroTopShiftsMiddleRow()
    ensures ImageCoord(Bottom, InitialTop, 256, 0.0, FrameSize) == 0.0
    ensures ImageCoord(Bottom, 0.0, 256, 0.0, FrameSize) == -0.05
  {
    ImageCoordMidpoint(Bottom, InitialTop, 256, FrameSize);
    ImageCoordMidpoint(Bottom, 0.0, 256, FrameSize);
  }

  /** A sample whose ray has a negative discriminant against sphere3 leaves 0 in `t`. */
  lemma Sphere3MissZeroesTop(objects: seq<Primitive>, x: int, y: int, rx: real, ry: real,
                             top: real, normalize: Vec3 -> Vec3,
                             hits: seq<HitResult>, sample: Sample, topAfter: real)
    requires IsSceneLayout(objects)
    requires SampleTrace(objects, x, y, rx, ry, top, normalize, hits, sample, topAfter)
    requires Discriminant(objects[3], Eye, SampleDirection(x, y, rx, ry, top, normalize)) < 0.0
    ensures topAfter == 0.0
  {
    NegativeDiscriminantMisses(objects[3], Eye, SampleDirection(x, y, rx, ry, top, normalize), hits[3]);
  }

  /** The normalised ray of a sample left of the middle column misses sphere3:
      its discriminant against sphere3 is negative. */
  lemma LeftHalfRayMissesSphere3(x: int, y: int, rx: real, ry: real, top: real,
                                 normalize: Vec3 -> Vec3, k: real)
    requires 0.0 <= x as real + rx <= 256.0
    requires IsUnitScaling(RawDirection(x, y, rx, ry, top), normalize, k)
    ensures Discriminant(Sphere3, Eye, SampleDirection(x, y, rx, ry, top, normalize)) < 0.0
  {
    LeftHalfDirection(x, y, rx, ry, top, normalize, k);
    LeftLeaningRayMisses(Sphere3, SampleDirection(x, y, rx, ry, top, normalize));
  }

  /** The normalised ray of a sample left of the middle column points forward,
      leans left by at most 45 degrees, and has z >= -1. */
  lemma LeftHalfDirection(x: int, y: int, rx: real, ry: real, top: real,
                          normalize: Vec3 -> Vec3, k: real)
    requires 0.0 <= x as real + rx <= 256.0
    requires IsUnitScaling(RawDirection(x, y, rx, ry, top), normalize, k)
    ensures var d := SampleDirection(x, y, rx, ry, top, normalize);
            -1.0 <= d.z < 0.0 && d.z <= d.x <= 0.0
  {
    var px := ImageCoord(Left, Right, x, rx, FrameSize);
    var py := ImageCoord(Bottom, top, y, ry, FrameSize);
    LeftHalfImageCoord(x, rx);
    RawDirectionInAxisBasis(x, y, rx, ry, top);
    ScaledLeftLeaning(RawDirection(x, y, rx, ry, top), normalize, k, px, py);
  }

  /** The renderer's direction before normalising is (px, py, -0.1). */
  lemma RawDirectionInAxisBasis(x: int, y: int, rx: real, ry: real, top: real)
    ensures RawDirection(x, y, rx, ry, top)
         == Vec3(ImageCoord(Left, Right, x, rx, FrameSize), ImageCoord(Bottom, top, y, ry, FrameSize), -0.1)
  {
    RayDirectionInAxisBasis(x, y, rx, ry, FrameSize, FrameSize, Left, Right, Bottom, top,
                            FocalDistance);
  }

  /** Scaling (px, py, -0.1) with -0.1 <= px <= 0 to unit length gives a
      forward direction leaning left by at most 45 degrees, whose z component
      is at least -1. */
  lemma ScaledLeftLeaning(raw: Vec3, normalize: Vec3 -> Vec3, k: real, px: real, py: real)
    requires raw == Vec3(px, py, -0.1) && -0.1 <= px <= 0.0
    requires IsUnitScaling(raw, normalize, k)
    ensures var d := normalize(raw); -1.0 <= d.z < 0.0 && d.z <= d.x <= 0.0
  {
    var d := normalize(raw);
    assert d == Vec3(px * k, py * k, -0.1 * k);
    ProductNonNegative(px + 0.1, k);
    ProductNonNegative(-px, k);
    UnitComponentBound(d);
  }

  /** Each component of a unit vector lies in [-1, 1]; here the z component. */
  lemma UnitComponentBound(d: Vec3)
    requires Dot(d, d) == 1.0
    ensures -1.0 <= d.z
  {
    SquareNonNegative(d.x);
    SquareNonNegative(d.y);
    if d.z < -1.0 {
      ProductMonotone(1.0, -d.z);
    }
  }

  /** A forward ray leaning left by at most 45 degrees, with z >= -1 (as for
      any unit vector), misses sphere3: the discriminant is negative. */
  lemma LeftLeaningRayMisses(sphere: Primitive, dir: Vec3)
    requires sphere == Sphere(Vec3(4.0, 0.0, -7.0), 1.0)
    requires -1.0 <= dir.z < 0.0 && dir.z <= dir.x <= 0.0
    ensures Discriminant(sphere, Eye, dir) < 0.0
  {
    RayOffsetsOf(sphere, 4.0, 0.0, -7.0, 1.0, dir);
    var pd := ProjectedOffset(sphere, Eye, dir);
    OffsetSquareBound(dir, pd);
    assert ConstantTerm(sphere, Eye) == 64.0;
    assert Discriminant(sphere, Eye, dir) == pd * pd - 64.0;
  }

  /** Left of the middle column the horizontal image-plane coordinate lies in
      [-0.1, 0]. */
  lemma LeftHalfImageCoord(x: int, rx: real)
    requires 0.0 <= x as real + rx <= 256.0
    ensures -0.1 <= ImageCoord(Left, Right, x, rx, FrameSize) <= 0.0
  {
    ImageCoordInWindow(Left, Right, x, rx, FrameSize);
    ImageCoordMonotone(Left, Right, x, rx, 256, 0.0, FrameSize);
    ImageCoordMidpoint(Left, Right, 256, FrameSize);
  }

  /** For a direction with -1 <= z < 0 and z <= x <= 0, the offset
      p_d = -4x + 7z against sphere3 lies in [7z, 3z] and so p_d^2 <= 49 < 64. */
  lemma OffsetSquareBound(dir: Vec3, pd: real)
    requires -1.0 <= dir.z < 0.0 && dir.z <= dir.x <= 0.0
    requires pd == -4.0 * dir.x + 7.0 * dir.z
    ensures pd * pd < 64.0
  {
    assert 0.0 <= -pd <= 7.0;
    ProductMonotone(-pd, 7.0);
    assert pd * pd == (-pd) * (-pd) <= 49.0;
  }

  /** After any sample the image-plane top bound is sphere3's distance, or 0
      when sphere3 was missed; it is never negative, so it still lies above
      the bottom bound and every later sample stays inside its window. */
  lemma AliasedTopIsSphere3Distance(objects: seq<Primitive>, x: int, y: int, rx: real,
                                    ry: real, top: real, normalize: Vec3 -> Vec3,
                                    hits: seq<HitResult>, sample: Sample, topAfter: real)
    requires IsSceneLayout(objects)
    requires SampleTrace(objects, x, y, rx, ry, top, normalize, hits, sample, topAfter)
    ensures hits[3].hit ==> topAfter == hits[3].t && 0.0 <= topAfter
    ensures !hits[3].hit ==> topAfter == 0.0
    ensures Bottom < topAfter
  {
  }

  /** A sample paints the background exactly when no primitive reports a hit
      (for distances below float.MaxValue). */
  lemma BackgroundIffNothingHit(objects: seq<Primitive>, x: int, y: int, rx: real,
                                ry: real, top: real, normalize: Vec3 -> Vec3,
                                hits: seq<HitResult>, sample: Sample, topAfter: real)
    requires IsSceneLayout(objects)
    requires SampleTrace(objects, x, y, rx, ry, top, normalize, hits, sample, topAfter)
    requires forall j :: 0 <= j < 4 ==> hits[j].t < FloatMax
    ensures sample.Background? <==> forall j :: 0 <= j < 4 ==> !hits[j].hit
  {
    if sample.Hit? {
      assert hits[sample.index].hit;
    }
  }

  /** p_d, p_p - r^2 and the discriminant of a sphere centred at
      (cx, cy, cz) with radius r, for a ray from the eye along `dir`. */
  lemma RayOffsetsOf(sphere: Primitive, cx: real, cy: real, cz: real, r: real, dir: Vec3)
    requires sphere == Sphere(Vec3(cx, cy, cz), r)
    ensures ProjectedOffset(sphere, Eye, dir) == -cx * dir.x - cy * dir.y - cz * dir.z
    ensures ConstantTerm(sphere, Eye) == cx * cx + cy * cy + cz * cz - r * r
  {
    assert Sub(Eye, sphere.center) == Vec3(-cx, -cy, -cz);
  }

  /** The ray from the eye straight along -w meets the middle sphere (radius
      2, centre 7 away) at distance 5. */
  lemma CentreRayHitsMiddleSphereAtFive(sphere: Primitive, dir: Vec3, r: HitResult)
    requires sphere == Sphere(Vec3(0.0, 0.0, -7.0), 2.0) && dir == Vec3(0.0, 0.0, -1.0)
    requires IsSphereHit(sphere, Eye, dir, r)
    ensures r == HitResult(true, 5.0)
  {
    AxisRayHitsNearSurface(sphere, dir, 7.0, r);
  }

  /** The ray along -w meets a sphere centred on that axis at distance d,
      with radius at most d, at d minus the radius. */
  lemma AxisRayHitsNearSurface(sphere: Primitive, dir: Vec3, d: real, r: HitResult)
    requires sphere.Sphere? && sphere.center == Vec3(0.0, 0.0, -d) && 0.0 <= sphere.radius <= d
    requires dir == Vec3(0.0, 0.0, -1.0)
    requires IsSphereHit(sphere, Eye, dir, r)
    ensures r == HitResult(true, d - sphere.radius)
  {
    assert Sub(sphere.center, Eye) == Scale(dir, d);
    RayAtCentreHitsNearSurface(sphere, Eye, dir, d, r);
  }

  /** A ray straight down from the eye meets the floor plane y = -2 at distance 2. */
  lemma DownwardRayHitsFloorAtTwo()
    ensures PlaneIntersect(ScenePlane, Eye, Vec3(0.0, -1.0, 0.0)) == HitResult(true, 2.0)
  {
    assert Dot(Vec3(0.0, -1.0, 0.0), ScenePlane.normal) == -1.0;
    assert Dot(Sub(ScenePlane.position, Eye), ScenePlane.normal) == -2.0;
  }
}
