# Ray tracer core — a Dafny model

This project models the decision logic of a small C# ray tracer (`ConsoleApp1/RayTracer.cs`).
The program renders one fixed scene from a pinhole camera at the origin. The scene is a floor plane at y = -2 and three spheres centred at (-4, 0, -7), (0, 0, -7) and (4, 0, -7). For each pixel sample it builds a ray and tests the plane and the three spheres in that order. It keeps the nearest hit and either shades that object with a Phong model or paints the white background.

All arithmetic is over Dafny's `real`, not IEEE single precision. Square roots and vector normalisation are transcendental, so the model takes them as parameters:

- `SphereIntersect` receives the square root of its discriminant as a value `s` with `s >= 0` and `s*s == discriminant`.
- The per-sample driver receives a `sqrt` function that returns such a value for every non-negative argument.
- The driver receives `normalize` as an arbitrary function. Most proofs do not depend on what it returns. The lemmas about left-half samples assume `IsUnitScaling`: `normalize` scales the raw direction by some k > 0 to a vector of length 1, as `Vector3.Normalized` does in exact arithmetic.

Modules:

- `Vectors` (`vectors.dfy`): a real 3-vector with add, subtract, scale, negate and dot. It replaces the graphics library's `Vector3`.
- `Options` (`options.dfy`): the Option and Result types, for the null object reference and the thrown exception.
- `Geometry` (`geometry.dfy`): the primitives and the two intersection tests. `IsSphereHit` states what the sphere test means without reference to how it computes: the smallest non-negative root of the reduced ray–sphere equation, or a miss with t = 0 when the equation has no non-negative root. `SphereIntersect` is the source's procedure and is proved to meet that statement.
- `Camera` (`camera.dfy`): the pixel-to-image-plane mapping and the direction before normalisation.
- `Scene` (`scene.dfy`): the scene's objects (the floor plane and three spheres, in test order) and the nearest-hit scan over the intersection results, kept in scene order.
- `Shading` (`shading.dfy`): the material dispatch of `PhongShading`, the diffuse term, and the sum of the three reflection terms.
- `Render` (`render.dfy`): the camera constants and one sample's work. The per-sample methods take the scene objects as a parameter checked by `IsSceneLayout` (a plane, then three spheres). The renderer passes the fixed `Objects`.

In the source, `t` is both the image-plane top bound (0.1) and the `out` argument of every `Intersect` call. So after the first sample of a frame, the top bound is whatever sphere3's test last wrote: its hit distance, or 0 on a miss. `TraceSample` takes the bound as `top` and returns the new one as `topAfter`, and `RenderPixel` threads it from sample to sample, as the code is written. `RenderPixelFixedWindow` is the evidently intended version: every sample uses the window top 0.1. The finding below records the difference.

`N` samples per pixel each overwrite the colour rather than adding to it, and nothing averages them. `RenderPixel` therefore shows the last sample. The source runs the intersection test and the `minDist` update one after the other for each object. The model first collects the four results and then scans them in the same order. The outcome is the same because each test depends only on the ray.

Facts of the code that the model keeps:

- A root at exactly 0 counts as a sphere hit, because lines 286 and 289 test `t1 < 0`.
- Each sample reassigns the colour (line 111), and nothing averages the samples.
- A sample that hits nothing paints white (`GL.Color3(1, 1, 1)`, line 120).
- The view direction at line 191 is −hitPoint, which is the direction to the eye only because the eye is at the origin. That code lies in the specular part, which is not modelled.

## Model

| member | source | states |
|---|---|---|
| `Geometry.PlaneIntersect` | ConsoleApp1/RayTracer.cs:225-237 | if abs(dot(dir, n)) <= 1e-6 the result is a miss with t = 0; otherwise t * dot(dir, n) = dot(position - eye, n), and it is a hit exactly when t > 0 |
| `Geometry.PlaneHitLiesOnPlane` | ConsoleApp1/RayTracer.cs:229-232 | outside the parallel case, the point eye + t*dir at the reported t lies on the plane |
| `Geometry.ParallelRayMisses` | ConsoleApp1/RayTracer.cs:227-236 | a ray exactly perpendicular to the normal never hits |
| `Geometry.SphereIntersect` | ConsoleApp1/RayTracer.cs:256-299 | a negative discriminant means a miss with t = 0; in every case the result is the smallest non-negative root of t² + 2·p_d·t + (abs(m)² − r²), where a root at 0 counts, or a miss with t = 0 exactly when there is no non-negative root |
| `Geometry.SphereHitIsUnique` | ConsoleApp1/RayTracer.cs:256-299 | the sphere test's specification allows at most one result |
| `Geometry.SphereHitClosedForm` | ConsoleApp1/RayTracer.cs:275-297 | given s ≥ 0 with s² = discriminant, the specified result is the near root −p_d − s if it is ≥ 0, else the far root −p_d + s if it is ≥ 0, else a miss |
| `Geometry.RootsSolveQuadratic` | ConsoleApp1/RayTracer.cs:275-277 | both computed roots −p_d ± s solve the reduced equation |
| `Geometry.OnlyTwoRoots` | ConsoleApp1/RayTracer.cs:275-277 | the reduced equation has no root other than −p_d ± s |
| `Geometry.NoRootWhenDiscriminantNegative` | ConsoleApp1/RayTracer.cs:266-272 | with a negative discriminant the equation has no real root, so the early miss loses nothing |
| `Geometry.NegativeDiscriminantMisses` | ConsoleApp1/RayTracer.cs:266-272 | a result that meets the sphere specification is a miss with t = 0 whenever the discriminant is negative |
| `Geometry.SphereEquationMeansOnSphere` | ConsoleApp1/RayTracer.cs:258-266 | for a unit direction, t solves the reduced equation exactly when abs(eye + t·dir − center)² = r² |
| `Geometry.EyeInsideSphereHitsFarRoot` | ConsoleApp1/RayTracer.cs:276-294 | with the eye strictly inside the sphere, the near root is negative and the test hits at the far root, which is > 0 |
| `Geometry.SphereBehindEyeMisses` | ConsoleApp1/RayTracer.cs:286-293 | with the eye outside and p_d > 0 (sphere behind the eye) the test misses with t = 0 |
| `Geometry.RayAtCentreHitsNearSurface` | ConsoleApp1/RayTracer.cs:256-299 | a unit ray from outside the sphere aimed at its centre, at distance D ≥ r, hits at D − r, the near root |
| `Geometry.NormalDirection` | ConsoleApp1/RayTracer.cs:239-242 | no contract of its own: GetNormal of the plane (the stored normal) and of the sphere (point − center, line 304) before normalising; `Geometry.SphereHitNormalHasRadiusLength` states its length at a sphere hit |
| `Geometry.SphereHitNormalHasRadiusLength` | ConsoleApp1/RayTracer.cs:302-305 | at a sphere hit along a unit direction, point − center (GetNormal before normalising) has squared length r², so it is non-zero when r ≠ 0 |
| `Camera.ImageCoord` | ConsoleApp1/RayTracer.cs:135-136 | no contract of its own: px and py of CalculateRayDirection; `Camera.ImageCoordInWindow`, `Camera.ImageCoordMonotone` and `Camera.ImageCoordMidpoint` state its properties |
| `Camera.RayDirection` | ConsoleApp1/RayTracer.cs:133-139 | no contract of its own: −w·d + u·px + v·py before normalising; `Camera.RayDirectionInAxisBasis` states its value in the renderer's camera basis |
| `Camera.ImageCoordInWindow` | ConsoleApp1/RayTracer.cs:135-136 | for lo ≤ hi, size > 0 and 0 ≤ i + jitter ≤ size, the image-plane coordinate lies in [lo, hi] |
| `Camera.ImageCoordMidpoint` | ConsoleApp1/RayTracer.cs:135-136 | pixel i with no jitter in a frame of 2i pixels maps to the middle of the window |
| `Camera.ImageCoordMonotone` | ConsoleApp1/RayTracer.cs:135-136 | the image-plane coordinate is monotone in i + jitter |
| `Camera.RayDirectionInAxisBasis` | ConsoleApp1/RayTracer.cs:133-141 | with u, v, w the coordinate axes (lines 37-39) the direction before normalising is (px, py, −d) |
| `Scene.NearestHit` | ConsoleApp1/RayTracer.cs:68-104 | nothing is chosen (minDist stays float.MaxValue) iff no result reports a hit below float.MaxValue; otherwise the chosen result is a hit, its t equals minDist, no hit is closer, and it comes first among hits at that distance; when every distance is below float.MaxValue, nothing is chosen iff nothing hits |
| `Scene.NearestIsUnique` | ConsoleApp1/RayTracer.cs:68-104 | the scan's outcome is determined by the results: the strict `<` tie rule leaves no choice |
| `Scene.NearestDistanceIgnoresOrder` | ConsoleApp1/RayTracer.cs:68-104 | reordering the primitives changes neither the nearest distance nor whether anything is hit |
| `Shading.SelectMaterial` | ConsoleApp1/RayTracer.cs:143-184 | an unknown object kind gives the "Invalid object type" error and nothing else does; a plane gets ka 0.2 grey, kd white, ks 0, power 0; each of the three sphere centres gets its listed coefficients; a sphere elsewhere keeps all-zero coefficients; every selected material has channels in [0, 1] and a non-negative power |
| `Shading.DiffuseTerm` | ConsoleApp1/RayTracer.cs:188 | the diffuse term is never negative, is at least dot(lightDir, normal), and equals either that dot product or 0 |
| `Shading.LinearColor` | ConsoleApp1/RayTracer.cs:189-197 | for a valid material and non-negative terms, ka + kd·diffuse + ks·specular is non-negative and at least ka in every channel, so each gamma power at lines 200-202 has a non-negative base |
| `Render.TraceSample` | ConsoleApp1/RayTracer.cs:66-104 | one sample yields the plane result, a result meeting the sphere specification for each sphere, the nearest hit among them (or the background), and the new `t`, which is sphere3's out value |
| `Render.RenderPixel` | ConsoleApp1/RayTracer.cs:60-122 | sample k runs with the `t` left by sample k − 1 (the given `top` for the first); the pixel shows the last sample's outcome, or nothing new when there are no samples |
| `Render.AliasedTopIsSphere3Distance` | ConsoleApp1/RayTracer.cs:43-97 | after a sample, the top bound is sphere3's hit distance (≥ 0) or 0 on a miss, so it stays above the bottom bound −0.1 |
| `Render.BackgroundIffNothingHit` | ConsoleApp1/RayTracer.cs:107-121 | with distances below float.MaxValue, a sample paints the white background exactly when no primitive reports a hit |
| `Render.RenderPixelFixedWindow` | ConsoleApp1/RayTracer.cs:60-122 | the corrected sample loop: every sample k runs with the top bound 0.1 whatever earlier samples did; the pixel shows the last sample, or nothing when there are no samples |
| `Render.SampleTraceIsDeterministic` | ConsoleApp1/RayTracer.cs:66-104 | one sample's intersection results, outcome and new `t` are fixed by the pixel, the jitter, the window top and the scene |
| `Render.LeftHalfSampleZeroesTop` | ConsoleApp1/RayTracer.cs:43-97 | a sample with x + rx ≤ 256, with any window top, leaves `t` = 0, because its ray misses sphere3 |
| `Render.Sphere3MissZeroesTop` | ConsoleApp1/RayTracer.cs:97 | a sample whose ray has a negative discriminant against sphere3 leaves `t` = 0 |
| `Render.LeftHalfRayMissesSphere3` | ConsoleApp1/RayTracer.cs:64-66 | the normalised ray of a sample with x + rx ≤ 256 has a negative discriminant against sphere3 |
| `Render.LeftHalfDirection` | ConsoleApp1/RayTracer.cs:133-141 | the normalised ray of such a sample has −1 ≤ z < 0 and z ≤ x ≤ 0: it points forward and leans left by at most 45 degrees |
| `Render.LeftHalfImageCoord` | ConsoleApp1/RayTracer.cs:135 | for x + rx ≤ 256 the horizontal image-plane coordinate px lies in [−0.1, 0] |
| `Render.RawDirectionInAxisBasis` | ConsoleApp1/RayTracer.cs:133-141 | with the source's camera constants the direction before normalising is (px, py, −0.1) |
| `Render.LeftLeaningRayMisses` | ConsoleApp1/RayTracer.cs:258-272 | a ray with −1 ≤ z < 0 and z ≤ x ≤ 0 has a negative discriminant against the sphere of radius 1 at (4, 0, −7) |
| `Render.ZeroTopShiftsMiddleRow` | ConsoleApp1/RayTracer.cs:136 | the middle row 256 maps to 0 with top 0.1, but to −0.05 with the aliased top 0 |
| `Render.SampleDirection` | ConsoleApp1/RayTracer.cs:66 | no contract of its own: the call to CalculateRayDirection with the frame's constants and the current top bound, normalised by the `normalize` parameter (line 140); `Render.RawDirectionInAxisBasis` and `Render.LeftHalfDirection` state its properties |
| `Render.CentreRayHitsMiddleSphereAtFive` | ConsoleApp1/RayTracer.cs:49 | the ray from the eye along −w, (0, 0, −1), meets the middle sphere (radius 2, centre at distance 7) at t = 5 |
| `Render.AxisRayHitsNearSurface` | ConsoleApp1/RayTracer.cs:256-299 | the ray along −w meets a sphere centred on that axis at distance d, with radius at most d, at d minus the radius |
| `Render.DownwardRayHitsFloorAtTwo` | ConsoleApp1/RayTracer.cs:47 | the ray from the eye straight down meets the floor plane y = −2 at t = 2 |
| `Scene.SourceSceneHasLayout` | ConsoleApp1/RayTracer.cs:47-50 | the source's scene is a plane followed by three spheres, the layout the per-sample code expects |

## Findings

| source | as written | input that shows it | evidently intended | confidence | as-written member | corrected member |
|---|---|---|---|---|---|---|
| ConsoleApp1/RayTracer.cs:43-97 | `t` is both the window's top bound and the `out` argument of every `Intersect` call, so each sample leaves sphere3's distance, or 0 on a miss, as the top bound for the next sample | the first sample of a frame, pixel (0, 0) with any jitter in [0, 1]: its ray leans left and misses sphere3, so `t` becomes 0, and the following samples map rows into [−0.1, 0] instead of [−0.1, 0.1] until a sample hits sphere3 | every sample uses the top bound 0.1, and the intersection tests write a variable of their own | not executed | `Render.LeftHalfSampleZeroesTop` | `Render.RenderPixelFixedWindow` |

## Left out

- Window creation, event wiring, `GL.Begin`/`GL.End`/`GL.Color3`/`GL.Vertex2` and buffer swapping (lines 12-33, 53, 114, 120, 125-130). These are display plumbing over a library the model does not include. A sample's outcome `Background` stands for the `GL.Color3(1, 1, 1)` call.
- The 512 × 512 pixel iteration of the frame loop (lines 54-56). It only calls the per-pixel work in row order. `RenderPixel` takes and returns `t`, so a caller iterating pixels carries the aliased bound across pixels as the source does. Each frame starts again with `t` = 0.1.
- The global `Random` (lines 13, 63-64). The jitter pairs are parameters.
- `Vector3.Normalized`, `Math.Sqrt` and `Math.Pow` (lines 140, 186, 191, 193, 200-202, 222, 275, 304). They are parameters or witnesses as described above. The plane constructor's normalisation of its normal is not modelled; the scene's normal (0, 1, 0) is already unit length.
- The rest of `PhongShading` (lines 186, 191-194, 200-202): the light and view directions, the reflection vector, the specular power and the gamma encoding. `LinearColor` takes the specular term as a parameter.
- `GetNormal`'s normalisation (lines 239-242, 302-305). `NormalDirection` is the vector before normalising.
- Single-precision rounding. The tolerance `1e-6f` and the material constants such as `0.2f` are taken as the exact reals 0.000001 and 0.2, and `float.MaxValue` as the exact real 3.4028234663852886e38. A zero `width` or `height` (IEEE infinity) cannot occur in the source and is excluded by `ImageCoord`'s precondition.
- `Render.LeftHalfSampleZeroesTop`, `Render.LeftHalfRayMissesSphere3`, `Render.LeftHalfDirection`: assume `IsUnitScaling` for `normalize`, because the model does not define a square root; `Vector3.Normalized` meets it in exact arithmetic for every non-zero vector.
- `Render.TraceSample`, `Render.RenderPixel`: proved for any scene with the source's layout (`IsSceneLayout`), not only for the fixed `Objects`.
