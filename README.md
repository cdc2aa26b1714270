# A verified model of a small Rust path tracer

This project models the core of a Monte Carlo path tracer that renders scenes of spheres. The model is written in Dafny, over `real` instead of `f32`. It covers:

- the `Vec3` vector kernel (`Vector`, `vec3.dfy`);
- rays (`Rays`);
- ray–sphere intersection (`Spheres`);
- the nearest-hit scan over a list of spheres (`HittableLists`);
- the three materials: Lambertian, metal and dielectric (`LambertianMaterial`, `MetalMaterial`, `DielectricMaterial`, over the sum type in `Materials`);
- the camera (`Cameras`);
- the recursive radiance estimator `color` (`Estimator`);
- the per-pixel average, gamma and quantisation step, and the order in which pixels are written (`Pixels`);
- the shape of the demonstration scene (`Scenes`).

The source uses `sqrt`, `tan` and `rand::random`. The model takes these as parameters instead:

- The square root is a function parameter `sqrt`. The predicate `IsSqrt` constrains it: for `x >= 0`, `sqrt(x) >= 0` and `sqrt(x) * sqrt(x) == x`.
- The camera takes the half height of the view directly, in place of `tan(vfov / 2)`.
- Every random draw is an explicit input. A unit-ball sampler reads a stream of draws, the dielectric gets its uniform draw, each pixel sample gets its jitters, and each scene cell gets its own draws.

Code that changes state in the source is modelled as a Dafny method. This covers `Sphere::hit`, the list scan, `refract` and its out-parameter, the `*Assign` operators, `IndexMut`, the retry loop of `random_in_unit_sphere`, the three `scatter` methods, the sampling loop and the scene builder. Most methods are proved equal to a pure function. Two are specified directly: `IndexMut` by what it writes at each index, and the scene builder by the shape of the list it builds. The properties the renderer relies on are proved about the pure functions:

- roots of the quadratic lie on the sphere;
- the nearer root is preferred;
- the hit is the nearest one in the interval;
- normals have unit length;
- `reflect` and `refract` obey their geometric laws, including Snell's law as a cross-product identity;
- Schlick reflectance is bounded;
- `color` stays inside `[0, 1]^3`;
- pixel values lie in `[0, 255]`;
- the image is written top row first, each row from left to right.

## Model

| member | source | states |
|---|---|---|
| Vector.IndexDeterminesVector | src/vec3.rs:13-19 | Two vectors that agree at indices 0, 1 and 2 are equal; the model's `Index` reads x, y, z and requires `i < 3` where the source panics |
| Vector.SetIndex | src/vec3.rs:24-31 | `IndexMut` writes component `i < 3` and leaves the other two unchanged |
| Vector.SubThenAdd | src/vec3.rs:37-56 | `(a - b) + b == a` for the component-wise `Add` and `Sub` |
| Vector.AddAssign | src/vec3.rs:119-127 | `+=` yields the same vector as `a + b` |
| Vector.SubAssign | src/vec3.rs:129-137 | `-=` yields the same vector as `a - b` |
| Vector.DivAssign | src/vec3.rs:139-147 | `/=` by a vector with no zero component yields the same vector as `a / b` |
| Vector.MulAssign | src/vec3.rs:149-157 | `*=` by a vector yields the component-wise product |
| Vector.ScaleAssign | src/vec3.rs:159-167 | `*=` by a scalar yields `a * s` |
| Vector.DivScalarAssign | src/vec3.rs:169-177 | `/=` by a non-zero scalar yields `a / s` |
| Vector.DotSymmetric | src/vec3.rs:192-194 | `dot(a, b) == dot(b, a)` |
| Vector.SquaredLengthNonnegative | src/vec3.rs:212-214 | `squared_length(v) >= 0`, and it is positive exactly when `v` is non-zero |
| Vector.CrossOrthogonal | src/vec3.rs:195-201 | `cross(a, b)` is orthogonal to `a` and to `b` |
| Vector.Lagrange | src/vec3.rs:192-201 | `|a|^2 |b|^2 - dot(a,b)^2 == |cross(a,b)|^2` |
| Vector.CauchySchwarz | src/vec3.rs:192-194 | `dot(a,b)^2 <= |a|^2 |b|^2` |
| Vector.LengthPositive | src/vec3.rs:202-204 | A non-zero vector has a positive `length` whose square is its squared length |
| Vector.UnitVector | src/vec3.rs:205-207 | `unit_vector(v)` has squared length 1, points along `v` (`dot(u, v) == length(v) > 0`) and equals `v` scaled by `1 / length(v)` |
| Vector.ReflectAlongNormal | src/vec3.rs:230-232 | For a unit normal, `dot(reflect(v,n), n) == -dot(v,n)` |
| Vector.ReflectPreservesLength | src/vec3.rs:230-232 | For a unit normal, reflection keeps the squared length |
| Vector.ReflectInvolution | src/vec3.rs:230-232 | For a unit normal, reflecting twice gives back `v` |
| Vector.Refraction | src/vec3.rs:233-242 | `refract` succeeds exactly when `v` is non-zero and `1 - r^2 (1 - dt^2) > 0` strictly; on failure the out-parameter keeps its old value |
| Vector.Refract | src/vec3.rs:233-242 | The imperative `refract` returns the success flag and the out-parameter that `Refraction` describes |
| Vector.RefractFailsAtCriticalAngle | src/vec3.rs:236-241 | For every non-zero `v`, every `n` and every ratio whose discriminant is exactly 0, `refract` reports failure and leaves the out-parameter unchanged |
| Vector.CriticalAngleExample | src/vec3.rs:236-241 | Such inputs exist: a grazing ray `(1, 0, 0)` against the normal `(0, 1, 0)` with ratio 1 has discriminant 0, and its refraction fails |
| Vector.RefractUnitLength | src/vec3.rs:233-242 | For a unit normal, a successful refraction produces a unit vector |
| Vector.RefractSnell | src/vec3.rs:233-242 | A successful refraction implies a non-zero `v`, and `cross(refracted, n) == ni_over_nt * cross(unit(v), n)` (Snell's law) |
| Vector.FirstAccepted | src/vec3.rs:245-250 | The index of the first draw whose candidate `2 d - (1,1,1)` is strictly inside the unit ball; every earlier candidate is rejected |
| Vector.RandomInUnitSphere | src/vec3.rs:244-251 | The retry loop returns the first accepted candidate after that many rejected tries, and the result has squared length `< 1` |
| Vector.CandidateInCube | src/vec3.rs:246 | Draws in `[0, 1)` produce candidates in `[-1, 1)^3` |
| Rays.NewRay | src/ray.rs:9-15 | `origin()` and `direction()` of `Ray::new(a, b)` return `a` and `b` |
| Rays.PointAtParameter | src/ray.rs:17-19 | `point_at_parameter(t) - origin == t * direction` |
| Rays.PointAtZero | src/ray.rs:17-19 | `point_at_parameter(0) == origin` |
| Rays.PointAtAffine | src/ray.rs:17-19 | `point_at(s + t) == point_at(s) + t * direction` |
| Spheres.SphereHit | src/sphere.rs:13-34 | On a hit, `t_min < t < t_max` strictly and the record is exactly the point, normal, `t` and material written at `t`; on a miss the record is unchanged |
| Spheres.Hit | src/sphere.rs:13-34 | The imperative `hit`, with its reassigned `temp` and field-by-field writes, returns exactly what `SphereHit` describes |
| Spheres.QuadraticMeasuresSphere | src/sphere.rs:14-18 | `|p(t) - center|^2 - radius^2 == a t^2 + 2 half_b t + c`; so `p(t)` is on the sphere exactly when `t` is a root |
| Spheres.RootOfDiscriminant | src/sphere.rs:18-22 | For a non-negative discriminant, the square root is non-negative and squares back to `half_b^2 - a c` |
| Spheres.HitIsOnSphere | src/sphere.rs:14-28 | The reported `t` is a root of the quadratic and the reported point lies on the sphere |
| Spheres.RecordAtRoot | src/sphere.rs:28-29 | At a root, `rec.p` is on the sphere and `rec.normal == (p - center) / radius` has squared length 1 |
| Spheres.HitNormalIsUnit | src/sphere.rs:29 | A reported hit carries a unit normal |
| Spheres.NearRootPreferred | src/sphere.rs:22-24 | When the smaller root is in the interval, it is the one reported |
| Spheres.RootInIntervalIsFound | src/sphere.rs:19-31 | With `a > 0`, any `t` in the interval whose point is on the sphere makes `hit` return true, with a reported `t` no larger |
| Spheres.SphereHitIsNearest | src/sphere.rs:13-34 | With `a > 0`, `hit` returns true exactly when the ray meets the sphere strictly inside the interval, and then it reports the nearest such `t` |
| Spheres.HitIgnoresRecord | src/sphere.rs:13-34 | Whether `hit` succeeds, and the record it writes, do not depend on the incoming record |
| Spheres.HitSurvivesShrink | src/sphere.rs:22-31 | A hit at `t` is still reported, with the same record, when `t_max` is lowered to any value above `t` |
| HittableLists.NewList | src/hittable_list.rs:33-35 | `list_size` is fixed to `list.len()` at construction |
| HittableLists.ListHit | src/hittable_list.rs:12-29 | On a miss `rec` keeps its incoming value; on a hit `t_min < t < t_max`, and the record is a member's record at a root of that member's quadratic |
| HittableLists.Hit | src/hittable_list.rs:12-29 | The imperative scan over members `0..list_size`, with `hit_anything`, `closest_so_far` and `*rec` updated in place, returns what `ListHit` describes |
| HittableLists.ScanInvariant | src/hittable_list.rs:19-27 | After each prefix, `closest_so_far <= t_max`; before any hit, it is `t_max` and `rec` is untouched; after a hit, it equals the record's `t` inside the interval and the record belongs to a member at a root |
| HittableLists.ClosestNeverIncreases | src/hittable_list.rs:20-24 | `closest_so_far` starts at `t_max` and never increases along the scan |
| HittableLists.ScanHitHasWitness | src/hittable_list.rs:21-28 | If the scan reports a hit, some member hits on the original interval |
| HittableLists.ScanReachesMember | src/hittable_list.rs:21-26 | If member `i` hits on the original interval, every scan past `i` has a hit with `closest_so_far` at most that member's `t` |
| HittableLists.ListHitIffSomeMemberHits | src/hittable_list.rs:21-28 | `hit` returns true exactly when some member hits on `(t_min, t_max)` |
| HittableLists.ListHitIsNearestMember | src/hittable_list.rs:21-26 | The reported `t` is at most the `t` of every member that hits on the original interval |
| HittableLists.FinalRecordIsLastAccepted | src/hittable_list.rs:21-26 | The final `rec` was written by the last member accepted in index order |
| HittableLists.ListHitIsNearest | src/hittable_list.rs:12-29 | With `a > 0`, `hit` returns true exactly when the ray meets some sphere inside the interval; the reported `t` is at most every such meeting point; the record has a unit normal, lies on one of the spheres and carries that sphere's material |
| LambertianMaterial.Scattering | src/lambertian.rs:10-15 | Diffuse scatter always succeeds; the ray leaves from `rec.p` along `rec.normal + sample`; the attenuation is the albedo; the incoming ray is not an input |
| LambertianMaterial.Scatter | src/lambertian.rs:10-15 | The imperative `scatter`, with its out-parameters and unit-ball draw, returns what `Scattering` describes for the first accepted sample |
| LambertianMaterial.ScatterLeavesSurface | src/lambertian.rs:11-12 | With a unit normal and a sample inside the unit ball, the scattered direction is non-zero and points to the normal's side |
| MetalMaterial.NewMetal | src/metal.rs:23-29 | `fuzz` is kept below 1, replaced by 1 at or above 1, and never exceeds 1; negative values are not clamped |
| MetalMaterial.Scattering | src/metal.rs:11-16 | The ray leaves from `rec.p` along `reflect(unit(dir), normal) + fuzz * sample`; the attenuation is the albedo; the result is true exactly when `dot(scattered, normal) > 0`; both out-parameters are written either way |
| MetalMaterial.Scatter | src/metal.rs:11-16 | The imperative `scatter` returns what `Scattering` describes for the first accepted sample |
| MetalMaterial.MirrorKeepsFrontHits | src/metal.rs:12-15 | With no fuzz and a unit normal, a metal scatters exactly when the ray arrives against the normal |
| MetalMaterial.KeptDirectionIsNonzero | src/metal.rs:13-15 | A kept scattered direction is non-zero |
| DielectricMaterial.PowInUnitInterval | src/dielectric.rs:16-17 | `powi` keeps values of `[0, 1]` inside `[0, 1]` |
| DielectricMaterial.SchlickAtNormalIncidence | src/dielectric.rs:15-18 | `schlick(1, n) == r0` |
| DielectricMaterial.SchlickAtGrazingIncidence | src/dielectric.rs:15-18 | `schlick(0, n) == 1` |
| DielectricMaterial.R0Bounds | src/dielectric.rs:16 | For `ref_idx > 0`, `0 <= r0 < 1` |
| DielectricMaterial.SchlickBounds | src/dielectric.rs:15-18 | For `ref_idx > 0` and a cosine in `[0, 1]`, `r0 <= schlick <= 1` |
| DielectricMaterial.SideSelection | src/dielectric.rs:32-40 | If `dot(dir, normal) > 0`: the outward normal is `-normal`, the ratio is `ref_idx`, and the cosine is `ref_idx * dot / |dir|`. Otherwise: `normal`, `1 / ref_idx` and `-dot / |dir|` |
| DielectricMaterial.Scattering | src/dielectric.rs:21-54 | Always succeeds with attenuation exactly `(1, 1, 0)`; the ray leaves from `rec.p`; it is reflected when `u < reflect_prob` and refracted otherwise |
| DielectricMaterial.Scatter | src/dielectric.rs:21-54 | The imperative `scatter`, which writes `scattered` on several branches, returns what `Scattering` describes |
| DielectricMaterial.TotalInternalReflection | src/dielectric.rs:41-49 | When `refract` fails, `reflect_prob` is 1, so every draw in `[0, 1)` picks the reflected direction |
| DielectricMaterial.ScatteredDirectionIsNonzero | src/dielectric.rs:41-52 | With a unit normal, a non-zero incoming direction and a draw below 1, the scattered direction is non-zero |
| DielectricMaterial.EnteringReflectProbBounds | src/dielectric.rs:36-42 | For a ray arriving against a unit normal with `ref_idx > 0`, `r0 <= reflect_prob <= 1` |
| Cameras.CameraBasis | src/camera.rs:20-22 | `w == unit(lookfrom - lookat)`; `u == unit(cross(vup, w))`, orthogonal to `vup`; `v == cross(w, u)`; the three are unit vectors and pairwise orthogonal |
| Cameras.NewCamera | src/camera.rs:12-30 | The origin is `lookfrom`; `horizontal == 2 * (aspect * half_height) * u`; `vertical == 2 * half_height * v`; the image plane lies one unit along `-w` |
| Cameras.FacingBasis | src/camera.rs:26-28 | The lower-left corner, horizontal and vertical built from an orthonormal `w` put the image plane one unit along `-w` |
| Cameras.GetRay | src/camera.rs:32-34 | `get_ray(s, t)` starts at the origin with direction `lower_left_corner + s * horizontal + t * vertical - origin` |
| Cameras.GetRayAffine | src/camera.rs:33 | The direction is the base direction plus a linear map of `(s, t)`, and moving by `(s', t')` adds `s' * horizontal + t' * vertical` |
| Cameras.RaysPointForward | src/camera.rs:26-33 | Every ray of such a camera has `dot(direction, w) == -1`, so it is non-zero |
| Cameras.CentreRayLooksAtTarget | src/camera.rs:12-34 | The ray through the image centre `(0.5, 0.5)` points along `-w == -unit(lookfrom - lookat)`, from `lookfrom` toward `lookat` |
| Estimator.Scatter | src/main.rs:89 | Every material scatters from `rec.p`, and an attenuating material returns an attenuation in `[0, 1]^3` |
| Estimator.ScatterKeepsDirectionNonzero | src/main.rs:89-90 | With a unit normal and a draw in `[0, 1)`, a material that scatters gives a non-zero direction, so the recursive call is well defined |
| Estimator.Sky | src/main.rs:95-97 | The background blend lies in `[0, 1]^3`, and its blue channel is 1 |
| Estimator.HitRecordFromWorld | src/main.rs:86 | A hit on `(0.001, f32::MAX)` has a unit normal and the material of one of the world's spheres |
| Estimator.MulInUnitCube | src/main.rs:90 | The component-wise product of two vectors in `[0, 1]^3` stays there |
| Estimator.Color | src/main.rs:79-98 | `color` terminates (it recurses only below depth 50), and when every material attenuates its value lies in `[0, 1]^3` |
| Estimator.MissShowsSky | src/main.rs:95-97 | A ray that misses the world gets the sky colour, with blue channel 1 |
| Estimator.DepthCapIsBlack | src/main.rs:89-93 | A hit at depth 50 or more is black |
| Pixels.Truncate | src/main.rs:66-68 | Truncation toward zero: for `x >= 0`, `n <= x < n + 1`; for `x < 0`, `n - 1 < x <= n` |
| Pixels.ToI32 | src/main.rs:66-68 | The `as i32` cast lies in the `i32` range and equals truncation inside it |
| Pixels.QuantizeRange | src/main.rs:66-68 | A channel in `[0, 1]` quantises into `[0, 255]` |
| Pixels.QuantizeTruncates | src/main.rs:66-68 | `(255.99 * 0.5) as i32 == 127`: the cast truncates, where rounding would give 128 |
| Pixels.RowsRunTopDown | src/main.rs:58-59 | Row `j` samples `v` in `[(ny - j) / ny, (ny - j + 1) / ny)`, so later rows are strictly lower |
| Pixels.ForwardRaysNonzero | src/main.rs:60 | Every camera ray of a scene has a non-zero direction |
| Pixels.SampleColor | src/main.rs:57-61 | One sample's colour lies in `[0, 1]^3` when every material attenuates |
| Pixels.SampleSum | src/main.rs:55-62 | The sum of the first `k` sample colours lies in `[0, k]^3` when every material attenuates |
| Pixels.PixelValue | src/main.rs:55-68 | Each of `ir`, `ig` and `ib` (average, square root, then truncation) lies in `[0, 255]` when every material attenuates |
| Pixels.QuantizedAverageInRange | src/main.rs:64-68 | An average of sums in `[0, n]^3`, gamma-corrected and truncated, lies in `[0, 255]` |
| Pixels.ShadePixel | src/main.rs:54-70 | The per-pixel closure (accumulate, `col /= ns`, square roots, casts) returns `PixelValue` |
| Pixels.AccumulateSamples | src/main.rs:55-62 | The sampling loop's `col` equals the sum of all sample colours |
| Pixels.TraceSample | src/main.rs:58-61 | One loop iteration adds the colour of the jittered camera ray |
| Pixels.RowOf | src/main.rs:54 | A row has `nx` pixels, and its pixel `i` is pixel `(i, j)` |
| Pixels.RowsOf | src/main.rs:51 | The image has `ny` rows, and row `j` is the `j`-th row |
| Pixels.PixelPosition | src/main.rs:51-76 | In the written output, pixel `(i, j)` is line `j * nx + i`: rows top to bottom, each row left to right |
| Pixels.Render | src/main.rs:51-72 | Rendering the rows in order produces every pixel's value in row-major order |
| Pixels.RenderRow | src/main.rs:54-71 | One row is rendered left to right |
| Scenes.CellMaterial | src/main.rs:105-114 | A cell's material is diffuse below 0.8, metal below 0.95 and glass otherwise; it is always well formed, and with draws in `[0, 1)` it attenuates |
| Scenes.RandomScene | src/main.rs:100-122 | The ground sphere is first and the three feature spheres are last; the spheres between them have radius 0.2; there are 4 to 488 spheres; every radius is non-zero; with draws in `[0, 1)` every material attenuates |

## Left out

- Floating point: the model computes over exact reals, not `f32`. Rounding, overflow, NaN and the concrete value of `f32::MAX` beyond its use as the upper end of the interval are not modelled.
- `sqrt`, `tan` and `to_radians` are not implemented. The square root is an input constrained by `IsSqrt`, and the camera takes the half height of the view directly.
- `rand::random` is not modelled; every draw is an input. The retry loop of `random_in_unit_sphere` requires a stream that contains an accepted candidate; its probabilistic termination is not modelled.
- The rayon parallel iterators and `Arc` sharing are not modelled; pixels are computed one after another in output order.
- Writing the output file is not modelled, including the P3 header and the line format.
- The traits `Hittable` and `Material`, `Box<dyn ...>`, `clone_box` and `Send + Sync` are replaced by datatypes: a world is a list of spheres, and a material is a three-way sum type. Nested `HittableList`s are not modelled.
- `&mut` out-parameters are modelled as values passed in and returned.
- Division by zero is excluded by preconditions where the source would produce infinities or NaN:
  - a non-zero sphere radius;
  - no zero component for vector division and a non-zero scalar for scalar division;
  - `ref_idx != 0` and `1 + ref_idx != 0`;
  - `nx`, `ny` and the sample count greater than zero.
- Cameras.CameraBasis: requires `vup` not parallel to `lookfrom - lookat` (the predicate `Aimable`), so that `lookfrom != lookat`. Otherwise the source's `vup.cross(&w).unit_vector()` divides zero by zero and builds a NaN basis.
- Spheres.SphereHit: a zero ray direction (`a == 0`) is treated as a miss, because in `f32` both roots are NaN and both interval tests fail.
- Vector.Refraction: a zero `v` is treated as a failed refraction, because the NaN discriminant fails the `> 0` test.
- Estimator.Color: requires a non-zero ray direction, because the sky of a zero direction is NaN in the source. Camera rays and scattered rays are proved non-zero.
- MetalMaterial.Scattering: requires a non-zero incoming direction, for the same reason.
- DielectricMaterial.Scattering: the cosine of a zero direction is taken as 0, where the source computes NaN.
- DielectricMaterial.EnteringReflectProbBounds: the bounds are proved only for a ray arriving against the normal. On the exiting branch, `ref_idx * dot / |dir|` can exceed 1, and the source does not clamp it.
- Pixels.Render: takes the grid of pixel values as a ghost argument, and its contract refers to that grid. The sample count `ns` is the length of each pixel's sample sequence.
- Scenes.RandomScene: specifies only the shape of the list (the ground first, small spheres, the feature spheres last, the size bounds and the material properties), not the random contents.
- Rounding: the pixel step truncates with the `as i32` cast and does not round. The model follows the code.
