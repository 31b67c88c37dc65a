# A verified model of a "ray tracing in one weekend" path tracer

This project models the geometric and shading core of a small Rust path
tracer (nico-mayora/RaytracingOneWeekend) and proves properties of it. A
camera casts rays through a thin lens. Each ray is tested against a list of
possibly moving spheres and the closest hit is kept. The hit material
(Lambertian, metal or dielectric glass) scatters the ray, and `ray_colour`
follows the bounces up to a depth limit, multiplying attenuations and ending
in a white-to-blue sky. The per-pixel sums are then averaged,
gamma-corrected, quantised to bytes and written to an image, a PPM stream or
an RGBA frame buffer.

`f64` is modelled as `real`. Square root and tangent are function-typed
parameters. `RtWeekend.IsSqrt` states everything the proofs assume of the
square root: on non-negative arguments it is non-negative and squares back.
Monotonicity follows from that and is proved (`RtWeekend.SqrtMonotone`). Every random draw becomes an input value:
`Scattering.ScatterDraw` for one bounce, `Rendering.SampleDraw` for one
sample and `Scenes.CellDraw` for one grid cell of the scene builder.

The repository holds historical snapshots that do not fit together. The
coherent version is modelled: the timed ray of `src/renderer/ray.rs`, the
hit record with a material of `src/renderer/hittable.rs`, the moving sphere
of `src/sphere.rs` and the vector helpers of `src/util/vec3rtext.rs`. The
older files are modelled beside it as variants: `LegacyVectors`,
`LegacyRays`, `LegacyHitRecords` and `LegacyColours`, the `Legacy` snapshot of
`Scenes`, and `Radiance.LegacyRayColour` / `Radiance.MainRayColour`. Lemmas
state where each variant agrees with the coherent version and where it
differs.

Modules, one per source file (and one for each older variant):

- `RtWeekend` (rtweekend.dfy): `PI`, `INFTY`, `deg_to_rad` and the hit window bound.
- `Vectors` (vec3.dfy) and `LegacyVectors` (vec3_legacy.dfy): vector algebra, `near_zero`, `mul`, `reflect` and `refract`.
- `Rays` (ray.dfy) and `LegacyRays` (ray_legacy.dfy): `Ray::at`.
- `Materials` (materials.dfy): the material datatype and Schlick's `reflectance`.
- `HitRecords` (hittable.dfy) and `LegacyHitRecords` (hittable_legacy.dfy): the records, `calculate_face_normal`, `new` and the in-place `set_face_normal`.
- `Spheres` (sphere.dfy): the constructors, `sphere_centre` and the intersection test. `SphereExamples` holds a worked example.
- `HittableLists` (hittable_list.dfy): the scene datatype, the closest-hit fold and the `HittableList` class with its loop.
- `Scattering` (scatter.dfy): the three `scatter` rules.
- `Cameras` (camera.dfy): `Camera::new` and `get_ray`.
- `Colours` (colour.dfy) and `LegacyColours` (colour_legacy.dfy): colour quantisation, `write_to_img` and `write_colour`.
- `Viewport` (viewport.dfy): `to_drawn_colour` and `plot_pixel`.
- `Radiance` (raytracer.dfy): the three `ray_colour` functions.
- `Scenes` (scene.dfy): both `random_scene` builders and the five-sphere world of `main`.
- `Rendering` (render.dfy): the per-pixel sample sum and the row-flipping image pass.

Three points of the code that the model follows closely:

- **Hit windows include both ends.** `src/sphere.rs:46,48` reject a root only when `root < t_min || t_max < root`, so `RtWeekend.InWindow` includes both `t_min` and `t_max`.
- **Ties go to the later object.** Because of those inclusive ends, `HittableLists.LaterTieWins` holds.
- **The value of `EPS`.** Both `near_zero` functions compare with a constant `EPS`. `src/util/vec3rtext.rs` takes it from `src/util/rtweekend.rs`, which is not part of this model, and `src/rtweekend.rs` defines none. The model picks `1e-8` (`RtWeekend.Eps`), the threshold of `near_zero` in the book *Ray Tracing in One Weekend*.

## Model

| member | source | states |
|---|---|---|
| RtWeekend.DegToRadZero | src/rtweekend.rs:10-12 | `deg_to_rad(0) == 0` |
| RtWeekend.DegToRadHalfTurn | src/rtweekend.rs:8-12 | `deg_to_rad(180) == PI` |
| RtWeekend.DegToRadAdditive | src/rtweekend.rs:10-12 | `deg_to_rad(a + b) == deg_to_rad(a) + deg_to_rad(b)` |
| RtWeekend.DegToRadStrictlyIncreasing | src/rtweekend.rs:8-12 | `a < b` implies `deg_to_rad(a) < deg_to_rad(b)` |
| RtWeekend.InftyIsFinite | src/rtweekend.rs:7 | `INFTY` is the finite `f64::MAX`; a window up to `INFTY` accepts `t` exactly when `0 <= t <= f64::MAX` |
| RtWeekend.SqrtFacts | src/util/colour.rs:13-15 | under the square-root assumptions, `sqrt(0) == 0`, `sqrt(1) == 1` and positive arguments have positive roots |
| RtWeekend.SqrtAtLeastOne | src/util/colour.rs:13-20 | an argument of at least 1 has a root of at least 1, the case where a channel saturates |
| RtWeekend.DegToRad | src/rtweekend.rs:10-12 | degrees times `PI / 180`; DegToRadZero, DegToRadHalfTurn, DegToRadAdditive and DegToRadStrictlyIncreasing state that it fixes 0, maps 180 to `PI`, is additive and strictly increasing |
| RtWeekend.InWindow | src/sphere.rs:46-48 | `t_min <= t <= t_max` with both ends included, the window every `hit` tests; InftyIsFinite states what the `INFTY` end admits |
| Vectors.RefractCos | src/util/vec3rtext.rs:25 | `cos_theta` is at most 1 and is either `-uv . n` or the clamp value 1 |
| Vectors.LengthSquaredNonNegative | src/util/vec3rtext.rs:27 | a squared length is non-negative and zero only for the zero vector |
| Vectors.LengthSquaredAlongRay | src/sphere.rs:34-39 | the squared length of `a + t b` expands to the quadratic in `t` that the sphere test solves |
| Vectors.UnitDotAtLeastMinusOne | src/util/vec3rtext.rs:25 | the dot product of two unit vectors is at least -1 |
| Vectors.UnitComponentBounds | src/renderer/raytracer.rs:120-121 | a unit vector's components lie in `[-1, 1]`, so the sky blend parameter lies in `[0, 1]` |
| Vectors.NormalizeUnit | src/camera.rs:30-31 | a non-zero vector normalizes to unit length, as a positive multiple of itself |
| Vectors.NormalizeKeepsOrthogonal | src/camera.rs:31 | normalizing keeps a vector orthogonal to whatever it was orthogonal to |
| Vectors.CrossOrthogonal | src/camera.rs:31-32 | `a x b` is orthogonal to `a` and to `b` |
| Vectors.CrossLength | src/camera.rs:32 | Lagrange's identity: the squared length of `a x b` is `len2(a) len2(b) - (a . b)^2` |
| Vectors.NearZeroIsBox | src/util/vec3rtext.rs:12-14 | `near_zero(v)` holds iff every component lies strictly inside `(-EPS, EPS)` |
| Vectors.NearZeroIsShort | src/util/vec3rtext.rs:12-14 | a near-zero vector has squared length below `3 EPS^2` |
| Vectors.MulCommutative | src/util/vec3rtext.rs:16-18 | `mul` is commutative |
| Vectors.MulIdentity | src/util/vec3rtext.rs:16-18 | `(1,1,1)` is the identity of `mul` on both sides |
| Vectors.MulZero | src/util/vec3rtext.rs:16-18 | `mul` by the zero vector gives the zero vector |
| Vectors.MulComponentwise | src/util/vec3rtext.rs:16-18 | each component of `mul` is the product of the matching components |
| Vectors.ReflectFlipsNormalComponent | src/util/vec3rtext.rs:20-22 | for a unit `n`, `reflect(v, n) . n == -(v . n)` |
| Vectors.ReflectMovesAlongNormal | src/util/vec3rtext.rs:20-22 | `reflect(v, n) - v == -2 (v . n) n`, so the part of `v` orthogonal to `n` is kept |
| Vectors.ReflectInvolution | src/util/vec3rtext.rs:20-22 | for a unit `n`, reflecting twice gives back `v` |
| Vectors.ReflectPreservesLength | src/util/vec3rtext.rs:20-22 | for a unit `n`, reflection preserves squared length |
| Vectors.RefractDecomposition | src/util/vec3rtext.rs:24-29 | `cos_theta <= 1`, the coefficient of `n` in `r_out_parallel` is `<= 0`, and `refract == r_out_perp + r_out_parallel` |
| Vectors.RefractSnell | src/util/vec3rtext.rs:24-29 | for unit `uv` and `n` the clamp is inactive, `r_out_perp` is orthogonal to `n` with squared length `ratio^2 (1 - cos^2)`, and when that is at most 1 the result is a unit vector |
| Vectors.Cross | src/camera.rs:31-32 | the cross product, which CrossOrthogonal and CrossLength show orthogonal to both arguments and of Lagrange's length |
| Vectors.Normalize | src/camera.rs:30-31 | `v / len(v)`, which NormalizeUnit and NormalizeKeepsOrthogonal show to be a unit positive multiple that keeps orthogonality |
| Vectors.NearZero | src/util/vec3rtext.rs:12-14 | `near_zero`, which NearZeroIsBox shows to be the open box `(-EPS, EPS)` in each component and NearZeroIsShort bounds in length |
| Vectors.Mul | src/util/vec3rtext.rs:16-18 | the component-wise product, commutative with identity `(1,1,1)` and absorbing zero by MulCommutative, MulIdentity and MulZero |
| Vectors.Reflect | src/util/vec3rtext.rs:20-22 | `reflect`, which for a unit `n` flips the normal component, is an involution and keeps length (ReflectFlipsNormalComponent, ReflectInvolution, ReflectPreservesLength) |
| Vectors.Refract | src/util/vec3rtext.rs:24-29 | `refract` as `r_out_perp + r_out_parallel`, whose decomposition and Snell's law are RefractDecomposition and RefractSnell, and whose unit length is Scattering.RefractionKeepsUnitLength |
| LegacyVectors.NearZeroRawWeaker | src/vec3rtext.rs:10-12 | every vector the current `near_zero` accepts, the older one accepts too |
| LegacyVectors.NearZeroRawAcceptsLargeNegative | src/vec3rtext.rs:10-12 | the older test calls `(-1,-1,-1)` near zero although its squared length is 3 and the current test rejects it |
| LegacyVectors.ReflectSelfFormula | src/vec3rtext.rs:14-16 | the older `reflect` is `self - 2 (self . n) n` |
| LegacyVectors.ReflectSelfAgrees | src/vec3rtext.rs:14-16 | the older `reflect` equals the current one, and about a unit normal it is an involution that keeps length |
| LegacyVectors.MulSelfCommutative | src/vec3rtext.rs:18-20 | the older `mul` is commutative |
| LegacyVectors.MulSelfByZero | src/vec3rtext.rs:18-20 | the older `mul` by zero gives zero |
| LegacyVectors.NearZeroRaw | src/vec3rtext.rs:10-12 | the older `near_zero` without `abs`, which NearZeroRawWeaker and NearZeroRawAcceptsLargeNegative show strictly weaker than the current one |
| LegacyVectors.ReflectSelf | src/vec3rtext.rs:14-16 | the older `reflect`, the same expression as the current one, so it moves `self` by `-2 (self . n) n` (ReflectSelfFormula) |
| LegacyVectors.MulSelf | src/vec3rtext.rs:18-20 | the older `mul`, commutative and absorbing zero by MulSelfCommutative and MulSelfByZero |
| Rays.AtZero | src/renderer/ray.rs:10-12 | `at(0) == origin` |
| Rays.AtShift | src/renderer/ray.rs:10-12 | `at(t + s) == at(t) + s * direction` |
| Rays.AtIgnoresTime | src/renderer/ray.rs:3-12 | `at` does not depend on the ray's `time` |
| Rays.AtZeroDirection | src/renderer/ray.rs:10-12 | with zero direction, `at(t) == origin` for every `t` |
| Rays.Ray.At | src/renderer/ray.rs:10-12 | `origin + t direction`, which AtZero, AtShift, AtIgnoresTime and AtZeroDirection pin down |
| LegacyRays.AtZero | src/ray.rs:9-11 | `at(0) == origin` |
| LegacyRays.AtOne | src/ray.rs:9-11 | `at(1) == origin + direction` |
| LegacyRays.AtShift | src/ray.rs:9-11 | `at(t + s) == at(t) + s * direction` |
| LegacyRays.AtConstantForZeroDirection | src/ray.rs:9-11 | with zero direction, `at` is constant |
| LegacyRays.Ray.At | src/ray.rs:9-11 | the older `at`, pinned down by AtZero, AtOne, AtShift and AtConstantForZeroDirection |
| Materials.PowUnitInterval | src/material.rs:62 | `powi(x, n)` stays in `[0, 1]` for `x` in `[0, 1]` |
| Materials.ReflectanceAtNormalIncidence | src/material.rs:58-63 | `reflectance(1, r) == ((1 - r) / (1 + r))^2` |
| Materials.ReflectanceOfGlass | src/material.rs:58-63 | glass of index 1.5 reflects 4% at normal incidence |
| Materials.ReflectanceIsProbability | src/material.rs:58-63 | for `ref_idx > 0` and `cosine` in `[0, 1]`, reflectance lies in `[0, 1]` |
| Materials.Pow | src/material.rs:62 | `powi` for a non-negative exponent, in `[0, 1]` on `[0, 1]` by PowUnitInterval |
| Materials.Reflectance | src/material.rs:58-63 | Schlick's approximation, `r0` at normal incidence and a probability for a positive index (ReflectanceAtNormalIncidence, ReflectanceOfGlass, ReflectanceIsProbability) |
| HitRecords.OrientFaceRule | src/renderer/hittable.rs:32-41 | `front_face` iff `direction . outward_normal < 0`; the normal is `outward_normal` on the front face and its negation otherwise; `direction . normal <= 0` always |
| HitRecords.TangentIsBackFace | src/renderer/hittable.rs:33-38 | a tangent ray is not a front-face hit and gets the negated normal |
| HitRecords.NewRecordFields | src/renderer/hittable.rs:15-24 | `new` stores `p`, `t` and `mat` unchanged and orients the normal against the ray |
| HitRecords.SetFaceNormalFrame | src/renderer/hittable.rs:26-30 | the record `set_face_normal` leaves keeps `p`, `t` and `mat` and equals `new` on the same ray and normal |
| HitRecords.MutableHitRecord.constructor | src/renderer/hittable.rs:15-24 | the allocated record holds the value of `new` |
| HitRecords.MutableHitRecord.SetFaceNormal | src/renderer/hittable.rs:26-30 | in place: only `front_face` and `normal` change, to the orientation rule's values |
| HitRecords.OrientFace | src/renderer/hittable.rs:32-41 | `calculate_face_normal`, whose rule OrientFaceRule and TangentIsBackFace state |
| HitRecords.NewRecord | src/renderer/hittable.rs:15-24 | `HitRecord::new`, which NewRecordFields shows stores `p`, `t` and `mat` and orients the normal |
| HitRecords.CalculateFaceNormal | src/renderer/hittable.rs:32-41 | `calculate_face_normal` on a ray, the orientation rule of OrientFace applied to `r.direction`, as OrientFaceRule states |
| HitRecords.WithFaceNormal | src/renderer/hittable.rs:26-30 | the record `set_face_normal` leaves, which SetFaceNormalFrame shows keeps `p`, `t` and `mat` and MutableHitRecord.SetFaceNormal reaches in place |
| LegacyHitRecords.OrientationRule | src/hittable.rs:24-33 | the older record follows the same orientation rule, and `new` stores `p` and `t` unchanged |
| LegacyHitRecords.SetFaceNormalAgreesWithNew | src/hittable.rs:13-22 | the older `set_face_normal` keeps `p` and `t` and gives the same `front_face` and `normal` as `new` |
| LegacyHitRecords.MutableHitRecord.constructor | src/hittable.rs:13-16 | the allocated older record holds the value of `new` |
| LegacyHitRecords.MutableHitRecord.SetFaceNormal | src/hittable.rs:18-22 | in place: only `front_face` and `normal` change |
| Spheres.StationaryCentreIsFixed | src/sphere.rs:17-19 | a stationary sphere's centre is the same at every time |
| Spheres.MovingCentreEndpoints | src/sphere.rs:21-27 | a moving sphere is at `centre0` at time 0 and at `centre1` at time 1 |
| Spheres.DistanceAlongRay | src/sphere.rs:34-39 | a point of the ray is on the sphere iff its `t` solves `a t^2 + 2 half_b t + c == 0` |
| Spheres.QuadraticFactors | src/sphere.rs:39-47 | with `a > 0` the quadratic factors through the two roots `(-half_b -/+ sqrtd) / a` |
| Spheres.NoRootBelowZeroDiscriminant | src/sphere.rs:39-42 | with a negative discriminant the quadratic has no real root |
| Spheres.OnSphereIffRoot | src/sphere.rs:43-47 | for a non-zero direction the points on the sphere are exactly the two roots, the near one first |
| Spheres.HitMissesOnNegativeDiscriminant | src/sphere.rs:39-42 | a negative discriminant gives `None` |
| Spheres.HitRecordContents | src/sphere.rs:45-63 | a reported `t` lies in `[t_min, t_max]`, `p == r.at(t)`, the record carries the sphere's own material and is `new` with the outward normal `(p - centre) / radius` |
| Spheres.HitPrefersNearRoot | src/sphere.rs:45-50 | the smaller root wins when it is in the window, the larger one only otherwise, and neither gives `None` |
| Spheres.HitAtNearRoot | src/sphere.rs:45-63 | with the smaller root in the window, the record is built at that root |
| Spheres.HitIsNearestSurfacePoint | src/sphere.rs:31-63 | for a non-zero direction, a hit is the nearest point of the surface in the window, and `None` means no point of the surface is in the window |
| Spheres.HitNarrowed | src/sphere.rs:45-50 | narrowing the window to `[t_min, c]` keeps exactly the hits at `t <= c` |
| Spheres.NegatedRadius | src/sphere.rs:37-55 | negating the radius keeps hit or miss, `t`, `p` and the material, negates the outward normal and flips `front_face` unless the ray is tangent |
| Spheres.NewStationary | src/sphere.rs:17-19 | a sphere with zero displacement, fixed in time by StationaryCentreIsFixed |
| Spheres.NewMoving | src/sphere.rs:21-23 | a sphere with displacement `centre1 - centre0`, at its two centres at times 0 and 1 by MovingCentreEndpoints |
| Spheres.SphereCentre | src/sphere.rs:25-27 | `centre0 + time displacement`, as StationaryCentreIsFixed and MovingCentreEndpoints use it |
| Spheres.Hit | src/sphere.rs:31-64 | the ray-sphere test; HitRecordContents, HitIsNearestSurfacePoint, HitMissesOnNegativeDiscriminant, HitNarrowed and NegatedRadius state what it returns |
| SphereExamples.SideRayDiscriminant | src/sphere.rs:34-39 | a ray along `+x` from the origin against the sphere of radius 0.5 at `(0,0,-1)` has discriminant `-0.75` |
| SphereExamples.MissExample | src/sphere.rs:39-42 | that ray misses the sphere |
| HittableLists.HitObjectInWindow | src/hittable_list.rs:32-44 | any reported `t` lies in `[t_min, t_max]` |
| HittableLists.HitPrefixInWindow | src/hittable_list.rs:34-41 | after each step the record's `t` is in the window and `closest_so_far` is at most `t_max` |
| HittableLists.ClosestNeverIncreases | src/hittable_list.rs:34-41 | `closest_so_far` never increases from one object to the next |
| HittableLists.HitObjectNarrowed | src/hittable_list.rs:37 | querying an object with a narrower window `[t_min, c]` keeps exactly its hits at `t <= c` |
| HittableLists.HitPrefixNarrowed | src/hittable_list.rs:36-41 | the same for a prefix of the loop |
| HittableLists.HitPrefixIsClosest | src/hittable_list.rs:33-43 | after `n` objects the record is `None` iff none of them hits the whole window; otherwise it is the record of one of them, no object hits nearer and every later object hits strictly farther |
| HittableLists.ListHitIsClosest | src/hittable_list.rs:32-44 | the same closest-hit property for the whole list, stated on each object's own `hit` |
| HittableLists.LaterTieWins | src/hittable_list.rs:36-41 | of two objects hitting at the same `t`, the later one's record is returned |
| HittableLists.HitObjectMaterial | src/sphere.rs:57-63 | a record always carries the material of some sphere of the scene |
| HittableLists.HitPrefixMaterial | src/hittable_list.rs:36-41 | the same for each prefix of the loop |
| HittableLists.SceneMaterialValid | src/renderer/raytracer.rs:113 | the material of a valid scene's sphere is a valid material |
| HittableLists.HittableList.NewEmpty | src/hittable_list.rs:10-14 | `new_empty` holds no objects |
| HittableLists.HittableList.FromHittable | src/hittable_list.rs:16-20 | `from_hittable` holds exactly the given object |
| HittableLists.HittableList.Add | src/hittable_list.rs:22-24 | `add` appends at the end: the length grows by one and earlier objects are unchanged |
| HittableLists.HittableList.Clear | src/hittable_list.rs:26-28 | `clear` leaves the list empty |
| HittableLists.HittableList.Hit | src/hittable_list.rs:32-44 | the loop over `objects`, narrowing `closest_so_far`, returns the closest-hit fold |
| HittableLists.HitObject | src/hittable_list.rs:31-44 | `hit` dispatched on a sphere or a list; HitObjectInWindow, HitObjectNarrowed, HitObjectMaterial and ListHitIsClosest state what it returns |
| HittableLists.HitPrefix | src/hittable_list.rs:33-41 | the loop's record after `n` objects; HitPrefixInWindow, ClosestNeverIncreases, HitPrefixNarrowed, HitPrefixIsClosest and LaterTieWins state it |
| Scattering.ScatteredLeavesHitPoint | src/material.rs:23-27 | every scattered ray starts at `rec.p` and keeps the incoming ray's time |
| Scattering.LambertianAlwaysScatters | src/material.rs:16-28 | Lambertian always scatters, with the albedo as attenuation and `normal + sample` as direction, or `normal` when that is near zero |
| Scattering.LambertianDirectionNotDegenerate | src/material.rs:17-21 | with a unit normal the Lambertian direction is never near zero |
| Scattering.MetalScatterRule | src/material.rs:37-50 | metal scatters iff the fuzzed reflection has positive dot with the normal, then with the albedo as attenuation |
| Scattering.PerfectMirror | src/material.rs:38-39 | with `fuzz == 0` and a unit normal, the ray is scattered exactly when it arrives against the normal, along the unit direction `reflect(normalize(dir), normal)` |
| Scattering.DielectricAlwaysScatters | src/material.rs:67-94 | glass always scatters with attenuation `(1,1,1)`; the ratio is `1/ir` on the front face and `ir` otherwise |
| Scattering.DielectricChoice | src/material.rs:76-86 | glass reflects when it cannot refract or the reflectance beats the draw, and refracts otherwise |
| Scattering.DielectricDirectionIsUnit | src/material.rs:69-86 | for a unit normal the glass direction is a unit vector, reflected or refracted |
| Scattering.RefractionKeepsUnitLength | src/util/vec3rtext.rs:24-29 | when refraction is possible, `refract` of unit vectors is a unit vector |
| Scattering.RefractionPossible | src/material.rs:78 | not `cannot_refract` means `ratio * sin_theta <= 1` |
| Scattering.CosineOfUnitVectors | src/material.rs:76 | the clamped cosine of two unit vectors lies in `[-1, 1]` |
| Scattering.Scatter | src/material.rs:6-9 | `Material::scatter` dispatched on the material; ScatteredLeavesHitPoint and Radiance.AttenuationInUnitCube hold for every material |
| Scattering.LambertianScatter | src/material.rs:16-28 | the diffuse rule, stated by LambertianAlwaysScatters and LambertianDirectionNotDegenerate |
| Scattering.MetalScatter | src/material.rs:37-50 | the metal rule, stated by MetalScatterRule and PerfectMirror |
| Scattering.DielectricScatter | src/material.rs:67-94 | the glass rule, stated by DielectricAlwaysScatters, DielectricChoice and DielectricDirectionIsUnit |
| Cameras.CameraDimensions | src/camera.rs:25-39 | the origin is `lookfrom`, `lens_radius == aperture / 2`, `horizontal == focus_dist * aspect * h * u` and `vertical == focus_dist * h * v` with `h = 2 tan(vfov / 2)` |
| Cameras.ViewportCentre | src/camera.rs:37 | the viewport point `(0.5, 0.5)` is `lookfrom - focus_dist * w` |
| Cameras.OrthonormalBasis | src/camera.rs:30-32 | for distinct `lookfrom` and `lookat` and `vup` not parallel to the view, `(u, v, w)` is orthonormal |
| Cameras.PinholeCamera | src/camera.rs:39-59 | with zero aperture every ray starts at the camera origin and points at the focal point |
| Cameras.FocalPointIndependentOfLens | src/camera.rs:54-59 | whatever the lens sample, `origin + direction` is the same focal point |
| Cameras.LensOffsetInPlane | src/camera.rs:54-58 | the ray starts at `origin + u rd.x + v rd.y`, which lies in the `(u, v)` plane |
| Cameras.CentreRay | src/camera.rs:37-59 | through the lens centre, `get_ray(0.5, 0.5)` points along `-focus_dist * w` |
| Cameras.NewCamera | src/camera.rs:16-51 | `Camera::new`, whose fields, basis and viewport centre are CameraDimensions, OrthonormalBasis and ViewportCentre |
| Cameras.GetRay | src/camera.rs:53-61 | `get_ray`, stated by PinholeCamera, FocalPointIndependentOfLens, LensOffsetInPlane and CentreRay |
| Colours.Clamp | src/util/colour.rs:18-20 | `clamp` lies in `[lo, hi]` and is the identity inside it |
| Colours.DrawnColour | src/util/colour.rs:7-22 | three bytes, each in `0..=255` by the byte type |
| Colours.DrawnColourWithAlpha | src/util/colour.rs:24-27 | `drawn_colour` followed by `0xFF` |
| Colours.QuantiseMonotone | src/util/colour.rs:18-20 | quantisation never decreases as its argument grows |
| Colours.QuantiseBucket | src/util/colour.rs:18-20 | in `[0, 0.999]` the byte `q` satisfies `q / 256 <= c < (q + 1) / 256` |
| Colours.QuantiseExtremes | src/util/colour.rs:18-20 | the byte is 0 iff `c < 1/256` and 255 iff `c >= 255/256` |
| Colours.GammaChannelEnds | src/util/colour.rs:12-20 | a zero component gives 0 and a sum of at least `samples_per_pixel` gives 255 |
| Colours.GammaChannelMonotone | src/util/colour.rs:12-20 | a channel is monotone in its own non-negative component |
| Colours.ZeroColourIsBlack | src/util/colour.rs:12-21 | a zero colour is drawn as `[0, 0, 0]` |
| Colours.BrightComponentSaturates | src/util/colour.rs:12-21 | a component sum of at least `samples_per_pixel` is drawn as 255 |
| Colours.ChannelsIndependent | src/util/colour.rs:13-21 | each byte depends on its own component only |
| Colours.DrawnColourMonotone | src/util/colour.rs:13-21 | a component-wise brighter colour is never drawn darker |
| Colours.WriteToImg | src/util/colour.rs:51-65 | pixel `(posx, posy)` becomes `drawn_colour` and no other pixel changes |
| Colours.DigitChar | src/util/colour.rs:38-43 | a digit value prints as a digit character |
| Colours.Decimal | src/util/colour.rs:38-43 | a number prints as a non-empty run of digits |
| Colours.LeadingDigits | src/util/colour.rs:38-43 | the leading digit run ends at the first non-digit |
| Colours.DigitRoundTrip | src/util/colour.rs:38-43 | a printed digit reads back as its value |
| Colours.DecimalRoundTrip | src/util/colour.rs:38-43 | printed digits read back as the number |
| Colours.LeadingDigitsStopAt | src/util/colour.rs:38-43 | digits followed by a separator split exactly at the separator |
| Colours.ParsePpmLine | src/util/colour.rs:38-43 | a parsed line yields exactly three fields |
| Colours.PpmLineRoundTrip | src/util/colour.rs:37-45 | the line `"r g b\n"` reads back as exactly the three channel values |
| Colours.OutputStream.constructor | src/util/colour.rs:30-34 | a fresh stream has nothing written |
| Colours.OutputStream.WriteColour | src/util/colour.rs:30-48 | `write_colour` appends the PPM line of `drawn_colour` and nothing else |
| Colours.Quantise | src/util/colour.rs:18-20 | `(256 clamp(c, 0, 0.999)) as u8`, monotone with the buckets and extremes of QuantiseMonotone, QuantiseBucket and QuantiseExtremes |
| Colours.GammaChannel | src/util/colour.rs:12-20 | one channel of `drawn_colour`, with the ends and monotonicity of GammaChannelEnds and GammaChannelMonotone |
| Colours.PpmLine | src/util/colour.rs:37-45 | the `"{} {} {}\n"` line, which PpmLineRoundTrip reads back as the three values |
| LegacyColours.LinearChannel | src/colour.rs:16-26 | the older `write_colour` channel lies in `0..=255` |
| LegacyColours.LinearColour | src/colour.rs:21-29 | three channels, red first |
| LegacyColours.LegacyGammaColour | src/colour.rs:46-55 | three gamma-corrected channels |
| LegacyColours.LinearChannelIsAverage | src/colour.rs:16-26 | with no gamma, the channel is the byte bucket of `c / samples_per_pixel` |
| LegacyColours.LegacyGammaChannelAgrees | src/colour.rs:46-54 | for a positive count the older gamma channel equals the current one |
| LegacyColours.LegacyGammaAgrees | src/colour.rs:46-55 | for a positive count the older `write_to_img` colour equals `drawn_colour` |
| LegacyColours.GammaBrightens | src/colour.rs:16-26 | for a non-negative component the gamma channel is never below the linear one |
| LegacyColours.LegacyZeroColourIsBlack | src/colour.rs:16-54 | a zero colour gives 0 in every channel of both older functions |
| LegacyColours.LegacyWriteColour | src/colour.rs:7-32 | the older `write_colour` appends the line of the linear channels |
| LegacyColours.LegacyWriteToImg | src/colour.rs:34-56 | pixel `(posx, posy)` becomes the gamma colour and no other pixel changes |
| Viewport.ToDrawnColour | src/viewport.rs:80-96 | four bytes whose last is `0xFF` |
| Viewport.ToDrawnColourAgrees | src/viewport.rs:80-96 | for a positive count `to_drawn_colour` equals `drawn_colour_with_alpha` |
| Viewport.CopyPixel | src/viewport.rs:101 | `copy_from_slice` sets exactly the four bytes at `i` |
| Viewport.PlotPixel | src/viewport.rs:98-102 | `plot_pixel` as written overwrites exactly the four bytes at `x + y * stride * 4` and needs them inside the buffer |
| Viewport.AdjacentPlotsOverlap | src/viewport.rs:99 | as written, pixels `x` and `x + 1` of a row have windows one byte apart, so they overlap |
| Viewport.PlotFramePixel | src/viewport.rs:98-102 | with the offset `4 (x + y * stride)`, exactly the pixel's four bytes are overwritten |
| Viewport.FrameWindowsDisjoint | src/viewport.rs:99 | with that offset, distinct pixels own disjoint windows |
| Viewport.FrameWindowInside | src/viewport.rs:99-101 | with that offset, every pixel of a `stride` by `height` frame lies inside a buffer of `4 * stride * height` bytes |
| Viewport.PlotOffset | src/viewport.rs:99 | the offset `x + y * stride * 4` as written, whose overlap AdjacentPlotsOverlap exhibits |
| Viewport.FrameOffset | src/viewport.rs:99 | the offset `4 (x + y * stride)`, whose windows FrameWindowsDisjoint and FrameWindowInside show disjoint and inside the frame |
| Radiance.DepthExhaustedIsBlack | src/raytracer.rs:111-113 | depth `<= 0`, negative included, gives black in all three variants |
| Radiance.OneBounce | src/renderer/raytracer.rs:107-123 | a miss is the sky, an absorbed hit is black, and a scattered hit is `attenuation (*) ray_colour(scattered, depth - 1)` |
| Radiance.NearHitsIgnored | src/renderer/raytracer.rs:112 | the scene is queried from `t = 0.001`, and with no hit from there the colour is the sky |
| Radiance.AtMostDepthBounces | src/renderer/raytracer.rs:113-114 | the recursion consumes at most `depth` draws; later draws never change the colour |
| Radiance.RendererMatchesLegacy | src/raytracer.rs:110-126 | by induction on the depth, the `u32` recursion stopping at `depth == 0` and the `i32` one stopping at `depth <= 0` give the same colour for every natural depth |
| Radiance.MainWindowIsFinite | src/main.rs:26 | in `main` no hit beyond `f64::MAX` is seen |
| Radiance.NormalizeUnitVector | src/renderer/raytracer.rs:120 | normalizing a unit vector leaves it unchanged |
| Radiance.SkyEndpoints | src/renderer/raytracer.rs:120-122 | a unit direction with `y = 1` gives `(0.5, 0.7, 1)` and one with `y = -1` gives white |
| Radiance.SkyIsBlend | src/raytracer.rs:123-125 | the sky lies between white and `(0.5, 0.7, 1)` in every component |
| Radiance.AttenuationInUnitCube | src/material.rs:27-93 | with albedos in the unit cube, every attenuation is in the unit cube |
| Radiance.MulInUnitCube | src/util/vec3rtext.rs:16-18 | `mul` of two colours in the unit cube stays in it |
| Radiance.RayColourInUnitCube | src/renderer/raytracer.rs:107-123 | with albedos in the unit cube, every `ray_colour` lies in the unit cube |
| Radiance.Sky | src/renderer/raytracer.rs:119-122 | the sky blend, with the ends and bounds of SkyEndpoints and SkyIsBlend |
| Radiance.RayColour | src/renderer/raytracer.rs:107-123 | `ray_colour` with the window end as a parameter, stated by DepthExhaustedIsBlack, OneBounce, NearHitsIgnored, AtMostDepthBounces and RayColourInUnitCube |
| Radiance.RendererRayColour | src/renderer/raytracer.rs:107-123 | the `u32` variant with its own `depth == 0` stop, which RendererMatchesLegacy proves equal to the `i32` variant's `depth <= 0` stop on every natural depth |
| Radiance.LegacyRayColour | src/raytracer.rs:110-126 | the `i32` variant, black for every depth `<= 0` by DepthExhaustedIsBlack |
| Radiance.MainRayColour | src/main.rs:21-36 | the variant of `main` with the window end `INFTY`, which MainWindowIsFinite states |
| Scenes.AddCellSphere | src/renderer/raytracer.rs:40-71 | one pass of the inner loop adds the cell's sphere, if it has one, and nothing else |
| Scenes.RandomScene | src/renderer/raytracer.rs:25-105 | the nested loops build exactly ground, the small spheres cell by cell, then the three feature spheres |
| Scenes.AddGridRow | src/renderer/raytracer.rs:39-71 | one pass of the inner loop appends exactly the small spheres of the 22 cells of row `a`, in order |
| Scenes.AddFeatures | src/renderer/raytracer.rs:75-104 | the three feature spheres are appended after everything already in the list, in the order glass, diffuse, metal |
| Scenes.SmallSpheresAtMostOnePerCell | src/renderer/raytracer.rs:38-73 | at most one small sphere per visited cell |
| Scenes.SmallSpheresFromCells | src/renderer/raytracer.rs:38-73 | every small sphere is the sphere of one of the visited cells |
| Scenes.RandomSceneShape | src/renderer/raytracer.rs:28-102 | the first object is the ground sphere at `(0,-1000,0)` of radius 1000, the last three are the radius-1 spheres at `(0,1,0)`, `(-4,1,0)`, `(4,1,0)` in order, and there are at most `4 + 22 * 22` objects |
| Scenes.SqrtAbove | src/renderer/raytracer.rs:48 | `norm() > 0.9` iff the squared norm exceeds `0.81` |
| Scenes.CellKeepsClear | src/renderer/raytracer.rs:48 | a cell gets a sphere iff its centre is more than 0.9 from `(4, 0.2, 0)` |
| Scenes.CellSphereGeometry | src/renderer/raytracer.rs:42-70 | a small sphere has radius 0.2, its centre has `y = 0.2` and lies in its cell |
| Scenes.CellMaterialThresholds | src/raytracer.rs:52-66 | `< 0.75` gives Lambertian with the product albedo, `< 0.92` Metal with fuzz in `[0, 0.5)`, otherwise glass with `ir = 1.5` |
| Scenes.OnlyDiffuseSpheresMove | src/renderer/raytracer.rs:49-63 | only diffuse small spheres move, straight up by the hop over one time unit |
| Scenes.LegacyDiffuseSphereDrifts | src/raytracer.rs:54 | in the older builder a diffuse sphere's centre at time 1 is `2 centre + (0, hop, 0)` |
| Scenes.RandomSceneIsValid | src/renderer/raytracer.rs:25-105 | every sphere of the built scene has a non-zero radius and a valid material |
| Scenes.FiveSphereWorld | src/main.rs:50-89 | `main` builds its world by five `add` calls on an empty list |
| Scenes.FiveSpheresShape | src/main.rs:50-89 | five spheres; the two at `(-1,0,-1)` share one glass material and the inner one has radius -0.4 |
| Scenes.CellMaterial | src/renderer/raytracer.rs:50-63 | the material choice, whose thresholds CellMaterialThresholds states |
| Scenes.CellSphere | src/renderer/raytracer.rs:40-70 | the sphere of one cell, stated by CellKeepsClear, CellSphereGeometry and OnlyDiffuseSpheresMove |
| Scenes.SmallSpheres | src/renderer/raytracer.rs:38-73 | the small spheres of the visited cells, stated by SmallSpheresAtMostOnePerCell and SmallSpheresFromCells |
| Scenes.RandomSceneObjects | src/renderer/raytracer.rs:25-105 | the objects `random_scene` adds, which RandomScene builds and RandomSceneShape and RandomSceneIsValid describe |
| Rendering.PixelColour | src/renderer/raytracer.rs:175-186 | the per-pixel loop returns the sum of the samples' `ray_colour` |
| Rendering.SampleSumBounded | src/renderer/raytracer.rs:175-186 | with albedos in the unit cube, each component of an `n`-sample sum lies in `[0, n]` |
| Rendering.WriteFlipped | src/renderer/raytracer.rs:197-207 | every image pixel `(i, y)` receives matrix row `H - 1 - y`, column `i`, through `write_to_img` |
| Rendering.LegacyWriteFlipped | src/raytracer.rs:221-231 | the same row flip through the older `write_to_img`; `src/main.rs:153-163` is the same loop |
| Rendering.SampleColour | src/renderer/raytracer.rs:178-183 | one sample's `ray_colour` through `get_ray(u, v)` |
| Rendering.SampleSum | src/renderer/raytracer.rs:175-186 | the sum of the first `n` samples, which PixelColour computes and SampleSumBounded bounds |

## Left out

- Floating point: `f64` is `real`, so IEEE rounding, NaN and infinities are not modelled. The square root of a negative number (NaN in the source) is unconstrained by `IsSqrt`.
- The unbounded window `f64::INFINITY` is the bound `Unbounded` and is not a number.
- A sample count of zero is excluded by `requires`, because the source divides by it (`1. / samples_per_pixel`).
- The square root and tangent are parameters. nalgebra's `cross`, `normalize` and `powi` are written out in closed form.
- Randomness: the random draws are inputs. `rand_unit_vector`, `rand_in_unit_sphere`, `rand_in_unit_disk` and `random_vec3` are not part of this model, and their samples are taken as given values. No statistical claim is made.
- Spheres.Hit: a ray with zero direction (`a == 0`) is modelled as a miss. In the source `half_b` and the discriminant are then 0, the root is `0 / 0 = NaN`, both comparisons of `src/sphere.rs:46,48` are false, and it returns `Some` record with `t = NaN`: a hit where the model reports none.
- Spheres.Hit: a zero radius is excluded by its `requires` (and by `ValidSphere` and `ValidHittable` for scenes), because the source divides by it.
- Materials.Reflectance: the index is required positive. The source divides by `1 + ref_idx` only, so it accepts any index but -1; a positive index is what keeps `r0` at most 1, which ReflectanceIsProbability needs, and every caller passes `ir` or `1 / ir` with `ir > 0`.
- Scattering.DielectricScatter: a non-positive refraction index is excluded through `ValidMaterial`. The ratio is `1 / ir` or `ir`, and `Materials.Reflectance` needs it positive; a zero index would also divide by zero at `src/material.rs:71`.
- Rendering.SampleColour: an image one pixel wide or high is excluded by `width > 1 && height > 1` (also on `Rendering.SampleSum` and `Rendering.PixelColour`); the source divides by `image_width - 1` and `image_height - 1` and would compute an infinite or NaN `u` or `v`.
- RtWeekend.Eps: the value of `EPS` is not in the files modelled; `1e-8` is the model's choice, so every statement about `near_zero` holds for that value.
- Scattering.Scatter: a scattered ray keeps the incoming ray's time. `src/material.rs` builds rays without a time field, so it has no time to pass on.
- Cameras.GetRay: camera rays are cast at time 0.
- Vectors.Normalize: the zero vector normalizes to itself instead of NaN.
- The parallel pixel maps (rayon), the pixel channels, the completion signal, the window and its event loop (`ViewportRenderer::new`, `show_rendered_scene`), the progress bar, `img.save` with its timestamped path, `dbg!` and `println!` are concurrency and I/O and are not modelled.
- The per-pixel loop is modelled sequentially in `Rendering.PixelColour`, and the colour matrix is an input to the image pass.
- `src/window/scene_viewer.rs` is entirely commented out, and the configuration defaults of `src/config.rs` are not part of this model.
- Colours.OutputStream.WriteColour: I/O errors of `write_all` are not modelled; the stream only accumulates characters.
- Images are `array2<seq<byte>>` indexed `[x, y]`. The bounds checks of `get_pixel_mut` become `requires`.
- Viewport.PlotPixel: a slice outside the buffer, which panics in the source, is excluded by `requires`.
- `Arc` reference counting and `unsafe impl Send/Sync`: materials and objects are values.
- The `Legacy` snapshot of `Scenes` uses the coherent sphere and material types, although `src/raytracer.rs` pairs them with the older ray and record. Only its displacement line differs.

## Findings

| source | as written | input that shows it | evidently intended | confidence | as-written member | corrected member |
|---|---|---|---|---|---|---|
| src/vec3rtext.rs:10-12 | `near_zero` compares raw components with `EPS`, without `abs` | `(-1, -1, -1)` is called near zero although its length is `sqrt(3)` | every component's absolute value below `EPS`, as in `src/util/vec3rtext.rs:12-14` | not executed | LegacyVectors.NearZeroRawAcceptsLargeNegative | Vectors.NearZeroIsShort |
| src/viewport.rs:99 | `let i = x + y * stride * 4;` leaves `x` unscaled, so pixel windows are one byte apart | `(x, y) = (0, 0)` and `(1, 0)` write bytes `0..4` and `1..5`, which overlap in three bytes | `4 * (x + y * stride)`, four bytes per pixel | not executed | Viewport.AdjacentPlotsOverlap | Viewport.FrameWindowsDisjoint |
| src/raytracer.rs:54 | a diffuse sphere's displacement is `centre + (0, hop, 0)`, so at time 1 its centre is `2 centre + (0, hop, 0)` | cell `a = 5` with no jitter: the centre moves from `x = 5` to `x = 10` | a displacement of `(0, hop, 0)`, as in `src/renderer/raytracer.rs:52` | not executed | Scenes.LegacyDiffuseSphereDrifts | Scenes.OnlyDiffuseSpheresMove |

In the model, where camera rays are cast at time 0 and scattered rays keep that time, the third finding does not change the image, because every sphere is at `centre0` at time 0. The source itself fixes no time for camera rays: `src/camera.rs:57-60` builds rays without a `time` field.
