/**
  The radiance recursion `ray_colour` of the three drivers
  (src/renderer/raytracer.rs, src/raytracer.rs, src/main.rs): a ray that hits
  the scene is scattered by the material hit and its colour is the attenuation
  times the colour of the scattered ray, one bounce less deep; an absorbed ray
  is black; a ray that misses sees the sky gradient. The random draws of each
  bounce are a sequence given in advance, one per bounce.
*/
module Radiance {
  import opened Wrappers
  import opened RtWeekend
  import opened Vectors
  import opened Rays
  import opened Materials
  import opened HitRecords
  import opened HittableLists
  import opened Scattering

  /** The lower end of every scene query, which keeps a bounce from re-hitting its own surface. */
  const BounceTMin: real := 0.001

  /** The colour at the top of the sky. */
  const SkyBlue: Colour := Vec3(0.5, 0.7, 1.0)

  /** The sky: white blended into blue by `t = 0.5 * (y + 1)` of the unit direction. */
  function Sky(r: Ray, sqrt: real -> real): Colour {
    var unitDirection := Normalize(r.direction, sqrt);
    var t := 0.5 * (unitDirection.y + 1.0);
    Add(Scale(1.0 - t, Ones), Scale(t, SkyBlue))
  }

  /**
    `ray_colour` with the hit window's upper end as a parameter. `draws[0]` is
    used at this bounce and `draws[1..]` below it.
  */
  function RayColour(r: Ray, world: Hittable, depth: int, tMax: Bound, draws: seq<ScatterDraw>,
                     sqrt: real -> real): Colour
    requires ValidHittable(world) && depth <= |draws|
    decreases depth
  {
    if depth <= 0 then Zero
    else
      var hit := HitObject(world, r, BounceTMin, tMax, sqrt);
      if hit.None? then Sky(r, sqrt)
      else
        HitObjectMaterial(world, r, BounceTMin, tMax, sqrt);
        SceneMaterialValid(hit.value.mat, world);
        var scattered := Scatter(hit.value.mat, r, hit.value, draws[0], sqrt);
        if scattered.None? then Zero
        else Mul(scattered.value.attenuation,
                 RayColour(scattered.value.scattered, world, depth - 1, tMax, draws[1..], sqrt))
  }

  /** src/renderer/raytracer.rs: a `u32` depth that stops at `depth == 0`, and the window `[0.001, f64::INFINITY]`. */
  function RendererRayColour(r: Ray, world: Hittable, depth: nat, draws: seq<ScatterDraw>, sqrt: real -> real): Colour
    requires ValidHittable(world) && depth <= |draws|
    decreases depth
  {
    if depth == 0 then Zero
    else
      var hit := HitObject(world, r, BounceTMin, Unbounded, sqrt);
      if hit.None? then Sky(r, sqrt)
      else
        HitObjectMaterial(world, r, BounceTMin, Unbounded, sqrt);
        SceneMaterialValid(hit.value.mat, world);
        var scattered := Scatter(hit.value.mat, r, hit.value, draws[0], sqrt);
        if scattered.None? then Zero
        else Mul(scattered.value.attenuation,
                 RendererRayColour(scattered.value.scattered, world, depth - 1, draws[1..], sqrt))
  }

  /** src/raytracer.rs: an `i32` depth and the window `[0.001, f64::INFINITY]`. */
  function LegacyRayColour(r: Ray, world: Hittable, depth: int, draws: seq<ScatterDraw>, sqrt: real -> real): Colour
    requires ValidHittable(world) && depth <= |draws|
  {
    RayColour(r, world, depth, Unbounded, draws, sqrt)
  }

  /** src/main.rs: an `i32` depth and the window `[0.001, INFTY]`, `INFTY` being `f64::MAX`. */
  function MainRayColour(r: Ray, world: Hittable, depth: int, draws: seq<ScatterDraw>, sqrt: real -> real): Colour
    requires ValidHittable(world) && depth <= |draws|
  {
    RayColour(r, world, depth, Infty, draws, sqrt)
  }

  // ---------------------------------------------------------------- the recursion

  /** With no depth left, zero or negative, the colour is black whatever the ray and scene. */
  lemma DepthExhaustedIsBlack(r: Ray, world: Hittable, depth: int, tMax: Bound, draws: seq<ScatterDraw>, sqrt: real -> real)
    requires ValidHittable(world) && depth <= |draws| && depth <= 0
    ensures RayColour(r, world, depth, tMax, draws, sqrt) == Zero
    ensures RendererRayColour(r, world, 0, draws, sqrt) == Zero
    ensures LegacyRayColour(r, world, depth, draws, sqrt) == Zero
    ensures MainRayColour(r, world, depth, draws, sqrt) == Zero
  {
  }

  /**
    One bounce: a miss is the sky; a hit whose material absorbs is black; a
    hit that scatters is the attenuation times the colour of the scattered
    ray one level deeper, fed the remaining draws.
  */
  lemma OneBounce(r: Ray, world: Hittable, depth: int, tMax: Bound, draws: seq<ScatterDraw>, sqrt: real -> real)
    requires ValidHittable(world) && 0 < depth <= |draws|
    ensures var hit := HitObject(world, r, BounceTMin, tMax, sqrt);
      && (hit.None? ==> RayColour(r, world, depth, tMax, draws, sqrt) == Sky(r, sqrt))
      && (hit.Some? ==> ValidMaterial(hit.value.mat))
      && (hit.Some? && Scatter(hit.value.mat, r, hit.value, draws[0], sqrt).None? ==>
            RayColour(r, world, depth, tMax, draws, sqrt) == Zero)
      && (hit.Some? && Scatter(hit.value.mat, r, hit.value, draws[0], sqrt).Some? ==>
            var s := Scatter(hit.value.mat, r, hit.value, draws[0], sqrt).value;
            RayColour(r, world, depth, tMax, draws, sqrt)
              == Mul(s.attenuation, RayColour(s.scattered, world, depth - 1, tMax, draws[1..], sqrt)))
  {
    var hit := HitObject(world, r, BounceTMin, tMax, sqrt);
    if hit.Some? {
      HitObjectMaterial(world, r, BounceTMin, tMax, sqrt);
      SceneMaterialValid(hit.value.mat, world);
    }
  }

  /** Only hits at `t >= 0.001` count: a scene that reports nothing from there on leaves the sky. */
  lemma NearHitsIgnored(r: Ray, world: Hittable, depth: int, tMax: Bound, draws: seq<ScatterDraw>, sqrt: real -> real)
    requires ValidHittable(world) && 0 < depth <= |draws|
    ensures HitObject(world, r, BounceTMin, tMax, sqrt).Some? ==>
      BounceTMin <= HitObject(world, r, BounceTMin, tMax, sqrt).value.t
    ensures HitObject(world, r, BounceTMin, tMax, sqrt).None? ==> RayColour(r, world, depth, tMax, draws, sqrt) == Sky(r, sqrt)
  {
    HitObjectInWindow(world, r, BounceTMin, tMax, sqrt);
  }

  /**
    The recursion uses at most `depth` draws, one per bounce: draws beyond the
    first `depth` never change the colour.
  */
  lemma {:induction false} AtMostDepthBounces(r: Ray, world: Hittable, depth: int, tMax: Bound,
                                              draws: seq<ScatterDraw>, extra: seq<ScatterDraw>, sqrt: real -> real)
    requires ValidHittable(world) && depth <= |draws|
    ensures RayColour(r, world, depth, tMax, draws + extra, sqrt) == RayColour(r, world, depth, tMax, draws, sqrt)
    decreases depth
  {
    if depth > 0 {
      var hit := HitObject(world, r, BounceTMin, tMax, sqrt);
      if hit.Some? {
        HitObjectMaterial(world, r, BounceTMin, tMax, sqrt);
        SceneMaterialValid(hit.value.mat, world);
        assert (draws + extra)[0] == draws[0];
        assert (draws + extra)[1..] == draws[1..] + extra;
        var s := Scatter(hit.value.mat, r, hit.value, draws[0], sqrt);
        if s.Some? {
          AtMostDepthBounces(s.value.scattered, world, depth - 1, tMax, draws[1..], extra, sqrt);
        }
      }
    }
  }

  /**
    The two `f64::INFINITY` drivers compute the same colour: on a natural
    depth the `u32` test `depth == 0` and the `i32` test `depth <= 0` stop the
    recursion at the same bounce.
  */
  lemma {:induction false} RendererMatchesLegacy(r: Ray, world: Hittable, depth: nat, draws: seq<ScatterDraw>, sqrt: real -> real)
    requires ValidHittable(world) && depth <= |draws|
    ensures RendererRayColour(r, world, depth, draws, sqrt) == LegacyRayColour(r, world, depth, draws, sqrt)
    decreases depth
  {
    if depth > 0 {
      var hit := HitObject(world, r, BounceTMin, Unbounded, sqrt);
      if hit.Some? {
        HitObjectMaterial(world, r, BounceTMin, Unbounded, sqrt);
        SceneMaterialValid(hit.value.mat, world);
        var scattered := Scatter(hit.value.mat, r, hit.value, draws[0], sqrt);
        if scattered.Some? {
          RendererMatchesLegacy(scattered.value.scattered, world, depth - 1, draws[1..], sqrt);
        }
      }
    }
  }

  /** In src/main.rs the window's upper end is finite: no hit farther than `f64::MAX` is seen. */
  lemma MainWindowIsFinite(r: Ray, world: Hittable, sqrt: real -> real)
    requires ValidHittable(world)
    ensures HitObject(world, r, BounceTMin, Infty, sqrt).Some? ==>
      HitObject(world, r, BounceTMin, Infty, sqrt).value.t <= F64Max
  {
    HitObjectInWindow(world, r, BounceTMin, Infty, sqrt);
  }

  // ---------------------------------------------------------------- the sky

  lemma NormalizeUnitVector(v: Vec3, sqrt: real -> real)
    requires IsSqrt(sqrt) && LengthSquared(v) == 1.0
    ensures Normalize(v, sqrt) == v
  {
    SqrtFacts(sqrt, 1.0);
  }

  /** Looking straight up the sky is `(0.5, 0.7, 1.0)`; straight down it is white. */
  lemma SkyEndpoints(r: Ray, sqrt: real -> real)
    requires IsSqrt(sqrt) && LengthSquared(r.direction) == 1.0
    ensures r.direction.y == 1.0 ==> Sky(r, sqrt) == SkyBlue
    ensures r.direction.y == -1.0 ==> Sky(r, sqrt) == Ones
  {
    NormalizeUnitVector(r.direction, sqrt);
  }

  /**
    The sky is always a blend of white and blue: red in `[0.5, 1]`, green in
    `[0.7, 1]`, blue exactly 1, whatever the direction (a zero direction looks
    at the horizon).
  */
  lemma SkyIsBlend(r: Ray, sqrt: real -> real)
    requires IsSqrt(sqrt)
    ensures 0.5 <= Sky(r, sqrt).x <= 1.0
    ensures 0.7 <= Sky(r, sqrt).y <= 1.0
    ensures Sky(r, sqrt).z == 1.0
  {
    var u := Normalize(r.direction, sqrt);
    if r.direction != Zero {
      NormalizeUnit(r.direction, sqrt);
      UnitComponentBounds(u);
    } else {
      assert u == Zero;
    }
    var t := 0.5 * (u.y + 1.0);
    assert 0.0 <= t <= 1.0;
  }

  // ---------------------------------------------------------------- bounded colour

  predicate InUnitCube(c: Colour) {
    0.0 <= c.x <= 1.0 && 0.0 <= c.y <= 1.0 && 0.0 <= c.z <= 1.0
  }

  /** A material whose albedo, if it has one, lies in the unit cube. */
  predicate AlbedoInUnitCube(m: Material) {
    match m
    case Lambertian(albedo) => InUnitCube(albedo)
    case Metal(albedo, _) => InUnitCube(albedo)
    case Dielectric(_) => true
  }

  /** Every material of the scene has its albedo in the unit cube. */
  ghost predicate SceneAlbedosInUnitCube(world: Hittable) {
    forall m :: MaterialInScene(m, world) ==> AlbedoInUnitCube(m)
  }

  lemma AttenuationInUnitCube(m: Material, rIn: Ray, rec: HitRecord, draw: ScatterDraw, sqrt: real -> real)
    requires ValidMaterial(m) && AlbedoInUnitCube(m) && Scatter(m, rIn, rec, draw, sqrt).Some?
    ensures InUnitCube(Scatter(m, rIn, rec, draw, sqrt).value.attenuation)
  {
  }

  lemma MulInUnitCube(a: Colour, b: Colour)
    requires InUnitCube(a) && InUnitCube(b)
    ensures InUnitCube(Mul(a, b))
  {
    MulAtMostOne(a.x, b.x);
    MulAtMostOne(a.y, b.y);
    MulAtMostOne(a.z, b.z);
  }

  /**
    When every albedo of the scene lies in the unit cube, so does the colour
    of every ray: attenuation only darkens, and the sky is at most white.
  */
  lemma {:induction false} RayColourInUnitCube(r: Ray, world: Hittable, depth: int, tMax: Bound,
                                               draws: seq<ScatterDraw>, sqrt: real -> real)
    requires IsSqrt(sqrt) && ValidHittable(world) && depth <= |draws| && SceneAlbedosInUnitCube(world)
    ensures InUnitCube(RayColour(r, world, depth, tMax, draws, sqrt))
    decreases depth
  {
    if depth > 0 {
      var hit := HitObject(world, r, BounceTMin, tMax, sqrt);
      if hit.None? {
        SkyIsBlend(r, sqrt);
      } else {
        HitObjectMaterial(world, r, BounceTMin, tMax, sqrt);
        SceneMaterialValid(hit.value.mat, world);
        var s := Scatter(hit.value.mat, r, hit.value, draws[0], sqrt);
        if s.Some? {
          AttenuationInUnitCube(hit.value.mat, r, hit.value, draws[0], sqrt);
          RayColourInUnitCube(s.value.scattered, world, depth - 1, tMax, draws[1..], sqrt);
          MulInUnitCube(s.value.attenuation, RayColour(s.value.scattered, world, depth - 1, tMax, draws[1..], sqrt));
        }
      }
    }
  }
}
