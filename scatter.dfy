/**
  The scatter rules of the three materials (src/material.rs). Each random
  draw the source makes (`rand_unit_vector`, `rand_in_unit_sphere`,
  `rand::random`) is an input, bundled in a `ScatterDraw`.
*/
module Scattering {
  import opened Wrappers
  import opened RtWeekend
  import opened Vectors
  import opened Rays
  import opened Materials
  import opened HitRecords

  /** The random inputs one scatter event may consume. */
  datatype ScatterDraw = ScatterDraw(unitVector: Vec3, inUnitSphere: Vec3, uniform: real)

  /** The `(attenuation, scattered)` pair of a scatter event. */
  datatype Scattered = Scattered(attenuation: Colour, scattered: Ray)

  /**
    `Lambertian::scatter`: the normal plus a random unit vector, falling back
    to the normal when that sum is near zero.
  */
  function LambertianScatter(albedo: Colour, rIn: Ray, rec: HitRecord, unitVector: Vec3): Option<Scattered> {
    var scatterDirection := Add(rec.normal, unitVector);
    var scatterDirection := if NearZero(scatterDirection) then rec.normal else scatterDirection;
    Some(Scattered(albedo, Ray(rec.p, scatterDirection, rIn.time)))
  }

  /**
    `Metal::scatter`: the mirror reflection of the normalized incoming
    direction, perturbed by `fuzz` times a point of the unit ball; absorbed
    unless the result leaves on the normal's side.
  */
  function MetalScatter(albedo: Colour, fuzz: real, rIn: Ray, rec: HitRecord, inUnitSphere: Vec3, sqrt: real -> real): Option<Scattered> {
    var reflected := Reflect(Normalize(rIn.direction, sqrt), rec.normal);
    var fuzzed := Add(reflected, Scale(fuzz, inUnitSphere));
    var scattered := Ray(rec.p, fuzzed, rIn.time);
    if Dot(scattered.direction, rec.normal) > 0.0 then Some(Scattered(albedo, scattered)) else None
  }

  /** `refraction_ratio`: `1/ir` entering the surface, `ir` leaving it. */
  function RefractionRatio(ir: real, frontFace: bool): real
    requires 0.0 < ir
  {
    if frontFace then 1.0 / ir else ir
  }

  /** `cannot_refract`: `ratio * sqrt(1 - cos^2) > 1` (total internal reflection). */
  predicate CannotRefract(ratio: real, cosTheta: real, sqrt: real -> real) {
    ratio * sqrt(1.0 - cosTheta * cosTheta) > 1.0
  }

  /**
    `Dielectric::scatter`: reflect when refraction is impossible or when the
    Schlick reflectance beats the uniform draw, refract otherwise; nothing is
    absorbed. `cos_theta` is the same clamped cosine `refract` uses.
  */
  function DielectricScatter(ir: real, rIn: Ray, rec: HitRecord, uniform: real, sqrt: real -> real): Option<Scattered>
    requires 0.0 < ir
  {
    var attenuation := Ones;
    var unitDir := Normalize(rIn.direction, sqrt);
    var refractionRatio := RefractionRatio(ir, rec.frontFace);
    var cosTheta := RefractCos(unitDir, rec.normal);
    var direction :=
      if CannotRefract(refractionRatio, cosTheta, sqrt) || Reflectance(cosTheta, refractionRatio) > uniform
      then Reflect(unitDir, rec.normal)
      else Refract(unitDir, rec.normal, refractionRatio, sqrt);
    Some(Scattered(attenuation, Ray(rec.p, direction, rIn.time)))
  }

  /** `Material::scatter`, dispatched on the material. */
  function Scatter(m: Material, rIn: Ray, rec: HitRecord, draw: ScatterDraw, sqrt: real -> real): Option<Scattered>
    requires ValidMaterial(m)
  {
    match m
    case Lambertian(albedo) => LambertianScatter(albedo, rIn, rec, draw.unitVector)
    case Metal(albedo, fuzz) => MetalScatter(albedo, fuzz, rIn, rec, draw.inUnitSphere, sqrt)
    case Dielectric(ir) => DielectricScatter(ir, rIn, rec, draw.uniform, sqrt)
  }

  // ---------------------------------------------------------------- every material

  /** Every scattered ray starts at the hit point and keeps the incoming ray's time. */
  lemma ScatteredLeavesHitPoint(m: Material, rIn: Ray, rec: HitRecord, draw: ScatterDraw, sqrt: real -> real)
    requires ValidMaterial(m) && Scatter(m, rIn, rec, draw, sqrt).Some?
    ensures Scatter(m, rIn, rec, draw, sqrt).value.scattered.origin == rec.p
    ensures Scatter(m, rIn, rec, draw, sqrt).value.scattered.time == rIn.time
  {
  }

  // ---------------------------------------------------------------- Lambertian

  /**
    A Lambertian surface never absorbs: the attenuation is its albedo and the
    direction is the normal plus the draw, or the normal itself exactly when
    that sum is near zero.
  */
  lemma LambertianAlwaysScatters(albedo: Colour, rIn: Ray, rec: HitRecord, draw: ScatterDraw, sqrt: real -> real)
    ensures var s := Scatter(Lambertian(albedo), rIn, rec, draw, sqrt);
      && s.Some?
      && s.value.attenuation == albedo
      && (NearZero(Add(rec.normal, draw.unitVector)) ==> s.value.scattered.direction == rec.normal)
      && (!NearZero(Add(rec.normal, draw.unitVector)) ==> s.value.scattered.direction == Add(rec.normal, draw.unitVector))
  {
  }

  /** With a unit normal, the Lambertian direction is never itself near zero. */
  lemma LambertianDirectionNotDegenerate(albedo: Colour, rIn: Ray, rec: HitRecord, draw: ScatterDraw, sqrt: real -> real)
    requires LengthSquared(rec.normal) == 1.0
    ensures !NearZero(Scatter(Lambertian(albedo), rIn, rec, draw, sqrt).value.scattered.direction)
  {
    var d := Scatter(Lambertian(albedo), rIn, rec, draw, sqrt).value.scattered.direction;
    if NearZero(d) {
      NearZeroIsShort(d);
    }
  }

  // ---------------------------------------------------------------- Metal

  /** A metal surface scatters exactly when the fuzzed reflection leaves on the normal's side, with its albedo. */
  lemma MetalScatterRule(albedo: Colour, fuzz: real, rIn: Ray, rec: HitRecord, draw: ScatterDraw, sqrt: real -> real)
    ensures var fuzzed := Add(Reflect(Normalize(rIn.direction, sqrt), rec.normal), Scale(fuzz, draw.inUnitSphere));
      var s := Scatter(Metal(albedo, fuzz), rIn, rec, draw, sqrt);
      && (s.Some? <==> Dot(fuzzed, rec.normal) > 0.0)
      && (s.Some? ==> s.value.attenuation == albedo && s.value.scattered.direction == fuzzed)
  {
  }

  /**
    A perfect mirror (`fuzz == 0`) with a unit normal: the direction is the
    reflection of the normalized incoming direction, of unit length, and the
    ray is scattered exactly when it arrives against the normal.
  */
  lemma PerfectMirror(albedo: Colour, rIn: Ray, rec: HitRecord, draw: ScatterDraw, sqrt: real -> real)
    requires IsSqrt(sqrt) && LengthSquared(rec.normal) == 1.0 && rIn.direction != Zero
    ensures var s := Scatter(Metal(albedo, 0.0), rIn, rec, draw, sqrt);
      && (s.Some? <==> Dot(rIn.direction, rec.normal) < 0.0)
      && (s.Some? ==>
            && s.value.scattered.direction == Reflect(Normalize(rIn.direction, sqrt), rec.normal)
            && LengthSquared(s.value.scattered.direction) == 1.0)
  {
    var u := Normalize(rIn.direction, sqrt);
    NormalizeUnit(rIn.direction, sqrt);
    var k :| 0.0 < k && u == Scale(k, rIn.direction);
    var reflected := Reflect(u, rec.normal);
    assert Add(reflected, Scale(0.0, draw.inUnitSphere)) == reflected;
    ReflectFlipsNormalComponent(u, rec.normal);
    DotScaleLeft(k, rIn.direction, rec.normal);
    ReflectPreservesLength(u, rec.normal);
    var d := Dot(rIn.direction, rec.normal);
    assert Dot(reflected, rec.normal) == -(k * d);
    if d < 0.0 {
      MulNonNeg(k, -d);
      assert k * d != 0.0;
    } else {
      MulNonNeg(k, d);
    }
  }

  // ---------------------------------------------------------------- Dielectric

  /**
    Glass never absorbs and does not tint: the attenuation is `(1,1,1)`, and
    the ratio is `1/ir` when entering and `ir` when leaving.
  */
  lemma DielectricAlwaysScatters(ir: real, rIn: Ray, rec: HitRecord, draw: ScatterDraw, sqrt: real -> real)
    requires 0.0 < ir
    ensures var s := Scatter(Dielectric(ir), rIn, rec, draw, sqrt);
      s.Some? && s.value.attenuation == Ones
    ensures rec.frontFace ==> RefractionRatio(ir, rec.frontFace) * ir == 1.0
    ensures !rec.frontFace ==> RefractionRatio(ir, rec.frontFace) == ir
  {
  }

  /**
    Reflection is chosen when refraction is impossible or the Schlick
    reflectance exceeds the draw; otherwise the ray refracts.
  */
  lemma DielectricChoice(ir: real, rIn: Ray, rec: HitRecord, draw: ScatterDraw, sqrt: real -> real)
    requires 0.0 < ir
    ensures var unitDir := Normalize(rIn.direction, sqrt);
      var ratio := RefractionRatio(ir, rec.frontFace);
      var cosTheta := RefractCos(unitDir, rec.normal);
      var d := Scatter(Dielectric(ir), rIn, rec, draw, sqrt).value.scattered.direction;
      && (CannotRefract(ratio, cosTheta, sqrt) ==> d == Reflect(unitDir, rec.normal))
      && (Reflectance(cosTheta, ratio) > draw.uniform ==> d == Reflect(unitDir, rec.normal))
      && (!CannotRefract(ratio, cosTheta, sqrt) && Reflectance(cosTheta, ratio) <= draw.uniform ==>
            d == Refract(unitDir, rec.normal, ratio, sqrt))
  {
  }

  /**
    With a unit normal and a non-zero incoming direction, the scattered
    direction of glass has unit length whether it reflects or refracts: the
    `cannot_refract` test is exactly what keeps Snell's law solvable.
  */
  lemma DielectricDirectionIsUnit(ir: real, rIn: Ray, rec: HitRecord, draw: ScatterDraw, sqrt: real -> real)
    requires IsSqrt(sqrt) && 0.0 < ir && LengthSquared(rec.normal) == 1.0 && rIn.direction != Zero
    ensures LengthSquared(Scatter(Dielectric(ir), rIn, rec, draw, sqrt).value.scattered.direction) == 1.0
  {
    var unitDir := Normalize(rIn.direction, sqrt);
    var n := rec.normal;
    var ratio := RefractionRatio(ir, rec.frontFace);
    var cosTheta := RefractCos(unitDir, n);
    NormalizeUnit(rIn.direction, sqrt);
    DielectricChoice(ir, rIn, rec, draw, sqrt);
    var d := Scatter(Dielectric(ir), rIn, rec, draw, sqrt).value.scattered.direction;
    if CannotRefract(ratio, cosTheta, sqrt) || Reflectance(cosTheta, ratio) > draw.uniform {
      ReflectPreservesLength(unitDir, n);
    } else {
      assert 0.0 < ratio by {
        if rec.frontFace {
          assert ratio * ir == 1.0;
        }
      }
      RefractionKeepsUnitLength(unitDir, n, ratio, sqrt);
    }
  }

  /**
    When `cannot_refract` is false, unit `uv` and unit `n` refract to a unit
    vector: `ratio * sin_theta <= 1` is Snell's condition.
  */
  lemma RefractionKeepsUnitLength(uv: Vec3, n: Vec3, ratio: real, sqrt: real -> real)
    requires IsSqrt(sqrt) && LengthSquared(uv) == 1.0 && LengthSquared(n) == 1.0 && 0.0 < ratio
    requires !CannotRefract(ratio, RefractCos(uv, n), sqrt)
    ensures LengthSquared(Refract(uv, n, ratio, sqrt)) == 1.0
  {
    RefractionPossible(ratio, RefractCos(uv, n), sqrt);
    CosineOfUnitVectors(uv, n);
    SquareOfCosine(RefractCos(uv, n));
    var sinTheta := sqrt(1.0 - RefractCos(uv, n) * RefractCos(uv, n));
    assert 0.0 <= sinTheta && sinTheta * sinTheta == 1.0 - RefractCos(uv, n) * RefractCos(uv, n);
    SnellBound(ratio, sinTheta, RefractCos(uv, n) * RefractCos(uv, n));
    RefractSnell(uv, n, ratio, sqrt);
    assert ratio * ratio * (1.0 - RefractCos(uv, n) * RefractCos(uv, n)) <= 1.0;
    assert LengthSquared(RefractPerp(uv, n, ratio)) <= 1.0;
  }

  lemma RefractionPossible(ratio: real, cosTheta: real, sqrt: real -> real)
    requires !CannotRefract(ratio, cosTheta, sqrt)
    ensures ratio * sqrt(1.0 - cosTheta * cosTheta) <= 1.0
  {
  }

  /** The clamped cosine of two unit vectors lies in `[-1, 1]`. */
  lemma CosineOfUnitVectors(uv: Vec3, n: Vec3)
    requires LengthSquared(uv) == 1.0 && LengthSquared(n) == 1.0
    ensures -1.0 <= RefractCos(uv, n) <= 1.0
  {
    assert LengthSquared(Neg(uv)) == 1.0;
    UnitDotAtLeastMinusOne(Neg(uv), n);
  }

  /** `ratio * sin <= 1` with `sin^2 = 1 - cos^2` bounds `ratio^2 (1 - cos^2)` by 1. */
  lemma SnellBound(ratio: real, sin: real, cos2: real)
    requires 0.0 < ratio && 0.0 <= sin && sin * sin == 1.0 - cos2 && ratio * sin <= 1.0
    ensures ratio * ratio * (1.0 - cos2) <= 1.0
  {
    var q := ratio * sin;
    MulNonNeg(ratio, sin);
    MulAtMostOne(q, q);
    assert q * q == ratio * ratio * (sin * sin);
  }

  lemma SquareOfCosine(c: real)
    requires -1.0 <= c <= 1.0
    ensures c * c <= 1.0
  {
    if c < 0.0 {
      var a := -c;
      MulAtMostOne(a, a);
      assert a * a == c * c;
    } else {
      MulAtMostOne(c, c);
    }
  }
}
