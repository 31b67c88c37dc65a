/**
  The three material kinds (src/material.rs) as one closed datatype, and
  Schlick's approximation to the Fresnel reflectance used by `Dielectric`.
  Shared `Arc<dyn Material>` handles are modelled as values: two spheres that
  share a material hold equal values.
*/
module Materials {
  import opened RtWeekend
  import opened Vectors

  datatype Material =
    | Lambertian(albedo: Colour)
    | Metal(albedo: Colour, fuzz: real)
    | Dielectric(ir: real)

  /** A dielectric needs a positive refraction index: the source divides by it and by `1 + ratio`. */
  predicate ValidMaterial(m: Material) {
    m.Dielectric? ==> 0.0 < m.ir
  }

  /** `f64::powi(x, n)` for a non-negative exponent. */
  function Pow(x: real, n: nat): real {
    if n == 0 then 1.0 else x * Pow(x, n - 1)
  }

  /** `Dielectric::reflectance`: `r0 + (1 - r0) (1 - cosine)^5` with `r0 = ((1 - ref_idx) / (1 + ref_idx))^2`. */
  function Reflectance(cosine: real, refIdx: real): real
    requires 0.0 < refIdx
  {
    var r0 := (1.0 - refIdx) / (1.0 + refIdx);
    var r0 := r0 * r0;
    r0 + (1.0 - r0) * Pow(1.0 - cosine, 5)
  }

  /** Powers of a number in `[0, 1]` stay in `[0, 1]`. */
  lemma {:induction false} PowUnitInterval(x: real, n: nat)
    requires 0.0 <= x <= 1.0
    ensures 0.0 <= Pow(x, n) <= 1.0
  {
    if n > 0 {
      PowUnitInterval(x, n - 1);
      MulAtMostOne(x, Pow(x, n - 1));
    }
  }

  /** At normal incidence the reflectance is exactly `r0`. */
  lemma ReflectanceAtNormalIncidence(refIdx: real)
    requires 0.0 < refIdx
    ensures Reflectance(1.0, refIdx) == ((1.0 - refIdx) / (1.0 + refIdx)) * ((1.0 - refIdx) / (1.0 + refIdx))
  {
    assert Pow(0.0, 5) == 0.0;
  }

  /** Glass of index 1.5 reflects 4% at normal incidence. */
  lemma ReflectanceOfGlass()
    ensures Reflectance(1.0, 1.5) == 0.04
  {
    ReflectanceAtNormalIncidence(1.5);
  }

  /** For a positive index and a cosine in `[0, 1]` the reflectance is a probability. */
  lemma ReflectanceIsProbability(cosine: real, refIdx: real)
    requires 0.0 < refIdx && 0.0 <= cosine <= 1.0
    ensures 0.0 <= Reflectance(cosine, refIdx) <= 1.0
  {
    var q := (1.0 - refIdx) / (1.0 + refIdx);
    assert -1.0 < q < 1.0 by {
      assert q * (1.0 + refIdx) == 1.0 - refIdx;
    }
    var r0 := q * q;
    assert 0.0 <= r0 <= 1.0 by {
      if q < 0.0 {
        MulAtMostOne(-q, -q);
      } else {
        MulAtMostOne(q, q);
      }
    }
    var x := Pow(1.0 - cosine, 5);
    PowUnitInterval(1.0 - cosine, 5);
    MulAtMostOne(1.0 - r0, x);
    assert r0 + (1.0 - r0) * x <= r0 + (1.0 - r0) * 1.0;
  }
}
