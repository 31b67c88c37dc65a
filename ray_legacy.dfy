/** The older ray without a time field (src/ray.rs). */
module LegacyRays {
  import opened Vectors

  datatype Ray = Ray(origin: Point3, direction: Vec3) {
    /** `at(t) = origin + t * direction`. */
    function At(t: real): Point3 {
      Add(origin, Scale(t, direction))
    }
  }

  lemma AtZero(r: Ray)
    ensures r.At(0.0) == r.origin
  {
  }

  lemma AtOne(r: Ray)
    ensures r.At(1.0) == Add(r.origin, r.direction)
  {
  }

  lemma AtShift(r: Ray, t: real, s: real)
    ensures r.At(t + s) == Add(r.At(t), Scale(s, r.direction))
  {
  }

  lemma AtConstantForZeroDirection(r: Ray, t: real, s: real)
    requires r.direction == Zero
    ensures r.At(t) == r.At(s)
  {
  }
}
