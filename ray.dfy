/** A ray with an origin, a direction and the instant it is cast at (src/renderer/ray.rs). */
module Rays {
  import opened Vectors

  datatype Ray = Ray(origin: Point3, direction: Vec3, time: real) {
    /** `at(t) = origin + t * direction`. */
    function At(t: real): Point3 {
      Add(origin, Scale(t, direction))
    }
  }

  lemma AtZero(r: Ray)
    ensures r.At(0.0) == r.origin
  {
  }

  /** Moving along the ray is additive in the parameter. */
  lemma AtShift(r: Ray, t: real, s: real)
    ensures r.At(t + s) == Add(r.At(t), Scale(s, r.direction))
  {
  }

  /** The point reached does not depend on the ray's time. */
  lemma AtIgnoresTime(r: Ray, time: real, t: real)
    ensures r.(time := time).At(t) == r.At(t)
  {
  }

  /** A ray with zero direction stays at its origin. */
  lemma AtZeroDirection(r: Ray, t: real)
    requires r.direction == Zero
    ensures r.At(t) == r.origin
  {
  }
}
