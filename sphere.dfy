/**
  Spheres, possibly moving linearly over time, and their ray intersection
  test (src/sphere.rs). The test solves `|O + tD - C|^2 = r^2` in half-b form
  and reports the smaller root that lies in the window `[t_min, t_max]`,
  else the larger one, else nothing.
*/
module Spheres {
  import opened Wrappers
  import opened RtWeekend
  import opened Vectors
  import opened Rays
  import opened Materials
  import opened HitRecords

  datatype Sphere = Sphere(centre0: Point3, displacement: Vec3, radius: real, mat: Material)

  /** The intersection test divides by the radius, so it must not be zero. */
  predicate ValidSphere(s: Sphere) {
    s.radius != 0.0 && ValidMaterial(s.mat)
  }

  /** `Sphere::new_stationary`. */
  function NewStationary(centre: Point3, radius: real, mat: Material): Sphere {
    Sphere(centre, Zero, radius, mat)
  }

  /** `Sphere::new_moving`: at time 0 the centre is `centre0`, at time 1 it is `centre1`. */
  function NewMoving(centre0: Point3, centre1: Point3, radius: real, mat: Material): Sphere {
    Sphere(centre0, Sub(centre1, centre0), radius, mat)
  }

  /** `sphere_centre(time) = centre0 + time * displacement`. */
  function SphereCentre(s: Sphere, time: real): Point3 {
    Add(s.centre0, Scale(time, s.displacement))
  }

  /** The coefficients of the half-b quadratic `a t^2 + 2 half_b t + c = 0`. */
  function Oc(s: Sphere, r: Ray): Vec3 { Sub(r.origin, SphereCentre(s, r.time)) }
  function QuadA(r: Ray): real { LengthSquared(r.direction) }
  function HalfB(s: Sphere, r: Ray): real { Dot(Oc(s, r), r.direction) }
  function QuadC(s: Sphere, r: Ray): real { LengthSquared(Oc(s, r)) - s.radius * s.radius }
  function Discriminant(s: Sphere, r: Ray): real { HalfB(s, r) * HalfB(s, r) - QuadA(r) * QuadC(s, r) }

  /** `a t^2 + 2 hb t + c`. */
  function Quadratic(a: real, hb: real, c: real, t: real): real {
    a * t * t + 2.0 * hb * t + c
  }

  /** The two candidate roots, smaller first. */
  function NearRoot(s: Sphere, r: Ray, sqrt: real -> real): real
    requires QuadA(r) != 0.0
  {
    (-HalfB(s, r) - sqrt(Discriminant(s, r))) / QuadA(r)
  }

  function FarRoot(s: Sphere, r: Ray, sqrt: real -> real): real
    requires QuadA(r) != 0.0
  {
    (-HalfB(s, r) + sqrt(Discriminant(s, r))) / QuadA(r)
  }

  /** `outward_normal = (p - centre) / radius`: outward for a positive radius, inward for a negative one. */
  function OutwardNormal(s: Sphere, r: Ray, t: real): Vec3
    requires s.radius != 0.0
  {
    Scale(1.0 / s.radius, Sub(r.At(t), SphereCentre(s, r.time)))
  }

  /** The point of the ray at `t` lies on the sphere's surface at the ray's time. */
  predicate OnSphere(s: Sphere, r: Ray, t: real) {
    LengthSquared(Sub(r.At(t), SphereCentre(s, r.time))) == s.radius * s.radius
  }

  /**
    `Hittable::hit` for a sphere. A ray with a zero direction makes `a` zero;
    the source then divides by zero, and the model reports no hit.
  */
  function Hit(s: Sphere, r: Ray, tMin: real, tMax: Bound, sqrt: real -> real): Option<HitRecord>
    requires s.radius != 0.0
  {
    if Discriminant(s, r) < 0.0 || QuadA(r) == 0.0 then None
    else
      var root := if InWindow(NearRoot(s, r, sqrt), tMin, tMax) then NearRoot(s, r, sqrt) else FarRoot(s, r, sqrt);
      if !InWindow(root, tMin, tMax) then None
      else Some(NewRecord(r.At(root), root, r, OutwardNormal(s, r, root), s.mat))
  }

  // ---------------------------------------------------------------- constructors

  lemma StationaryCentreIsFixed(centre: Point3, radius: real, mat: Material, time: real)
    ensures SphereCentre(NewStationary(centre, radius, mat), time) == centre
  {
  }

  lemma MovingCentreEndpoints(centre0: Point3, centre1: Point3, radius: real, mat: Material)
    ensures SphereCentre(NewMoving(centre0, centre1, radius, mat), 0.0) == centre0
    ensures SphereCentre(NewMoving(centre0, centre1, radius, mat), 1.0) == centre1
  {
  }

  // ---------------------------------------------------------------- the quadratic

  /** The squared distance from the centre along the ray is the half-b quadratic. */
  lemma DistanceAlongRay(s: Sphere, r: Ray, t: real)
    ensures Sub(r.At(t), SphereCentre(s, r.time)) == Add(Oc(s, r), Scale(t, r.direction))
    ensures OnSphere(s, r, t) <==> Quadratic(QuadA(r), HalfB(s, r), QuadC(s, r), t) == 0.0
  {
    RelativePosition(s, r, t);
    ShiftedLengthQuadratic(Oc(s, r), r.direction, t, s.radius * s.radius, QuadC(s, r));
  }

  lemma RelativePosition(s: Sphere, r: Ray, t: real)
    ensures Sub(r.At(t), SphereCentre(s, r.time)) == Add(Oc(s, r), Scale(t, r.direction))
  {
  }

  /** `|a + t b|^2 == rr` written as the quadratic in `t`, whose constant term is `c = |a|^2 - rr`. */
  lemma ShiftedLengthQuadratic(a: Vec3, b: Vec3, t: real, rr: real, c: real)
    requires c == LengthSquared(a) - rr
    ensures LengthSquared(Add(a, Scale(t, b))) == rr <==> Quadratic(LengthSquared(b), Dot(a, b), c, t) == 0.0
  {
    LengthSquaredAlongRay(a, t, b);
  }

  /** With `a > 0` and `sq^2` the discriminant, the quadratic factors through its two roots. */
  lemma QuadraticFactors(a: real, hb: real, c: real, sq: real, t: real)
    requires 0.0 < a && sq * sq == hb * hb - a * c
    ensures Quadratic(a, hb, c, t) == a * ((t - (-hb - sq) / a) * (t - (-hb + sq) / a))
  {
    var n := (-hb - sq) / a;
    var f := (-hb + sq) / a;
    assert a * n == -hb - sq;
    assert a * f == -hb + sq;
    assert a * ((a * n) * f) == (-hb - sq) * (a * f);
    assert (-hb - sq) * (-hb + sq) == hb * hb - sq * sq;
    assert (a * n) * f == c;
    assert a * ((t - n) * (t - f)) == a * t * t - t * (a * n) - t * (a * f) + (a * n) * f;
  }

  /** With a negative discriminant and `a > 0`, the quadratic has no real root. */
  lemma NoRootBelowZeroDiscriminant(a: real, hb: real, c: real, t: real)
    requires 0.0 < a && hb * hb - a * c < 0.0
    ensures Quadratic(a, hb, c, t) != 0.0
  {
    var q := a * t + hb;
    assert a * (a * t * t + 2.0 * hb * t + c) == q * q - (hb * hb - a * c);
    SquareNonNegative(q);
  }

  /** With `a > 0` and `sq >= 0` the square root of the discriminant, the roots of the quadratic are exactly the two candidates, smaller first. */
  lemma QuadraticRoots(a: real, hb: real, c: real, sq: real, t: real)
    requires 0.0 < a && 0.0 <= sq && sq * sq == hb * hb - a * c
    ensures (-hb - sq) / a <= (-hb + sq) / a
    ensures Quadratic(a, hb, c, t) == 0.0 <==> (t == (-hb - sq) / a || t == (-hb + sq) / a)
  {
    DivideMonotone(-hb - sq, -hb + sq, a);
    QuadraticFactors(a, hb, c, sq, t);
    var dn, df := t - (-hb - sq) / a, t - (-hb + sq) / a;
    if Quadratic(a, hb, c, t) == 0.0 {
      NoZeroDivisors(a, dn * df);
      NoZeroDivisors(dn, df);
    } else if dn == 0.0 || df == 0.0 {
      assert false;
    }
  }

  /** For a ray with non-zero direction, the points on the sphere are exactly the two roots. */
  lemma OnSphereIffRoot(s: Sphere, r: Ray, sqrt: real -> real, t: real)
    requires IsSqrt(sqrt) && 0.0 < QuadA(r) && 0.0 <= Discriminant(s, r)
    ensures NearRoot(s, r, sqrt) <= FarRoot(s, r, sqrt)
    ensures OnSphere(s, r, t) <==> (t == NearRoot(s, r, sqrt) || t == FarRoot(s, r, sqrt))
  {
    var sq := sqrt(Discriminant(s, r));
    assert 0.0 <= sq && sq * sq == Discriminant(s, r);
    DistanceAlongRay(s, r, t);
    QuadraticRoots(QuadA(r), HalfB(s, r), QuadC(s, r), sq, t);
  }

  lemma DivideMonotone(x: real, y: real, a: real)
    requires x <= y && 0.0 < a
    ensures x / a <= y / a
  {
    assert (x / a) * a == x && (y / a) * a == y;
  }

  // ---------------------------------------------------------------- hit

  lemma HitMissesOnNegativeDiscriminant(s: Sphere, r: Ray, tMin: real, tMax: Bound, sqrt: real -> real)
    requires s.radius != 0.0 && Discriminant(s, r) < 0.0
    ensures Hit(s, r, tMin, tMax, sqrt) == None
  {
  }

  /**
    A reported hit lies in the window (both ends included), on the ray at its
    `t`, carries this sphere's material, and its normal is the outward normal
    oriented against the ray.
  */
  lemma HitRecordContents(s: Sphere, r: Ray, tMin: real, tMax: Bound, sqrt: real -> real)
    requires s.radius != 0.0 && Hit(s, r, tMin, tMax, sqrt).Some?
    ensures var h := Hit(s, r, tMin, tMax, sqrt).value;
      && InWindow(h.t, tMin, tMax)
      && h.p == r.At(h.t)
      && h.mat == s.mat
      && h == NewRecord(r.At(h.t), h.t, r, OutwardNormal(s, r, h.t), s.mat)
      && (h.frontFace <==> Dot(r.direction, OutwardNormal(s, r, h.t)) < 0.0)
      && Dot(r.direction, h.normal) <= 0.0
  {
  }

  /**
    The smaller root wins whenever it is in the window; the larger one is
    reported only otherwise; with neither in the window there is no hit.
  */
  lemma HitPrefersNearRoot(s: Sphere, r: Ray, tMin: real, tMax: Bound, sqrt: real -> real)
    requires s.radius != 0.0 && 0.0 < QuadA(r) && 0.0 <= Discriminant(s, r)
    ensures InWindow(NearRoot(s, r, sqrt), tMin, tMax) ==>
              Hit(s, r, tMin, tMax, sqrt).Some? && Hit(s, r, tMin, tMax, sqrt).value.t == NearRoot(s, r, sqrt)
    ensures !InWindow(NearRoot(s, r, sqrt), tMin, tMax) && InWindow(FarRoot(s, r, sqrt), tMin, tMax) ==>
              Hit(s, r, tMin, tMax, sqrt).Some? && Hit(s, r, tMin, tMax, sqrt).value.t == FarRoot(s, r, sqrt)
    ensures !InWindow(NearRoot(s, r, sqrt), tMin, tMax) && !InWindow(FarRoot(s, r, sqrt), tMin, tMax) ==>
              Hit(s, r, tMin, tMax, sqrt) == None
  {
  }

  /** When the smaller root is in the window, the record is built at that root. */
  lemma HitAtNearRoot(s: Sphere, r: Ray, tMin: real, tMax: Bound, sqrt: real -> real)
    requires s.radius != 0.0 && 0.0 < QuadA(r) && 0.0 <= Discriminant(s, r)
    requires InWindow(NearRoot(s, r, sqrt), tMin, tMax)
    ensures var t := NearRoot(s, r, sqrt);
      Hit(s, r, tMin, tMax, sqrt) == Some(NewRecord(r.At(t), t, r, OutwardNormal(s, r, t), s.mat))
  {
  }

  /**
    For a ray with a non-zero direction, the sphere test finds the nearest
    point of the surface inside the window: a reported `t` is on the sphere
    and no smaller `t` in the window is, and no hit means no `t` in the window
    is on the sphere.
  */
  lemma HitIsNearestSurfacePoint(s: Sphere, r: Ray, tMin: real, tMax: Bound, sqrt: real -> real)
    requires IsSqrt(sqrt) && s.radius != 0.0 && 0.0 < QuadA(r)
    ensures Hit(s, r, tMin, tMax, sqrt).Some? ==>
      var t := Hit(s, r, tMin, tMax, sqrt).value.t;
      && OnSphere(s, r, t)
      && forall t' :: InWindow(t', tMin, tMax) && OnSphere(s, r, t') ==> t <= t'
    ensures Hit(s, r, tMin, tMax, sqrt) == None ==>
      forall t' :: InWindow(t', tMin, tMax) ==> !OnSphere(s, r, t')
  {
    if Discriminant(s, r) < 0.0 {
      forall t' | InWindow(t', tMin, tMax) ensures !OnSphere(s, r, t') {
        DistanceAlongRay(s, r, t');
        NoRootBelowZeroDiscriminant(QuadA(r), HalfB(s, r), QuadC(s, r), t');
      }
    } else {
      var n, f := NearRoot(s, r, sqrt), FarRoot(s, r, sqrt);
      OnSphereIffRoot(s, r, sqrt, n);
      OnSphereIffRoot(s, r, sqrt, f);
      HitPrefersNearRoot(s, r, tMin, tMax, sqrt);
      forall t' | InWindow(t', tMin, tMax) && OnSphere(s, r, t')
        ensures t' == n || t' == f
      {
        OnSphereIffRoot(s, r, sqrt, t');
      }
    }
  }

  /**
    Narrowing the window to `[t_min, c]` with `c` inside it keeps the hit if
    its `t` is at most `c` and loses it otherwise. This is what lets the
    scene loop shrink its window as it goes.
  */
  lemma HitNarrowed(s: Sphere, r: Ray, tMin: real, tMax: Bound, c: real, sqrt: real -> real)
    requires IsSqrt(sqrt) && s.radius != 0.0 && !Above(c, tMax)
    ensures Hit(s, r, tMin, Finite(c), sqrt)
         == (var full := Hit(s, r, tMin, tMax, sqrt);
             if full.Some? && full.value.t <= c then full else None)
  {
    if 0.0 <= Discriminant(s, r) && QuadA(r) != 0.0 {
      LengthSquaredNonNegative(r.direction);
      OnSphereIffRoot(s, r, sqrt, 0.0);
    }
  }

  lemma ReciprocalNegated(x: real)
    requires x != 0.0
    ensures 1.0 / -x == -(1.0 / x)
  {
  }

  /**
    Negating the radius leaves the quadratic, hence `t`, `p` and the material,
    unchanged, and negates the outward normal; so `front_face` flips for every
    hit that is not tangent.
  */
  lemma NegatedRadius(s: Sphere, r: Ray, tMin: real, tMax: Bound, sqrt: real -> real)
    requires s.radius != 0.0
    ensures var neg := s.(radius := -s.radius);
      && (Hit(neg, r, tMin, tMax, sqrt).Some? <==> Hit(s, r, tMin, tMax, sqrt).Some?)
      && (Hit(s, r, tMin, tMax, sqrt).Some? ==>
            var h, hn := Hit(s, r, tMin, tMax, sqrt).value, Hit(neg, r, tMin, tMax, sqrt).value;
            && hn.t == h.t && hn.p == h.p && hn.mat == h.mat
            && OutwardNormal(neg, r, h.t) == Neg(OutwardNormal(s, r, h.t))
            && (Dot(r.direction, OutwardNormal(s, r, h.t)) != 0.0 ==> hn.frontFace == !h.frontFace))
  {
    var neg := s.(radius := -s.radius);
    assert (-s.radius) * (-s.radius) == s.radius * s.radius;
    assert Discriminant(neg, r) == Discriminant(s, r);
    if Hit(s, r, tMin, tMax, sqrt).Some? {
      var t := Hit(s, r, tMin, tMax, sqrt).value.t;
      var k := 1.0 / s.radius;
      ReciprocalNegated(s.radius);
      assert SphereCentre(neg, r.time) == SphereCentre(s, r.time);
      ScaleNegated(k, Sub(r.At(t), SphereCentre(s, r.time)));
      DotNegRight(r.direction, OutwardNormal(s, r, t));
    }
  }
}

/** A worked example of the sphere test. */
module SphereExamples {
  import opened Wrappers
  import opened RtWeekend
  import opened Vectors
  import opened Rays
  import opened Spheres

  lemma SideRayDiscriminant(s: Sphere, r: Ray)
    requires s.centre0 == Vec3(0.0, 0.0, -1.0) && s.displacement == Zero && s.radius == 0.5
    requires r.origin == Zero && r.direction == Vec3(1.0, 0.0, 0.0) && r.time == 0.0
    ensures Discriminant(s, r) == -0.75
  {
    assert Oc(s, r) == Vec3(0.0, 0.0, 1.0);
    assert QuadA(r) == 1.0 && HalfB(s, r) == 0.0 && QuadC(s, r) == 0.75;
  }

  /** A ray along `+x` misses the sphere of radius 0.5 at `(0,0,-1)`: the discriminant is negative. */
  lemma MissExample(s: Sphere, r: Ray, sqrt: real -> real)
    requires s.centre0 == Vec3(0.0, 0.0, -1.0) && s.displacement == Zero && s.radius == 0.5
    requires r.origin == Zero && r.direction == Vec3(1.0, 0.0, 0.0) && r.time == 0.0
    ensures Hit(s, r, 0.0, Unbounded, sqrt) == None
  {
    SideRayDiscriminant(s, r);
  }
}
