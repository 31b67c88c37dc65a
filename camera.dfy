/**
  The thin-lens camera (src/camera.rs). `tan` and the disk sample drawn by
  `rand_in_unit_disk` are inputs; camera rays are emitted at time 0.
*/
module Cameras {
  import opened RtWeekend
  import opened Vectors
  import opened Rays

  datatype Camera = Camera(
    origin: Point3,
    lowerLeftCorner: Point3,
    horizontal: Vec3,
    vertical: Vec3,
    lensRadius: real,
    u: Vec3,
    v: Vec3,
    w: Vec3)

  /** `2 tan(theta / 2)` for the vertical field of view `vfov` in degrees. */
  function ViewportHeight(vfov: real, tan: real -> real): real {
    2.0 * tan(DegToRad(vfov) / 2.0)
  }

  /** `Camera::new`. */
  function NewCamera(lookfrom: Point3, lookat: Point3, vup: Vec3, vfov: real, aspectRatio: real,
                     aperture: real, focusDist: real, sqrt: real -> real, tan: real -> real): Camera
  {
    var viewportHeight := ViewportHeight(vfov, tan);
    var viewportWidth := aspectRatio * viewportHeight;
    var w := Normalize(Sub(lookfrom, lookat), sqrt);
    var u := Normalize(Cross(vup, w), sqrt);
    var v := Cross(w, u);
    var origin := lookfrom;
    var horizontal := Scale(focusDist * viewportWidth, u);
    var vertical := Scale(focusDist * viewportHeight, v);
    var lowerLeftCorner := Sub(Sub(Sub(origin, Scale(0.5, horizontal)), Scale(0.5, vertical)), Scale(focusDist, w));
    var lensRadius := aperture / 2.0;
    Camera(origin, lowerLeftCorner, horizontal, vertical, lensRadius, u, v, w)
  }

  /** The lens offset for a sample of the unit disk: `u * rd.x + v * rd.y` with `rd = lens_radius * sample`. */
  function LensOffset(cam: Camera, diskSample: Vec3): Vec3 {
    var rd := Scale(cam.lensRadius, diskSample);
    Add(Scale(rd.x, cam.u), Scale(rd.y, cam.v))
  }

  /** `Camera::get_ray`: from a point of the lens towards the viewport point `(s, t)`. */
  function GetRay(cam: Camera, s: real, t: real, diskSample: Vec3): Ray {
    var offset := LensOffset(cam, diskSample);
    Ray(Add(cam.origin, offset),
        Sub(Sub(Add(Add(cam.lowerLeftCorner, Scale(s, cam.horizontal)), Scale(t, cam.vertical)), cam.origin), offset),
        0.0)
  }

  /** The point of the viewport (on the focal plane) that `(s, t)` names. */
  function FocalPoint(cam: Camera, s: real, t: real): Point3 {
    Add(Add(cam.lowerLeftCorner, Scale(s, cam.horizontal)), Scale(t, cam.vertical))
  }

  // ---------------------------------------------------------------- construction

  /**
    The lens radius is half the aperture, and the viewport spans
    `focus_dist * aspect * height` along `u` and `focus_dist * height` along
    `v`, with `height = 2 tan(vfov / 2)`.
  */
  lemma CameraDimensions(lookfrom: Point3, lookat: Point3, vup: Vec3, vfov: real, aspectRatio: real,
                         aperture: real, focusDist: real, sqrt: real -> real, tan: real -> real)
    ensures var cam := NewCamera(lookfrom, lookat, vup, vfov, aspectRatio, aperture, focusDist, sqrt, tan);
      && cam.origin == lookfrom
      && cam.lensRadius * 2.0 == aperture
      && cam.horizontal == Scale(focusDist * aspectRatio * ViewportHeight(vfov, tan), cam.u)
      && cam.vertical == Scale(focusDist * ViewportHeight(vfov, tan), cam.v)
  {
    var cam := NewCamera(lookfrom, lookat, vup, vfov, aspectRatio, aperture, focusDist, sqrt, tan);
    assert focusDist * (aspectRatio * ViewportHeight(vfov, tan)) == focusDist * aspectRatio * ViewportHeight(vfov, tan);
  }

  /** The viewport is centred on the point `focus_dist` in front of the camera, along `-w`. */
  lemma ViewportCentre(lookfrom: Point3, lookat: Point3, vup: Vec3, vfov: real, aspectRatio: real,
                       aperture: real, focusDist: real, sqrt: real -> real, tan: real -> real)
    ensures var cam := NewCamera(lookfrom, lookat, vup, vfov, aspectRatio, aperture, focusDist, sqrt, tan);
      FocalPoint(cam, 0.5, 0.5) == Sub(lookfrom, Scale(focusDist, cam.w))
  {
  }

  /**
    For distinct `lookfrom` and `lookat`, and `vup` not parallel to the view
    direction, `(u, v, w)` is an orthonormal basis.
  */
  lemma OrthonormalBasis(lookfrom: Point3, lookat: Point3, vup: Vec3, vfov: real, aspectRatio: real,
                         aperture: real, focusDist: real, sqrt: real -> real, tan: real -> real)
    requires IsSqrt(sqrt) && lookfrom != lookat
    requires Cross(vup, Normalize(Sub(lookfrom, lookat), sqrt)) != Zero
    ensures var cam := NewCamera(lookfrom, lookat, vup, vfov, aspectRatio, aperture, focusDist, sqrt, tan);
      && LengthSquared(cam.u) == 1.0 && LengthSquared(cam.v) == 1.0 && LengthSquared(cam.w) == 1.0
      && Dot(cam.u, cam.v) == 0.0 && Dot(cam.v, cam.w) == 0.0 && Dot(cam.w, cam.u) == 0.0
  {
    var w := Normalize(Sub(lookfrom, lookat), sqrt);
    var c := Cross(vup, w);
    var u := Normalize(c, sqrt);
    var v := Cross(w, u);
    assert Sub(lookfrom, lookat) != Zero;
    NormalizeUnit(Sub(lookfrom, lookat), sqrt);
    NormalizeUnit(c, sqrt);
    CrossOrthogonal(vup, w);
    NormalizeKeepsOrthogonal(c, w, sqrt);
    DotSymmetric(u, w);
    CrossOrthogonal(w, u);
    CrossLength(w, u);
    DotSymmetric(u, v);
    DotSymmetric(v, w);
  }

  // ---------------------------------------------------------------- rays

  /** With zero aperture every ray starts exactly at the camera origin: a pinhole camera. */
  lemma PinholeCamera(cam: Camera, s: real, t: real, diskSample: Vec3)
    requires cam.lensRadius == 0.0
    ensures GetRay(cam, s, t, diskSample).origin == cam.origin
    ensures GetRay(cam, s, t, diskSample).direction == Sub(FocalPoint(cam, s, t), cam.origin)
  {
    var rd := Scale(cam.lensRadius, diskSample);
    assert rd == Zero;
    assert LensOffset(cam, diskSample) == Zero;
  }

  /** Whatever the lens sample, the ray passes through the same focal point at `t = 1`. */
  lemma FocalPointIndependentOfLens(cam: Camera, s: real, t: real, diskSample: Vec3)
    ensures GetRay(cam, s, t, diskSample).At(1.0) == FocalPoint(cam, s, t)
    ensures Add(GetRay(cam, s, t, diskSample).origin, GetRay(cam, s, t, diskSample).direction) == FocalPoint(cam, s, t)
  {
  }

  /**
    The ray starts at the camera origin moved by the lens offset, which lies
    in the `(u, v)` plane: orthogonal to `w` whenever the basis is.
  */
  lemma LensOffsetInPlane(cam: Camera, s: real, t: real, diskSample: Vec3)
    ensures GetRay(cam, s, t, diskSample).origin == Add(cam.origin, LensOffset(cam, diskSample))
    ensures LensOffset(cam, diskSample)
         == Add(Scale(cam.lensRadius * diskSample.x, cam.u), Scale(cam.lensRadius * diskSample.y, cam.v))
    ensures Dot(cam.u, cam.w) == 0.0 && Dot(cam.v, cam.w) == 0.0 ==> Dot(LensOffset(cam, diskSample), cam.w) == 0.0
  {
    var rd := Scale(cam.lensRadius, diskSample);
    assert rd.x == cam.lensRadius * diskSample.x && rd.y == cam.lensRadius * diskSample.y;
    if Dot(cam.u, cam.w) == 0.0 && Dot(cam.v, cam.w) == 0.0 {
      DotInPlane(rd.x, rd.y, cam.u, cam.v, cam.w);
    }
  }

  /** Through the lens centre, the middle of the viewport is straight ahead: direction `-focus_dist * w`. */
  lemma CentreRay(lookfrom: Point3, lookat: Point3, vup: Vec3, vfov: real, aspectRatio: real,
                  aperture: real, focusDist: real, sqrt: real -> real, tan: real -> real)
    ensures var cam := NewCamera(lookfrom, lookat, vup, vfov, aspectRatio, aperture, focusDist, sqrt, tan);
      && GetRay(cam, 0.5, 0.5, Zero).origin == lookfrom
      && GetRay(cam, 0.5, 0.5, Zero).direction == Scale(-focusDist, cam.w)
  {
    ViewportCentre(lookfrom, lookat, vup, vfov, aspectRatio, aperture, focusDist, sqrt, tan);
  }
}
