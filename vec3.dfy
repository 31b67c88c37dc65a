/**
  Three-component vectors (nalgebra's `Vector3<f64>`, used as `Vec3`, `Point3`
  and `Colour`) and the tracer's extensions to them (src/util/vec3rtext.rs):
  `near_zero`, component-wise `mul`, `reflect` and `refract`.
*/
module Vectors {
  import opened RtWeekend

  datatype Vec3 = Vec3(x: real, y: real, z: real)
  type Point3 = Vec3
  type Colour = Vec3

  const Zero: Vec3 := Vec3(0.0, 0.0, 0.0)
  const Ones: Vec3 := Vec3(1.0, 1.0, 1.0)

  function Add(a: Vec3, b: Vec3): Vec3 { Vec3(a.x + b.x, a.y + b.y, a.z + b.z) }
  function Sub(a: Vec3, b: Vec3): Vec3 { Vec3(a.x - b.x, a.y - b.y, a.z - b.z) }
  function Neg(a: Vec3): Vec3 { Vec3(-a.x, -a.y, -a.z) }
  function Scale(k: real, a: Vec3): Vec3 { Vec3(k * a.x, k * a.y, k * a.z) }
  function Dot(a: Vec3, b: Vec3): real { a.x * b.x + a.y * b.y + a.z * b.z }
  function LengthSquared(a: Vec3): real { Dot(a, a) }

  /** nalgebra's `cross`. */
  function Cross(a: Vec3, b: Vec3): Vec3 {
    Vec3(a.y * b.z - a.z * b.y, a.z * b.x - a.x * b.z, a.x * b.y - a.y * b.x)
  }

  /**
    nalgebra's `normalize`: the vector divided by its norm. The norm of the
    zero vector is 0 and the source then yields NaN components; the model
    returns the zero vector itself.
  */
  function Normalize(v: Vec3, sqrt: real -> real): Vec3 {
    var n := sqrt(LengthSquared(v));
    if n == 0.0 then v else Scale(1.0 / n, v)
  }

  function Abs(r: real): real { if r < 0.0 then -r else r }

  /** `near_zero`: every component is within `EPS` of zero in absolute value. */
  predicate NearZero(v: Vec3) {
    Abs(v.x) < Eps && Abs(v.y) < Eps && Abs(v.z) < Eps
  }

  /** `mul`: the component-wise (Hadamard) product. */
  function Mul(a: Vec3, b: Vec3): Vec3 {
    Vec3(a.x * b.x, a.y * b.y, a.z * b.z)
  }

  /** `reflect(uv, norm) = uv - 2 (uv . norm) norm`. */
  function Reflect(uv: Vec3, n: Vec3): Vec3 {
    Sub(uv, Scale(2.0 * Dot(uv, n), n))
  }

  /** `cos_theta` of `refract`: `min(-uv . n, 1)`. */
  function RefractCos(uv: Vec3, n: Vec3): (c: real)
    ensures c <= 1.0 && c <= -Dot(uv, n)
    ensures c == -Dot(uv, n) || c == 1.0
  {
    var d := Dot(Neg(uv), n);
    if d < 1.0 then d else 1.0
  }

  /** `r_out_perp` of `refract`: `ratio * (uv + cos_theta * n)`. */
  function RefractPerp(uv: Vec3, n: Vec3, etaiOverEtat: real): Vec3 {
    Scale(etaiOverEtat, Add(uv, Scale(RefractCos(uv, n), n)))
  }

  /** The coefficient of `n` in `r_out_parallel`: `-sqrt(|1 - |r_out_perp|^2|)`. */
  function RefractParallelCoefficient(uv: Vec3, n: Vec3, etaiOverEtat: real, sqrt: real -> real): real {
    -sqrt(Abs(1.0 - LengthSquared(RefractPerp(uv, n, etaiOverEtat))))
  }

  /** `refract`: `r_out_perp + r_out_parallel`. */
  function Refract(uv: Vec3, n: Vec3, etaiOverEtat: real, sqrt: real -> real): Vec3 {
    Add(RefractPerp(uv, n, etaiOverEtat),
        Scale(RefractParallelCoefficient(uv, n, etaiOverEtat, sqrt), n))
  }

  // ---------------------------------------------------------------- algebra

  lemma DotScaleLeft(k: real, a: Vec3, b: Vec3)
    ensures Dot(Scale(k, a), b) == k * Dot(a, b)
  {
  }

  /** A combination of two vectors orthogonal to `w` is orthogonal to `w`. */
  lemma DotInPlane(p: real, q: real, u: Vec3, v: Vec3, w: Vec3)
    requires Dot(u, w) == 0.0 && Dot(v, w) == 0.0
    ensures Dot(Add(Scale(p, u), Scale(q, v)), w) == 0.0
  {
    var x, y := Scale(p, u), Scale(q, v);
    assert Dot(Add(x, y), w) == Dot(x, w) + Dot(y, w);
    DotScaleLeft(p, u, w);
    DotScaleLeft(q, v, w);
  }

  lemma ScaleNegated(k: real, a: Vec3)
    ensures Scale(-k, a) == Neg(Scale(k, a))
  {
  }

  lemma DotNegRight(a: Vec3, b: Vec3)
    ensures Dot(a, Neg(b)) == -Dot(a, b)
  {
  }

  lemma DotSymmetric(a: Vec3, b: Vec3)
    ensures Dot(a, b) == Dot(b, a)
  {
  }

  lemma LengthSquaredNonNegative(a: Vec3)
    ensures 0.0 <= LengthSquared(a)
    ensures LengthSquared(a) == 0.0 <==> a == Zero
  {
    SquareNonNegative(a.x);
    SquareNonNegative(a.y);
    SquareNonNegative(a.z);
    if LengthSquared(a) == 0.0 {
      NoZeroDivisors(a.x, a.x);
      NoZeroDivisors(a.y, a.y);
      NoZeroDivisors(a.z, a.z);
    }
  }

  lemma LengthSquaredScale(k: real, a: Vec3)
    ensures LengthSquared(Scale(k, a)) == k * k * LengthSquared(a)
  {
  }

  /** `|a + t b|^2` expanded: the quadratic the sphere test solves. */
  lemma LengthSquaredAlongRay(a: Vec3, t: real, b: Vec3)
    ensures LengthSquared(Add(a, Scale(t, b)))
         == LengthSquared(a) + 2.0 * t * Dot(a, b) + t * t * LengthSquared(b)
  {
  }

  /** For unit vectors `a . b >= -1`, since `|a + b|^2 >= 0`. */
  lemma UnitDotAtLeastMinusOne(a: Vec3, b: Vec3)
    requires LengthSquared(a) == 1.0 && LengthSquared(b) == 1.0
    ensures -1.0 <= Dot(a, b)
  {
    LengthSquaredNonNegative(Add(a, b));
    assert LengthSquared(Add(a, b)) == LengthSquared(a) + 2.0 * Dot(a, b) + LengthSquared(b);
  }

  /** A unit vector's components lie in `[-1, 1]`. */
  lemma UnitComponentBounds(u: Vec3)
    requires LengthSquared(u) == 1.0
    ensures -1.0 <= u.x <= 1.0 && -1.0 <= u.y <= 1.0 && -1.0 <= u.z <= 1.0
  {
    SquareNonNegative(u.x);
    SquareNonNegative(u.y);
    SquareNonNegative(u.z);
    SquareAtMostOne(u.x);
    SquareAtMostOne(u.y);
    SquareAtMostOne(u.z);
  }

  lemma SquareAtMostOne(c: real)
    requires c * c <= 1.0
    ensures -1.0 <= c <= 1.0
  {
  }

  lemma SquareNonNegative(c: real)
    ensures 0.0 <= c * c
  {
    if c < 0.0 {
      MulNonNeg(-c, -c);
    } else {
      MulNonNeg(c, c);
    }
  }

  // ---------------------------------------------------------------- normalize

  /** A non-zero vector normalizes to unit length, in its own direction. */
  lemma NormalizeUnit(v: Vec3, sqrt: real -> real)
    requires IsSqrt(sqrt) && v != Zero
    ensures LengthSquared(Normalize(v, sqrt)) == 1.0
    ensures exists k :: 0.0 < k && Normalize(v, sqrt) == Scale(k, v)
  {
    LengthSquaredNonNegative(v);
    var l := LengthSquared(v);
    var n := sqrt(l);
    SqrtFacts(sqrt, l);
    assert 0.0 < n && n * n == l;
    var k := 1.0 / n;
    LengthSquaredScale(k, v);
    assert k * k * l == (k * n) * (k * n);
    assert k * n == 1.0;
    assert Normalize(v, sqrt) == Scale(k, v);
  }

  /** Normalizing keeps a vector orthogonal to whatever it was orthogonal to. */
  lemma NormalizeKeepsOrthogonal(a: Vec3, b: Vec3, sqrt: real -> real)
    requires Dot(a, b) == 0.0
    ensures Dot(Normalize(a, sqrt), b) == 0.0
  {
    var n := sqrt(LengthSquared(a));
    if n != 0.0 {
      DotScaleLeft(1.0 / n, a, b);
    }
  }

  // ---------------------------------------------------------------- cross

  /** The cross product is orthogonal to both factors. */
  lemma CrossOrthogonal(a: Vec3, b: Vec3)
    ensures Dot(Cross(a, b), a) == 0.0
    ensures Dot(Cross(a, b), b) == 0.0
  {
  }

  /** Lagrange's identity: `|a x b|^2 = |a|^2 |b|^2 - (a . b)^2`. */
  lemma CrossLength(a: Vec3, b: Vec3)
    ensures LengthSquared(Cross(a, b))
         == LengthSquared(a) * LengthSquared(b) - Dot(a, b) * Dot(a, b)
  {
  }

  // ---------------------------------------------------------------- near_zero

  /** `near_zero` is the open box of half-width `EPS` around the origin. */
  lemma NearZeroIsBox(v: Vec3)
    ensures NearZero(v) <==> (-Eps < v.x < Eps && -Eps < v.y < Eps && -Eps < v.z < Eps)
  {
  }

  /** A near-zero vector is short: its squared length is below `3 EPS^2`. */
  lemma NearZeroIsShort(v: Vec3)
    requires NearZero(v)
    ensures LengthSquared(v) < 3.0 * Eps * Eps
  {
    SquareBelow(v.x);
    SquareBelow(v.y);
    SquareBelow(v.z);
  }

  lemma SquareBelow(c: real)
    requires Abs(c) < Eps
    ensures c * c < Eps * Eps
  {
    var a := Abs(c);
    assert c * c == a * a;
    MulNonNeg(a, a);
    assert a * a <= a * Eps;
    assert a * Eps < Eps * Eps;
  }

  // ---------------------------------------------------------------- mul

  lemma MulCommutative(a: Vec3, b: Vec3)
    ensures Mul(a, b) == Mul(b, a)
  {
  }

  lemma MulIdentity(a: Vec3)
    ensures Mul(Ones, a) == a && Mul(a, Ones) == a
  {
  }

  lemma MulZero(a: Vec3)
    ensures Mul(a, Zero) == Zero && Mul(Zero, a) == Zero
  {
  }

  /** Each component of `mul` depends only on the matching components of its factors. */
  lemma MulComponentwise(a: Vec3, b: Vec3)
    ensures Mul(a, b).x == a.x * b.x && Mul(a, b).y == a.y * b.y && Mul(a, b).z == a.z * b.z
  {
  }

  // ---------------------------------------------------------------- reflect

  /** Reflection negates the component along a unit normal. */
  lemma ReflectFlipsNormalComponent(v: Vec3, n: Vec3)
    requires LengthSquared(n) == 1.0
    ensures Dot(Reflect(v, n), n) == -Dot(v, n)
  {
    DotScaleLeft(2.0 * Dot(v, n), n, n);
  }

  /** Reflection keeps the part of `v` orthogonal to `n`: `reflect(v,n) - v` is a multiple of `n`. */
  lemma ReflectMovesAlongNormal(v: Vec3, n: Vec3)
    ensures Sub(Reflect(v, n), v) == Scale(-2.0 * Dot(v, n), n)
  {
  }

  /** About a unit normal, reflecting twice gives back the original vector. */
  lemma {:induction false} ReflectInvolution(v: Vec3, n: Vec3)
    requires LengthSquared(n) == 1.0
    ensures Reflect(Reflect(v, n), n) == v
  {
    ReflectFlipsNormalComponent(v, n);
  }

  /** About a unit normal, reflection preserves squared length. */
  lemma ReflectPreservesLength(v: Vec3, n: Vec3)
    requires LengthSquared(n) == 1.0
    ensures LengthSquared(Reflect(v, n)) == LengthSquared(v)
  {
    var k := Dot(v, n);
    var t := -2.0 * k;
    assert Reflect(v, n) == Add(v, Scale(t, n));
    LengthSquaredAlongRay(v, t, n);
    assert 2.0 * t * k == -4.0 * (k * k);
    assert t * t == 4.0 * (k * k);
    assert t * t * LengthSquared(n) == t * t;
  }

  // ---------------------------------------------------------------- refract

  /**
    The refracted vector is the perpendicular part plus a non-positive
    multiple of the normal, whatever the inputs.
  */
  lemma RefractDecomposition(uv: Vec3, n: Vec3, ratio: real, sqrt: real -> real)
    requires IsSqrt(sqrt)
    ensures RefractCos(uv, n) <= 1.0
    ensures RefractParallelCoefficient(uv, n, ratio, sqrt) <= 0.0
    ensures Sub(Refract(uv, n, ratio, sqrt), RefractPerp(uv, n, ratio))
         == Scale(RefractParallelCoefficient(uv, n, ratio, sqrt), n)
  {
    var p := LengthSquared(RefractPerp(uv, n, ratio));
    assert 0.0 <= Abs(1.0 - p);
  }

  /**
    Snell's law for unit `uv` and unit `n`: the perpendicular part has squared
    length `ratio^2 (1 - cos^2)`, it is orthogonal to `n`, and when that is at
    most 1 the refracted vector has unit length.
  */
  lemma RefractSnell(uv: Vec3, n: Vec3, ratio: real, sqrt: real -> real)
    requires IsSqrt(sqrt)
    requires LengthSquared(uv) == 1.0 && LengthSquared(n) == 1.0
    ensures RefractCos(uv, n) == -Dot(uv, n)
    ensures Dot(RefractPerp(uv, n, ratio), n) == 0.0
    ensures LengthSquared(RefractPerp(uv, n, ratio))
         == ratio * ratio * (1.0 - RefractCos(uv, n) * RefractCos(uv, n))
    ensures LengthSquared(RefractPerp(uv, n, ratio)) <= 1.0 ==>
              LengthSquared(Refract(uv, n, ratio, sqrt)) == 1.0
  {
    UnitDotAtLeastMinusOne(Neg(uv), n);
    assert Dot(Neg(uv), n) == -Dot(uv, n);
    var c := RefractCos(uv, n);
    UnitDotAtLeastMinusOne(uv, n);
    assert c == -Dot(uv, n);
    var inner := Add(uv, Scale(c, n));
    RemoveNormalComponent(uv, n, c);
    var perp := RefractPerp(uv, n, ratio);
    DotScaleLeft(ratio, inner, n);
    LengthSquaredScale(ratio, inner);
    var p := LengthSquared(perp);
    if p <= 1.0 {
      var s := sqrt(Abs(1.0 - p));
      assert s * s == 1.0 - p;
      assert RefractParallelCoefficient(uv, n, ratio, sqrt) == -s;
      assert Refract(uv, n, ratio, sqrt) == Add(perp, Scale(-s, n));
      UnitFromOrthogonalParts(perp, n, s);
    }
  }

  /** Taking away the component along a unit `n` leaves a vector orthogonal to `n`, shorter by `c^2`. */
  lemma RemoveNormalComponent(uv: Vec3, n: Vec3, c: real)
    requires LengthSquared(n) == 1.0 && c == -Dot(uv, n)
    ensures Dot(Add(uv, Scale(c, n)), n) == 0.0
    ensures LengthSquared(Add(uv, Scale(c, n))) == LengthSquared(uv) - c * c
  {
    DotScaleLeft(c, n, n);
    assert Dot(Add(uv, Scale(c, n)), n) == Dot(uv, n) + Dot(Scale(c, n), n);
    LengthSquaredAlongRay(uv, c, n);
    assert 2.0 * c * Dot(uv, n) == -2.0 * (c * c);
    assert c * c * LengthSquared(n) == c * c;
  }

  /** A vector orthogonal to a unit `n`, plus `-s n` with `s^2` its missing squared length, has unit length. */
  lemma UnitFromOrthogonalParts(perp: Vec3, n: Vec3, s: real)
    requires LengthSquared(n) == 1.0 && Dot(perp, n) == 0.0 && s * s == 1.0 - LengthSquared(perp)
    ensures LengthSquared(Add(perp, Scale(-s, n))) == 1.0
  {
    LengthSquaredAlongRay(perp, -s, n);
    assert (-s) * (-s) == s * s;
    assert (-s) * (-s) * LengthSquared(n) == s * s;
  }
}
