/**
  Constants and the scalar helpers shared by the whole tracer (src/rtweekend.rs).
  `f64` is modelled as `real`; the transcendental functions the tracer needs
  (square root and tangent) are parameters of the operations that call them,
  and `IsSqrt` states everything the model assumes of the square root.
*/
module RtWeekend {

  /** `PI`, with the literal the source writes. */
  const Pi: real := 3.1415926535897932385

  /** `f64::MAX`, the value of `INFTY`: a finite number. */
  const F64Max: real := 179769313486231570814527423731704356798070567525844996598917476803157260780028538760589558632766878171540458953514382464234321326889464182768467546703537516986049910576551282076245490090389328944075868508455133942304583236903222948165808559332123348274797826204144723168738177180919299881250404026184124858368.0

  /** The "near zero" threshold used by `near_zero`. */
  const Eps: real := 0.00000001

  /** The upper end of a hit window: `f64::INFINITY` is `Unbounded`, `INFTY` is `Finite(F64Max)`. */
  datatype Bound = Finite(value: real) | Unbounded

  /** `INFTY`. */
  const Infty: Bound := Finite(F64Max)

  /** `bound < x`, the rejection test `t_max < root`. */
  predicate Above(x: real, bound: Bound) {
    bound.Finite? && bound.value < x
  }

  /** A root is accepted when neither `root < t_min` nor `t_max < root`. */
  predicate InWindow(t: real, tMin: real, tMax: Bound) {
    tMin <= t && !Above(t, tMax)
  }

  /** `deg_to_rad`: `deg * PI / 180`. */
  function DegToRad(deg: real): real {
    deg * Pi / 180.0
  }

  /** What the model assumes of the square-root parameter on non-negative arguments. */
  ghost predicate IsSqrt(sqrt: real -> real) {
    forall x :: 0.0 <= x ==> 0.0 <= sqrt(x) && sqrt(x) * sqrt(x) == x
  }

  /** The square root is monotone on non-negative arguments. */
  lemma SqrtMonotone(sqrt: real -> real, x: real, y: real)
    requires IsSqrt(sqrt) && 0.0 <= x <= y
    ensures sqrt(x) <= sqrt(y)
  {
    var a, b := sqrt(x), sqrt(y);
    assert 0.0 <= a && a * a == x && 0.0 <= b && b * b == y;
    if b < a {
      var d, e := a - b, a + b;
      MulPositive(d, e);
      DifferenceOfSquares(a, b);
      assert false;
    }
  }

  lemma DifferenceOfSquares(a: real, b: real)
    ensures (a - b) * (a + b) == a * a - b * b
  {
  }

  lemma MulPositive(a: real, b: real)
    requires 0.0 < a && 0.0 < b
    ensures 0.0 < a * b
  {
  }

  lemma DegToRadZero()
    ensures DegToRad(0.0) == 0.0
  {
  }

  lemma DegToRadHalfTurn()
    ensures DegToRad(180.0) == Pi
  {
  }

  lemma DegToRadAdditive(a: real, b: real)
    ensures DegToRad(a + b) == DegToRad(a) + DegToRad(b)
  {
  }

  lemma DegToRadStrictlyIncreasing(a: real, b: real)
    requires a < b
    ensures DegToRad(a) < DegToRad(b)
  {
  }

  /** `INFTY` is a finite bound: every root above `f64::MAX` is rejected. */
  lemma InftyIsFinite(t: real)
    ensures Infty.Finite?
    ensures InWindow(t, 0.0, Infty) <==> 0.0 <= t <= F64Max
  {
  }

  /** Under `IsSqrt`, the square root of a positive number is positive, and `sqrt(1) == 1`. */
  lemma SqrtFacts(sqrt: real -> real, x: real)
    requires IsSqrt(sqrt)
    ensures 0.0 < x ==> 0.0 < sqrt(x)
    ensures sqrt(0.0) == 0.0
    ensures sqrt(1.0) == 1.0
  {
    var one := sqrt(1.0);
    assert 0.0 <= one && one * one == 1.0;
    assert (one - 1.0) * (one + 1.0) == one * one - 1.0;
    NoZeroDivisors(one - 1.0, one + 1.0);
    var z := sqrt(0.0);
    assert z * z == 0.0;
    NoZeroDivisors(z, z);
  }

  /** An argument of at least 1 has a square root of at least 1. */
  lemma SqrtAtLeastOne(sqrt: real -> real, x: real)
    requires IsSqrt(sqrt) && 1.0 <= x
    ensures 1.0 <= sqrt(x)
  {
    SqrtFacts(sqrt, x);
    SqrtMonotone(sqrt, 1.0, x);
  }

  lemma NoZeroDivisors(a: real, b: real)
    requires a * b == 0.0
    ensures a == 0.0 || b == 0.0
  {
  }

  lemma MulNonNeg(a: real, b: real)
    requires 0.0 <= a && 0.0 <= b
    ensures 0.0 <= a * b
  {
  }

  lemma MulAtMostOne(a: real, b: real)
    requires 0.0 <= a <= 1.0 && 0.0 <= b <= 1.0
    ensures 0.0 <= a * b <= 1.0
  {
    MulNonNeg(a, b);
    assert a * b <= 1.0 * b;
  }
}
