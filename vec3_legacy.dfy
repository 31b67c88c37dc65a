/**
  The older snapshot of the vector extensions (src/vec3rtext.rs). `reflect`
  and `mul` compute the same expressions as the current ones and are defined
  through them; `near_zero` differs: it compares the raw components, without
  taking absolute values.
*/
module LegacyVectors {
  import opened RtWeekend
  import opened Vectors

  /** The older `near_zero`: every component is below `EPS` (no `abs`). */
  predicate NearZeroRaw(v: Vec3) {
    v.x < Eps && v.y < Eps && v.z < Eps
  }

  /** The older `reflect(&self, norm)`: the same expression as the current `reflect`. */
  function ReflectSelf(v: Vec3, n: Vec3): Vec3 {
    Reflect(v, n)
  }

  /** The older `mul(&self, x)`: the same component-wise product as the current `mul`. */
  function MulSelf(a: Vec3, b: Vec3): Vec3 {
    Mul(a, b)
  }

  /** Every vector the current test calls near zero the older test does too. */
  lemma NearZeroRawWeaker(v: Vec3)
    ensures NearZero(v) ==> NearZeroRaw(v)
  {
  }

  /**
    The older test accepts vectors that are far from zero: any vector whose
    components are all below `EPS`, e.g. `(-1, -1, -1)`, of squared length 3.
  */
  lemma NearZeroRawAcceptsLargeNegative()
    ensures NearZeroRaw(Vec3(-1.0, -1.0, -1.0))
    ensures !NearZero(Vec3(-1.0, -1.0, -1.0))
    ensures LengthSquared(Vec3(-1.0, -1.0, -1.0)) == 3.0
  {
  }

  /** The older `reflect` subtracts twice the projection of `self` on `norm`. */
  lemma ReflectSelfFormula(v: Vec3, n: Vec3)
    ensures Sub(v, ReflectSelf(v, n)) == Scale(2.0 * Dot(v, n), n)
  {
  }

  /**
    The older `reflect` is the current one, so it too is an involution and
    keeps length about a unit normal.
  */
  lemma ReflectSelfAgrees(v: Vec3, n: Vec3)
    ensures ReflectSelf(v, n) == Reflect(v, n)
    ensures LengthSquared(n) == 1.0 ==>
      ReflectSelf(ReflectSelf(v, n), n) == v && LengthSquared(ReflectSelf(v, n)) == LengthSquared(v)
  {
    if LengthSquared(n) == 1.0 {
      ReflectInvolution(v, n);
      ReflectPreservesLength(v, n);
    }
  }

  lemma MulSelfCommutative(a: Vec3, b: Vec3)
    ensures MulSelf(a, b) == MulSelf(b, a)
  {
  }

  lemma MulSelfByZero(a: Vec3)
    ensures MulSelf(a, Zero) == Zero
  {
  }
}
