/** Tolerance comparisons on reals (standing in for `double`), all relative to
    the fixed threshold EPSILON = 1e-5. */
module Tolerance {

  /** The comparison threshold (`1E-5` in the source). */
  const Epsilon: real := 0.00001

  function Abs(x: real): (r: real)
    ensures 0.0 <= r
    ensures r == x || r == -x
  {
    if x < 0.0 then -x else x
  }

  /** `std::max` of two values: the first unless it is less than the second. */
  function Max2(x: real, y: real): (r: real) {
    if x < y then y else x
  }

  /** `std::min` of two values: the first unless the second is less. */
  function Min2(x: real, y: real): (r: real) {
    if y < x then y else x
  }

  /** The largest of three numbers. */
  function Maximum(x: real, y: real, z: real): (r: real)
    ensures x <= r && y <= r && z <= r
    ensures r == x || r == y || r == z
  {
    Max2(Max2(x, y), z)
  }

  /** Relative-or-absolute tolerant equality: |x - y| <= EPSILON * max(1, |x|, |y|).
      Equivalently, the gap is within EPSILON absolutely or within EPSILON
      relative to either operand. */
  function AlmostEqual(x: real, y: real): (r: bool)
    ensures r <==> (Abs(x - y) <= Epsilon
                    || Abs(x - y) <= Epsilon * Abs(x)
                    || Abs(x - y) <= Epsilon * Abs(y))
    ensures x == y ==> r
  {
    Abs(x - y) <= Epsilon * Maximum(1.0, Abs(x), Abs(y))
  }

  lemma AlmostEqualSymmetric(x: real, y: real)
    ensures AlmostEqual(x, y) == AlmostEqual(y, x)
  {
    assert Abs(x - y) == Abs(y - x);
  }

  /** Against zero the relative part never helps: a value is almost zero
      exactly when its magnitude is at most EPSILON. */
  lemma AlmostEqualZero(x: real)
    ensures AlmostEqual(x, 0.0) <==> Abs(x) <= Epsilon
  {
  }

  /** Tolerant equality is not transitive. */
  lemma AlmostEqualNotTransitive()
    ensures AlmostEqual(0.0, 0.00001) && AlmostEqual(0.00001, 0.00002)
    ensures !AlmostEqual(0.0, 0.00002)
  {
  }

  /** x > y, or x and y almost equal. It is implied by x >= y, it fails
      only when x lies more than EPSILON below y, and in general it holds
      exactly when x is below y by at most EPSILON relative to the larger of
      1, |x| and |y|. */
  function GreaterOrEqual(x: real, y: real): (r: bool)
    ensures y <= x ==> r
    ensures !r ==> x < y - Epsilon
    ensures r <==> y - x <= Epsilon * Maximum(1.0, Abs(x), Abs(y))
  {
    x > y || AlmostEqual(x, y)
  }

  /** x < y, or x and y almost equal: the mirror of GreaterOrEqual. */
  function LessOrEqual(x: real, y: real): (r: bool)
    ensures x <= y ==> r
    ensures !r ==> y < x - Epsilon
    ensures r <==> x - y <= Epsilon * Maximum(1.0, Abs(x), Abs(y))
  {
    x < y || AlmostEqual(x, y)
  }

  lemma LessOrEqualIsFlippedGreaterOrEqual(x: real, y: real)
    ensures LessOrEqual(x, y) == GreaterOrEqual(y, x)
  {
    AlmostEqualSymmetric(x, y);
  }

  /** Any two numbers are comparable under the tolerant order. */
  lemma GreaterOrEqualTotal(x: real, y: real)
    ensures GreaterOrEqual(x, y) || GreaterOrEqual(y, x)
  {
  }

  /** -1, 0 or +1 according to the sign of x. */
  function Sign(x: real): (r: int)
    ensures -1 <= r <= 1
    ensures r as real * x == Abs(x)
    ensures r == 0 <==> x == 0.0
  {
    if x > 0.0 then 1 else if x < 0.0 then -1 else 0
  }
}
