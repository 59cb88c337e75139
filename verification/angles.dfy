/** Angle predicates on directions measured in degrees (the values
    `angleOfLineWrtOxAxis` produces lie in [0, 360)), and the three-way
    classifier deciding where a line through a polygon vertex cuts the polygon. */
module Angles {
  import opened Options
  import opened Tolerance

  /** C++ `(int)` conversion of a double: truncation toward zero. */
  function Trunc(x: real): (r: int)
    ensures Abs(r as real) <= Abs(x) < Abs(r as real) + 1.0
    ensures 0.0 <= x ==> 0 <= r
    ensures x <= 0.0 ==> r <= 0
  {
    if 0.0 <= x then x.Floor else -((-x).Floor)
  }

  /** C++ `/` on `int`: the quotient is truncated toward zero. */
  function CQuot(a: int, m: int): (r: int)
    requires 0 < m
  {
    if 0 <= a then a / m else -((-a) / m)
  }

  /** C++ `%` on `int`: the remainder takes the sign of the dividend, and
      completes the truncated quotient. */
  function CRem(a: int, m: int): (r: int)
    requires 0 < m
    ensures -m < r < m
    ensures 0 <= a ==> 0 <= r
    ensures a <= 0 ==> r <= 0
    ensures a == CQuot(a, m) * m + r
  {
    if 0 <= a then a % m else -((-a) % m)
  }

  /** The direction opposite to `angle`. Angles above 180 lose 180, all others
      gain 180, so 180 itself maps to 360 rather than 0. */
  function OppositeAngle(angle: real): (r: real)
    ensures 0.0 <= angle < 360.0 ==> 0.0 < r <= 360.0 && Abs(r - angle) == 180.0
    ensures angle == 180.0 ==> r == 360.0
  {
    if angle > 180.0 then angle - 180.0 else angle + 180.0
  }

  /** On (0, 360] taking the opposite twice is the identity. */
  lemma OppositeAngleInvolution(angle: real)
    requires 0.0 < angle <= 360.0
    ensures OppositeAngle(OppositeAngle(angle)) == angle
  {
  }

  /** ...but direction 0 comes back as 360. */
  lemma OppositeAngleOfZeroTwice()
    ensures OppositeAngle(OppositeAngle(0.0)) == 360.0
  {
  }

  /** Strict membership of `angle1` between `angle2` and `angle3`. The arc
      orientation is chosen by the sign of the truncated difference
      `angle2 - angle3` modulo 180. */
  function IsAngleBetween(angle1: real, angle2: real, angle3: real): (r: bool)
    ensures r ==> (angle2 < angle1 < angle3 || angle3 < angle1 < angle2)
  {
    if CRem(Trunc(angle2 - angle3), 180) > 0 then
      angle3 < angle1 && angle1 < angle2
    else
      angle2 < angle1 && angle1 < angle3
  }

  /** Outside the two quirks below, IsAngleBetween is exactly membership in
      the open interval between its bounds, in either bound order. */
  lemma IsAngleBetweenIsOpenInterval(angle1: real, angle2: real, angle3: real)
    requires -180.0 <= angle2 - angle3 < 180.0
    requires !(0.0 < angle2 - angle3 < 1.0)
    ensures IsAngleBetween(angle1, angle2, angle3)
            <==> (angle2 < angle1 < angle3 || angle3 < angle1 < angle2)
  {
    var t := Trunc(angle2 - angle3);
    if 1.0 <= angle2 - angle3 {
      assert 1 <= t < 180;
      assert CRem(t, 180) == t;
    }
  }

  /** When the bounds differ by less than one degree with angle2 above angle3,
      the truncated difference is 0, the wrong orientation is chosen and no
      angle is reported as lying between them. */
  lemma IsAngleBetweenSubDegreeGap(angle1: real, angle2: real, angle3: real)
    requires 0.0 < angle2 - angle3 < 1.0
    ensures !IsAngleBetween(angle1, angle2, angle3)
  {
    assert Trunc(angle2 - angle3) == 0;
  }

  lemma IsAngleBetweenSubDegreeExample()
    ensures 10.0 < 10.25 < 10.5 && !IsAngleBetween(10.25, 10.5, 10.0)
    ensures IsAngleBetween(10.25, 10.0, 10.5)
  {
    IsAngleBetweenSubDegreeGap(10.25, 10.5, 10.0);
    IsAngleBetweenIsOpenInterval(10.25, 10.0, 10.5);
  }

  /** A difference of exactly 180 (angle2 above angle3) also picks the empty
      orientation. */
  lemma IsAngleBetweenHalfTurn(angle1: real, angle2: real, angle3: real)
    requires angle2 - angle3 == 180.0
    ensures !IsAngleBetween(angle1, angle2, angle3)
  {
    assert Trunc(angle2 - angle3) == 180;
    assert CRem(180, 180) == 0;
  }

  /** In general the empty orientation is picked whenever angle2 exceeds
      angle3 by a whole multiple of 180 plus less than one degree: the
      differences in (0, 1), [180, 181), [360, 361), and so on. */
  lemma IsAngleBetweenQuirkRanges(angle1: real, angle2: real, angle3: real, k: nat)
    requires 0.0 < angle2 - angle3
    requires (180 * k) as real <= angle2 - angle3 < (180 * k) as real + 1.0
    ensures !IsAngleBetween(angle1, angle2, angle3)
  {
    var d := angle2 - angle3;
    assert d.Floor == 180 * k;
    assert Trunc(d) == 180 * k;
    assert CRem(180 * k, 180) == 0;
  }

  /** Outside the non-reflex test, a difference of 180.5 already hides the
      angle 200 lying between 100 and 280.5. */
  lemma IsAngleBetweenHalfTurnExample()
    ensures 100.0 < 200.0 < 280.5 && !IsAngleBetween(200.0, 280.5, 100.0)
  {
    IsAngleBetweenQuirkRanges(200.0, 280.5, 100.0, 1);
  }

  /** Membership in the non-reflex arc between angle2 and angle3. When the
      bounds are more than 180 apart that arc crosses direction 0/360, and the
      test becomes "above the larger bound (up to 360, tolerantly) or below
      the smaller one (from 0, tolerantly)". */
  function IsAngleBetweenNonReflex(angle1: real, angle2: real, angle3: real): (r: bool)
    ensures r && Abs(angle2 - angle3) > 180.0 ==>
              angle1 > Max2(angle2, angle3) || angle1 < Min2(angle2, angle3)
    ensures r && Abs(angle2 - angle3) <= 180.0 ==>
              Min2(angle2, angle3) < angle1 < Max2(angle2, angle3)
  {
    if Abs(angle2 - angle3) > 180.0 then
      if angle2 > angle3 then
        (angle2 < angle1 && LessOrEqual(angle1, 360.0))
        || (LessOrEqual(0.0, angle1) && angle1 < angle3)
      else
        (angle3 < angle1 && LessOrEqual(angle1, 360.0))
        || (LessOrEqual(0.0, angle1) && angle1 < angle2)
    else
      IsAngleBetween(angle1, angle2, angle3)
  }


  /** Reference definition: for directions in [0, 360), the open non-reflex
      arc between two bounds. */
  ghost predicate OnNonReflexArc(angle1: real, angle2: real, angle3: real) {
    if Abs(angle2 - angle3) > 180.0 then
      angle1 > Max2(angle2, angle3) || angle1 < Min2(angle2, angle3)
    else
      Min2(angle2, angle3) < angle1 < Max2(angle2, angle3)
  }

  ghost predicate IsDirection(angle: real) {
    0.0 <= angle < 360.0
  }

  /** For directions in [0, 360), away from the two IsAngleBetween quirks,
      the non-reflex test is exactly membership in the non-reflex arc. */
  lemma IsAngleBetweenNonReflexMatchesArc(angle1: real, angle2: real, angle3: real)
    requires IsDirection(angle1) && IsDirection(angle2) && IsDirection(angle3)
    requires angle2 - angle3 != 180.0
    requires !(0.0 < angle2 - angle3 < 1.0)
    ensures IsAngleBetweenNonReflex(angle1, angle2, angle3) <==> OnNonReflexArc(angle1, angle2, angle3)
  {
    if Abs(angle2 - angle3) <= 180.0 {
      IsAngleBetweenIsOpenInterval(angle1, angle2, angle3);
    }
  }

  /** Under the same conditions in both bound orders the test does not
      depend on which bound comes first. */
  lemma IsAngleBetweenNonReflexSymmetric(angle1: real, angle2: real, angle3: real)
    requires IsDirection(angle1) && IsDirection(angle2) && IsDirection(angle3)
    requires Abs(angle2 - angle3) != 180.0
    requires !(0.0 < Abs(angle2 - angle3) < 1.0)
    ensures IsAngleBetweenNonReflex(angle1, angle2, angle3)
            == IsAngleBetweenNonReflex(angle1, angle3, angle2)
  {
    IsAngleBetweenNonReflexMatchesArc(angle1, angle2, angle3);
    IsAngleBetweenNonReflexMatchesArc(angle1, angle3, angle2);
  }

  /** The non-reflex test applied to the opposite direction of angle1. */
  function IsOppositeAngleBetweenNonReflex(angle1: real, angle2: real, angle3: real): (r: bool)
    ensures r ==> OppositeAngle(angle1) != angle2 && OppositeAngle(angle1) != angle3
    ensures r ==> OnNonReflexArc(OppositeAngle(angle1), angle2, angle3)
  {
    IsAngleBetweenNonReflex(OppositeAngle(angle1), angle2, angle3)
  }

  /** Conversely, for an angle other than 180 (whose opposite is 360, not a
      direction) and bounds away from the IsAngleBetween quirks, the opposite
      direction lying on the non-reflex arc is enough. */
  lemma IsOppositeAngleBetweenNonReflexMatchesArc(angle1: real, angle2: real, angle3: real)
    requires IsDirection(angle1) && angle1 != 180.0
    requires IsDirection(angle2) && IsDirection(angle3)
    requires angle2 - angle3 != 180.0
    requires !(0.0 < angle2 - angle3 < 1.0)
    ensures IsOppositeAngleBetweenNonReflex(angle1, angle2, angle3)
            <==> OnNonReflexArc(OppositeAngle(angle1), angle2, angle3)
  {
    IsAngleBetweenNonReflexMatchesArc(OppositeAngle(angle1), angle2, angle3);
  }

  /** The flush-edge angle, normalised to face the vertex under test: Some of
      the flush angle itself when it lies in the non-reflex arc between the
      predecessor and successor angles, else Some of its opposite when that
      lies there, else None (the C++ function returns false and leaves its
      argument unchanged, `GetOr(angleFlushEdge)`). */
  function FlushAngleBtwPredAndSucc(angleFlushEdge: real, anglePred: real, angleSucc: real): (r: Option<real>)
    ensures r.Some? ==> IsAngleBetweenNonReflex(r.value, anglePred, angleSucc)
    ensures r.Some? ==> r.value == angleFlushEdge || r.value == OppositeAngle(angleFlushEdge)
    ensures IsAngleBetweenNonReflex(angleFlushEdge, anglePred, angleSucc) ==> r == Some(angleFlushEdge)
    ensures r.None? <==> !IsAngleBetweenNonReflex(angleFlushEdge, anglePred, angleSucc)
                         && !IsAngleBetweenNonReflex(OppositeAngle(angleFlushEdge), anglePred, angleSucc)
  {
    if IsAngleBetweenNonReflex(angleFlushEdge, anglePred, angleSucc) then
      Some(angleFlushEdge)
    else if IsOppositeAngleBetweenNonReflex(angleFlushEdge, anglePred, angleSucc) then
      Some(OppositeAngle(angleFlushEdge))
    else
      None
  }

  /** Where a line through a polygon vertex meets the polygon, relative to the
      flush side C. */
  datatype IntersectionKind = Below | Above | Critical

  /** Whether the line leaves through the edge towards a neighbour: above when
      that neighbour is strictly further from side C than the vertex. */
  function IntersectsAboveOrBelow(heightNeighbour: real, heightPoint: real): (r: IntersectionKind)
    ensures r != Critical
    ensures r == Above <==> heightNeighbour > heightPoint
  {
    if heightNeighbour > heightPoint then Above else Below
  }

  /** Classifies the line through vertex p at direction `angleGamma`, given the
      directions of the edges from p's predecessor and successor into p, the
      direction of the flush edge, and the heights over side C of p and its
      two neighbours. */
  function Intersects(angleGamma: real, anglePred: real, angleSucc: real, angleFlushEdge: real,
                      heightPred: real, heightPoint: real, heightSucc: real): (r: IntersectionKind)
    ensures r == Above ==> heightPred > heightPoint || heightSucc > heightPoint
    ensures FlushAngleBtwPredAndSucc(angleFlushEdge, anglePred, angleSucc).None? ==> r != Above
    ensures var flush := FlushAngleBtwPredAndSucc(angleFlushEdge, anglePred, angleSucc);
            flush.Some? && (IsAngleBetweenNonReflex(angleGamma, anglePred, flush.value) || AlmostEqual(angleGamma, anglePred))
            ==> r == IntersectsAboveOrBelow(heightPred, heightPoint)
    ensures var flush := FlushAngleBtwPredAndSucc(angleFlushEdge, anglePred, angleSucc);
            && flush.Some?
            && !IsAngleBetweenNonReflex(angleGamma, anglePred, flush.value) && !AlmostEqual(angleGamma, anglePred)
            && (IsAngleBetweenNonReflex(angleGamma, angleSucc, flush.value) || AlmostEqual(angleGamma, angleSucc))
            ==> r == IntersectsAboveOrBelow(heightSucc, heightPoint)
    ensures var flush := FlushAngleBtwPredAndSucc(angleFlushEdge, anglePred, angleSucc);
            r == Critical <==>
              if flush.Some? then
                && !IsAngleBetweenNonReflex(angleGamma, anglePred, flush.value) && !AlmostEqual(angleGamma, anglePred)
                && !IsAngleBetweenNonReflex(angleGamma, angleSucc, flush.value) && !AlmostEqual(angleGamma, angleSucc)
              else
                && !IsAngleBetweenNonReflex(angleGamma, anglePred, angleSucc)
                && (!AlmostEqual(angleGamma, anglePred) || AlmostEqual(angleGamma, angleFlushEdge))
                && (!AlmostEqual(angleGamma, angleSucc) || AlmostEqual(angleGamma, angleFlushEdge))
    ensures (FlushAngleBtwPredAndSucc(angleFlushEdge, anglePred, angleSucc).None?
             && IsAngleBetweenNonReflex(angleGamma, anglePred, angleSucc)) ==> r == Below
  {
    match FlushAngleBtwPredAndSucc(angleFlushEdge, anglePred, angleSucc)
    case Some(flush) =>
      if IsAngleBetweenNonReflex(angleGamma, anglePred, flush) || AlmostEqual(angleGamma, anglePred) then
        IntersectsAboveOrBelow(heightPred, heightPoint)
      else if IsAngleBetweenNonReflex(angleGamma, angleSucc, flush) || AlmostEqual(angleGamma, angleSucc) then
        IntersectsAboveOrBelow(heightSucc, heightPoint)
      else
        Critical
    case None =>
      if IsAngleBetweenNonReflex(angleGamma, anglePred, angleSucc)
         || (AlmostEqual(angleGamma, anglePred) && !AlmostEqual(angleGamma, angleFlushEdge))
         || (AlmostEqual(angleGamma, angleSucc) && !AlmostEqual(angleGamma, angleFlushEdge))
      then
        Below
      else
        Critical
  }

  /** The classifier against the reference arcs: for directions away from the
      IsAngleBetween quirks, a line on the arc from the predecessor edge to the
      normalised flush edge leaves through the predecessor edge, one on the arc
      from the successor edge (and not the first) through the successor edge,
      and without a flush edge between them any line on the arc between the
      two edges cuts below. */
  lemma IntersectsMatchesArcs(angleGamma: real, anglePred: real, angleSucc: real, angleFlushEdge: real,
                              heightPred: real, heightPoint: real, heightSucc: real)
    ensures var flush := FlushAngleBtwPredAndSucc(angleFlushEdge, anglePred, angleSucc);
            && flush.Some? && IsDirection(flush.value)
            && IsDirection(angleGamma) && IsDirection(anglePred)
            && anglePred - flush.value != 180.0 && !(0.0 < anglePred - flush.value < 1.0)
            && OnNonReflexArc(angleGamma, anglePred, flush.value)
            ==> Intersects(angleGamma, anglePred, angleSucc, angleFlushEdge, heightPred, heightPoint, heightSucc)
                == IntersectsAboveOrBelow(heightPred, heightPoint)
    ensures var flush := FlushAngleBtwPredAndSucc(angleFlushEdge, anglePred, angleSucc);
            && flush.Some? && IsDirection(flush.value)
            && IsDirection(angleGamma) && IsDirection(anglePred) && IsDirection(angleSucc)
            && anglePred - flush.value != 180.0 && !(0.0 < anglePred - flush.value < 1.0)
            && angleSucc - flush.value != 180.0 && !(0.0 < angleSucc - flush.value < 1.0)
            && !OnNonReflexArc(angleGamma, anglePred, flush.value) && !AlmostEqual(angleGamma, anglePred)
            && OnNonReflexArc(angleGamma, angleSucc, flush.value)
            ==> Intersects(angleGamma, anglePred, angleSucc, angleFlushEdge, heightPred, heightPoint, heightSucc)
                == IntersectsAboveOrBelow(heightSucc, heightPoint)
    ensures && FlushAngleBtwPredAndSucc(angleFlushEdge, anglePred, angleSucc).None?
            && IsDirection(angleGamma) && IsDirection(anglePred) && IsDirection(angleSucc)
            && anglePred - angleSucc != 180.0 && !(0.0 < anglePred - angleSucc < 1.0)
            && OnNonReflexArc(angleGamma, anglePred, angleSucc)
            ==> Intersects(angleGamma, anglePred, angleSucc, angleFlushEdge, heightPred, heightPoint, heightSucc) == Below
  {
    var flush := FlushAngleBtwPredAndSucc(angleFlushEdge, anglePred, angleSucc);
    if IsDirection(angleGamma) && IsDirection(anglePred) && IsDirection(angleSucc) {
      if flush.Some? {
        if IsDirection(flush.value) && anglePred - flush.value != 180.0 && !(0.0 < anglePred - flush.value < 1.0) {
          IsAngleBetweenNonReflexMatchesArc(angleGamma, anglePred, flush.value);
        }
        if IsDirection(flush.value) && angleSucc - flush.value != 180.0 && !(0.0 < angleSucc - flush.value < 1.0) {
          IsAngleBetweenNonReflexMatchesArc(angleGamma, angleSucc, flush.value);
        }
      } else if anglePred - angleSucc != 180.0 && !(0.0 < anglePred - angleSucc < 1.0) {
        IsAngleBetweenNonReflexMatchesArc(angleGamma, anglePred, angleSucc);
      }
    } else if IsDirection(angleGamma) && IsDirection(anglePred) && flush.Some? && IsDirection(flush.value)
              && anglePred - flush.value != 180.0 && !(0.0 < anglePred - flush.value < 1.0) {
      IsAngleBetweenNonReflexMatchesArc(angleGamma, anglePred, flush.value);
    }
  }

  /** When the flush edge (and its opposite) lies outside the vertex's arc, the
      classification does not look at heights at all. */
  lemma IntersectsIgnoresHeightsOutsideFlushArc(angleGamma: real, anglePred: real, angleSucc: real,
                                                angleFlushEdge: real, h1: real, h2: real, h3: real,
                                                k1: real, k2: real, k3: real)
    requires FlushAngleBtwPredAndSucc(angleFlushEdge, anglePred, angleSucc).None?
    ensures Intersects(angleGamma, anglePred, angleSucc, angleFlushEdge, h1, h2, h3)
            == Intersects(angleGamma, anglePred, angleSucc, angleFlushEdge, k1, k2, k3)
  {
  }

  /** A vertex at least as high as both neighbours is never cut "above". */
  lemma IntersectsNeverAboveAtPeak(angleGamma: real, anglePred: real, angleSucc: real,
                                   angleFlushEdge: real, heightPred: real, heightPoint: real, heightSucc: real)
    requires heightPred <= heightPoint && heightSucc <= heightPoint
    ensures Intersects(angleGamma, anglePred, angleSucc, angleFlushEdge, heightPred, heightPoint, heightSucc) != Above
  {
  }
}
