/** Candidate triangles: the running best result, the short-circuit for
    polygons of at most three vertices, construction of a candidate from its
    three sides and its validation by the midpoint-touch property. */
module Candidates {
  import opened Options
  import opened Tolerance
  import opened Geometry

  function Pow2(k: nat): (r: nat)
    ensures 1 <= r
    decreases k
  {
    if k == 0 then 1 else 2 * Pow2(k - 1)
  }

  /** `std::numeric_limits<double>::max()`, exactly (2^53 - 1) * 2^971. */
  const DblMax: real := ((Pow2(53) - 1) * Pow2(971)) as real

  /** A triangle: vertex A is opposite side A (the intersection of sides B
      and C), and likewise for B and C. */
  datatype Triangle = Triangle(vertexA: Point, vertexB: Point, vertexC: Point)

  function Vertices(t: Triangle): (r: seq<Point>) {
    [t.vertexA, t.vertexB, t.vertexC]
  }

  function Area(t: Triangle): (r: real) {
    AreaOfTriangle(t.vertexA, t.vertexB, t.vertexC)
  }

  /** The best result so far: the triangle as the source's vector of points,
      and its area. */
  datatype Best = Best(triangle: seq<Point>, area: real)

  /** Either nothing recorded yet, or three points together with their area. */
  ghost predicate Consistent(b: Best) {
    || (b.triangle == [] && b.area == DblMax)
    || (|b.triangle| == 3 && b.area == AreaOfTriangle(b.triangle[0], b.triangle[1], b.triangle[2]))
  }

  /** The empty result: no triangle, and an area no candidate can exceed. */
  function Initialise(): (r: Best)
    ensures Consistent(r) && r.triangle == []
    ensures 0.0 < r.area
  {
    Best([], DblMax)
  }

  /** Polygons of at most three vertices: the "triangle" is vertices 0, 1, 2
      taken cyclically, so fewer than three vertices give a degenerate
      triangle of area 0 and exactly three give the polygon itself. */
  function ReturnMinimumAreaEnclosingTriangle(polygon: seq<Point>): (r: Best)
    requires 1 <= |polygon|
    ensures |r.triangle| == 3
    ensures forall i :: 0 <= i < 3 ==> r.triangle[i] == polygon[i % |polygon|]
    ensures |polygon| == 3 ==> r.triangle == polygon
    ensures |polygon| < 3 ==> r.area == 0.0
    ensures Consistent(r) && 0.0 <= r.area
  {
    var n := |polygon|;
    var triangle := [polygon[0 % n], polygon[1 % n], polygon[2 % n]];
    var r := Best(triangle, AreaOfTriangle(triangle[0], triangle[1], triangle[2]));
    if n < 3 then
      AreaOfTriangleDegenerate(triangle[0], triangle[1], triangle[2]);
      r
    else
      r
  }

  /** Records the candidate (A, B, C) only when its area is strictly smaller
      than the best so far; otherwise the best result is kept as it is. */
  function UpdateMinimumAreaEnclosingTriangle(best: Best, vertexA: Point, vertexB: Point, vertexC: Point): (r: Best)
    ensures r.area <= best.area
    ensures r.area <= AreaOfTriangle(vertexA, vertexB, vertexC)
    ensures r.area < best.area <==> AreaOfTriangle(vertexA, vertexB, vertexC) < best.area
    ensures r.area < best.area ==> r.triangle == [vertexA, vertexB, vertexC]
                                   && r.area == AreaOfTriangle(vertexA, vertexB, vertexC)
    ensures r.area == best.area ==> r == best
    ensures Consistent(best) ==> Consistent(r)
  {
    var triangleArea := AreaOfTriangle(vertexA, vertexB, vertexC);
    if triangleArea < best.area then
      Best([vertexA, vertexB, vertexC], triangleArea)
    else
      best
  }

  /** The first candidate with a finite area always replaces the empty result. */
  lemma InitialiseAcceptsFirstCandidate(vertexA: Point, vertexB: Point, vertexC: Point)
    requires AreaOfTriangle(vertexA, vertexB, vertexC) < DblMax
    ensures UpdateMinimumAreaEnclosingTriangle(Initialise(), vertexA, vertexB, vertexC).triangle
            == [vertexA, vertexB, vertexC]
  {
  }

  /** The result after offering a sequence of candidates in order. */
  function UpdateAll(best: Best, candidates: seq<Triangle>): (r: Best)
    decreases |candidates|
  {
    if candidates == [] then best
    else
      var t := candidates[0];
      UpdateAll(UpdateMinimumAreaEnclosingTriangle(best, t.vertexA, t.vertexB, t.vertexC), candidates[1..])
  }

  /** After a sequence of updates the area is the minimum of the starting area
      and every candidate's area, and the recorded triangle is either the
      starting one or one of the candidates. */
  lemma {:induction false} UpdateAllKeepsMinimum(best: Best, candidates: seq<Triangle>)
    ensures UpdateAll(best, candidates).area <= best.area
    ensures forall i :: 0 <= i < |candidates| ==> UpdateAll(best, candidates).area <= Area(candidates[i])
    ensures || UpdateAll(best, candidates) == best
            || exists i :: 0 <= i < |candidates|
                 && UpdateAll(best, candidates) == Best(Vertices(candidates[i]), Area(candidates[i]))
    decreases |candidates|
  {
    if candidates != [] {
      var t := candidates[0];
      var next := UpdateMinimumAreaEnclosingTriangle(best, t.vertexA, t.vertexB, t.vertexC);
      var rest := candidates[1..];
      UpdateAllKeepsMinimum(next, rest);
      var r := UpdateAll(next, rest);
      assert r == UpdateAll(best, candidates);
      forall i | 0 <= i < |candidates|
        ensures r.area <= Area(candidates[i])
      {
        if i > 0 {
          assert candidates[i] == rest[i - 1];
        }
      }
      if r != next {
        var j :| 0 <= j < |rest| && r == Best(Vertices(rest[j]), Area(rest[j]));
        assert candidates[j + 1] == rest[j];
      } else if next != best {
        assert next == Best(Vertices(candidates[0]), Area(candidates[0]));
      }
    }
  }

  /** Offering candidates in two batches is offering them all in order. */
  lemma {:induction false} UpdateAllConcat(best: Best, first: seq<Triangle>, second: seq<Triangle>)
    ensures UpdateAll(best, first + second) == UpdateAll(UpdateAll(best, first), second)
    decreases |first|
  {
    if first == [] {
      assert first + second == second;
    } else {
      var t := first[0];
      var next := UpdateMinimumAreaEnclosingTriangle(best, t.vertexA, t.vertexB, t.vertexC);
      assert (first + second)[0] == t;
      assert (first + second)[1..] == first[1..] + second;
      UpdateAllConcat(next, first[1..], second);
    }
  }

  /** A candidate that may be missing, as a sequence of zero or one triangles. */
  function Offered(candidate: Option<Triangle>): (r: seq<Triangle>)
  {
    if candidate.Some? then [candidate.value] else []
  }

  /** The best result after offering a candidate that may be missing: a
      missing candidate changes nothing. */
  function Offer(best: Best, candidate: Option<Triangle>): (r: Best)
    ensures r == UpdateAll(best, Offered(candidate))
    ensures candidate.None? ==> r == best
  {
    match candidate
    case None => best
    case Some(t) => UpdateMinimumAreaEnclosingTriangle(best, t.vertexA, t.vertexB, t.vertexC)
  }

  /** Which tangency configuration produced a candidate; it decides how the
      candidate's side midpoints are validated. */
  datatype ValidationFlag = SideATangent | SideBTangent | SidesFlush

  /** A side of the triangle, given by two points on its line. */
  datatype Side = Side(start: Point, end: Point)

  /** Checks the midpoint-touch property. A tangent side's midpoint must
      (almost) equal its touching vertex: P[a-1] for side A, P[b] for side B.
      Any other side's midpoint must lie on the side's segment, except that
      side C is not checked at all when both A and B are flush.
      `onSegment(m, s, e)` is the source's isPointOnLineSegment. */
  function IsValidMinimalTriangle(t: Triangle, predecessorOfA: Point, pointB: Point, flag: ValidationFlag,
                                  sideA: Side, sideB: Side, sideC: Side,
                                  onSegment: (Point, Point, Point) -> bool): (r: bool)
    ensures r && flag == SideATangent ==> AreEqualPoints(MiddlePoint(t.vertexB, t.vertexC), predecessorOfA)
    ensures r && flag == SideBTangent ==> AreEqualPoints(MiddlePoint(t.vertexA, t.vertexC), pointB)
    ensures r && flag != SideATangent ==> onSegment(MiddlePoint(t.vertexB, t.vertexC), sideA.start, sideA.end)
    ensures r && flag != SideBTangent ==> onSegment(MiddlePoint(t.vertexA, t.vertexC), sideB.start, sideB.end)
    ensures r && flag != SidesFlush ==> onSegment(MiddlePoint(t.vertexA, t.vertexB), sideC.start, sideC.end)
    ensures flag == SidesFlush ==>
              (r <==> && onSegment(MiddlePoint(t.vertexB, t.vertexC), sideA.start, sideA.end)
                      && onSegment(MiddlePoint(t.vertexA, t.vertexC), sideB.start, sideB.end))
    ensures flag == SideATangent ==>
              (r <==> && AreEqualPoints(MiddlePoint(t.vertexB, t.vertexC), predecessorOfA)
                      && onSegment(MiddlePoint(t.vertexA, t.vertexC), sideB.start, sideB.end)
                      && onSegment(MiddlePoint(t.vertexA, t.vertexB), sideC.start, sideC.end))
    ensures flag == SideBTangent ==>
              (r <==> && onSegment(MiddlePoint(t.vertexB, t.vertexC), sideA.start, sideA.end)
                      && AreEqualPoints(MiddlePoint(t.vertexA, t.vertexC), pointB)
                      && onSegment(MiddlePoint(t.vertexA, t.vertexB), sideC.start, sideC.end))
  {
    var midpointSideA := MiddlePoint(t.vertexB, t.vertexC);
    var midpointSideB := MiddlePoint(t.vertexA, t.vertexC);
    var midpointSideC := MiddlePoint(t.vertexA, t.vertexB);
    var sideAValid := if flag == SideATangent then AreEqualPoints(midpointSideA, predecessorOfA)
                      else onSegment(midpointSideA, sideA.start, sideA.end);
    var sideBValid := if flag == SideBTangent then AreEqualPoints(midpointSideB, pointB)
                      else onSegment(midpointSideB, sideB.start, sideB.end);
    var sideCValid := flag == SidesFlush || onSegment(midpointSideC, sideC.start, sideC.end);
    sideAValid && sideBValid && sideCValid
  }

  /** The side whose midpoint is compared with a vertex, and side C under
      SidesFlush, play no part in the validation: changing them changes
      nothing. Conversely the checks made are all that matter. */
  lemma {:induction false} IsValidMinimalTriangleIgnoresUncheckedSide(
      t: Triangle, predecessorOfA: Point, pointB: Point, flag: ValidationFlag,
      sideA: Side, sideB: Side, sideC: Side, otherSide: Side, onSegment: (Point, Point, Point) -> bool)
    ensures flag == SideATangent ==>
              IsValidMinimalTriangle(t, predecessorOfA, pointB, flag, sideA, sideB, sideC, onSegment)
              == IsValidMinimalTriangle(t, predecessorOfA, pointB, flag, otherSide, sideB, sideC, onSegment)
    ensures flag == SideBTangent ==>
              IsValidMinimalTriangle(t, predecessorOfA, pointB, flag, sideA, sideB, sideC, onSegment)
              == IsValidMinimalTriangle(t, predecessorOfA, pointB, flag, sideA, otherSide, sideC, onSegment)
    ensures flag == SidesFlush ==>
              IsValidMinimalTriangle(t, predecessorOfA, pointB, flag, sideA, sideB, sideC, onSegment)
              == IsValidMinimalTriangle(t, predecessorOfA, pointB, flag, sideA, sideB, otherSide, onSegment)
  {
  }

  /** Midpoint of side B between its intersections with sides C and A, when
      both exist; it lies on side B's line. */
  function MiddlePointOfSideB(sideA: Side, sideB: Side, sideC: Side): (r: Option<Point>)
    ensures r.Some? <==> !AlmostEqual(DirectionCross(sideB.start, sideB.end, sideC.start, sideC.end), 0.0)
                         && !AlmostEqual(DirectionCross(sideB.start, sideB.end, sideA.start, sideA.end), 0.0)
    ensures r.Some? ==> Cross(sideB.start, sideB.end, r.value) == 0.0
    ensures r.Some? ==>
              r.value == MiddlePoint(LineIntersectionOfPoints(sideB.start, sideB.end, sideC.start, sideC.end).value,
                                     LineIntersectionOfPoints(sideB.start, sideB.end, sideA.start, sideA.end).value)
  {
    var vertexA := LineIntersectionOfPoints(sideB.start, sideB.end, sideC.start, sideC.end);
    var vertexC := LineIntersectionOfPoints(sideB.start, sideB.end, sideA.start, sideA.end);
    if vertexA.None? || vertexC.None? then
      None
    else
      MiddlePointOnLine(sideB.start, sideB.end, vertexA.value, vertexC.value);
      Some(MiddlePoint(vertexA.value, vertexC.value))
  }

  /** Builds the candidate from its three sides (vertex C = A meet B,
      vertex B = A meet C, vertex A = B meet C) and validates it. None when
      two sides are (almost) parallel or the midpoint check fails. */
  function IsLocalMinimalTriangle(predecessorOfA: Point, pointB: Point, flag: ValidationFlag,
                                  sideA: Side, sideB: Side, sideC: Side,
                                  onSegment: (Point, Point, Point) -> bool): (r: Option<Triangle>)
    ensures r.Some? ==> Cross(sideA.start, sideA.end, r.value.vertexC) == 0.0
                        && Cross(sideB.start, sideB.end, r.value.vertexC) == 0.0
    ensures r.Some? ==> Cross(sideA.start, sideA.end, r.value.vertexB) == 0.0
                        && Cross(sideC.start, sideC.end, r.value.vertexB) == 0.0
    ensures r.Some? ==> Cross(sideB.start, sideB.end, r.value.vertexA) == 0.0
                        && Cross(sideC.start, sideC.end, r.value.vertexA) == 0.0
    ensures r.Some? ==> IsValidMinimalTriangle(r.value, predecessorOfA, pointB, flag, sideA, sideB, sideC, onSegment)
    ensures AlmostEqual(DirectionCross(sideA.start, sideA.end, sideB.start, sideB.end), 0.0) ==> r.None?
    ensures var vertexA := LineIntersectionOfPoints(sideB.start, sideB.end, sideC.start, sideC.end);
            var vertexB := LineIntersectionOfPoints(sideA.start, sideA.end, sideC.start, sideC.end);
            var vertexC := LineIntersectionOfPoints(sideA.start, sideA.end, sideB.start, sideB.end);
            && (r.Some? <==> && vertexA.Some? && vertexB.Some? && vertexC.Some?
                             && IsValidMinimalTriangle(Triangle(vertexA.value, vertexB.value, vertexC.value),
                                                       predecessorOfA, pointB, flag, sideA, sideB, sideC, onSegment))
            && (r.Some? ==> r.value == Triangle(vertexA.value, vertexB.value, vertexC.value))
  {
    var vertexC := LineIntersectionOfPoints(sideA.start, sideA.end, sideB.start, sideB.end);
    var vertexB := LineIntersectionOfPoints(sideA.start, sideA.end, sideC.start, sideC.end);
    var vertexA := LineIntersectionOfPoints(sideB.start, sideB.end, sideC.start, sideC.end);
    if vertexC.None? || vertexB.None? || vertexA.None? then
      None
    else
      var t := Triangle(vertexA.value, vertexB.value, vertexC.value);
      if IsValidMinimalTriangle(t, predecessorOfA, pointB, flag, sideA, sideB, sideC, onSegment) then
        Some(t)
      else
        None
  }

  /** The midpoint computed to decide a side-A tangency is the side-B
      midpoint of the candidate later built from the same three sides, so
      a side-B tangent candidate that passes validation touches P[b] there. */
  lemma {:induction false} MiddlePointOfSideBIsCandidateMidpoint(
      predecessorOfA: Point, pointB: Point, flag: ValidationFlag,
      sideA: Side, sideB: Side, sideC: Side, onSegment: (Point, Point, Point) -> bool)
    ensures var r := IsLocalMinimalTriangle(predecessorOfA, pointB, flag, sideA, sideB, sideC, onSegment);
            r.Some? ==> MiddlePointOfSideB(sideA, sideB, sideC) == Some(MiddlePoint(r.value.vertexA, r.value.vertexC))
    ensures var r := IsLocalMinimalTriangle(predecessorOfA, pointB, flag, sideA, sideB, sideC, onSegment);
            r.Some? && flag == SideBTangent ==> AreEqualPoints(MiddlePointOfSideB(sideA, sideB, sideC).value, pointB)
  {
    LineIntersectionOfPointsSymmetric(sideA.start, sideA.end, sideB.start, sideB.end);
  }
}
