/** The rotating-support sweep: for every flush side C the indices b and a
    are moved by three loops, sides A and B are placed, and the resulting
    candidate triangle is validated and offered to the running best.

    The computations the source builds on sqrt and atan2 are parameters here
    (an `Oracle`); the loops, which the source does not prove to terminate,
    are bounded by `fuel`. */
module Sweep {
  import opened Options
  import opened Tolerance
  import opened CyclicIndex
  import opened Angles
  import opened Geometry
  import opened Candidates
  import opened Loops

  /** The floating-point collaborators of the sweep, given for one polygon:
      - distanceFromPointToLine(p, s, e): distance from p to the line (s, e);
      - angleOfLineWrtOxAxis(s, e): direction of s -> e in degrees;
      - gamma(p, a, c): the point gamma(P[p]) on side A, or None when it does
        not exist;
      - vertexCOnSideB(a, c, sideB, sideC): the point of side B at distance
        2 * height(a-1) from side C, or None when the lines do not meet;
      - isPointOnLineSegment(m, s, e): whether m lies on segment [s, e]. */
  datatype Oracle = Oracle(
    distanceFromPointToLine: (Point, Point, Point) -> real,
    angleOfLineWrtOxAxis: (Point, Point) -> real,
    gamma: (U32, U32, U32) -> Option<Point>,
    vertexCOnSideB: (U32, U32, Side, Side) -> Option<Point>,
    isPointOnLineSegment: (Point, Point, Point) -> bool)

  /** The source's two fatal internal errors, and running out of fuel in a
      loop the source would keep iterating. */
  datatype SweepError = SideBGammaUndefined | VertexCOnSideBUndefined | OutOfFuel

  /** The sweep is only entered for polygons of more than three vertices;
      the vertex count must fit the source's `unsigned int`. */
  predicate SweepablePolygon(polygon: seq<Point>) {
    3 < |polygon| < U32Limit
  }

  /** Distance of vertex i from the line of the flush side (P[c-1], P[c]). */
  function Height(polygon: seq<Point>, o: Oracle, i: U32, c: U32): (r: real)
    requires SweepablePolygon(polygon) && i < |polygon| && c < |polygon|
  {
    HeightOfPoint(polygon, o, polygon[i], c)
  }

  /** Distance of any point from the line of the flush side. */
  function HeightOfPoint(polygon: seq<Point>, o: Oracle, p: Point, c: U32): (r: real)
    requires SweepablePolygon(polygon) && c < |polygon|
  {
    o.distanceFromPointToLine(p, polygon[c], polygon[Predecessor(c, |polygon|)])
  }

  /** Direction of the edge from P[i-1] into P[i]. */
  function AngleFromPredecessor(polygon: seq<Point>, o: Oracle, i: U32): (r: real)
    requires SweepablePolygon(polygon) && i < |polygon|
  {
    o.angleOfLineWrtOxAxis(polygon[Predecessor(i, |polygon|)], polygon[i])
  }

  /** Direction of the edge from P[i+1] into P[i]. */
  function AngleFromSuccessor(polygon: seq<Point>, o: Oracle, i: U32): (r: real)
    requires SweepablePolygon(polygon) && i < |polygon|
  {
    o.angleOfLineWrtOxAxis(polygon[Successor(i, |polygon|)], polygon[i])
  }

  /** The flush edge at vertex i normalised to face it (None when neither
      direction of the flush side lies between i's two edges). */
  function FlushAngleAt(polygon: seq<Point>, o: Oracle, i: U32, c: U32): (r: Option<real>)
    requires SweepablePolygon(polygon) && i < |polygon| && c < |polygon|
  {
    FlushAngleBtwPredAndSucc(AngleFromPredecessor(polygon, o, c),
                             AngleFromPredecessor(polygon, o, i), AngleFromSuccessor(polygon, o, i))
  }

  /** Whether `angle` leaves P[i] on the predecessor's side of the flush
      edge; `flush` is FlushAngleAt. */
  predicate OnPredecessorSide(polygon: seq<Point>, o: Oracle, angle: real, flush: real, i: U32)
    requires SweepablePolygon(polygon) && i < |polygon|
  {
    IsAngleBetweenNonReflex(angle, AngleFromPredecessor(polygon, o, i), flush)
    || AlmostEqual(angle, AngleFromPredecessor(polygon, o, i))
  }

  /** Whether `angle` leaves P[i] on the successor's side of the flush edge. */
  predicate OnSuccessorSide(polygon: seq<Point>, o: Oracle, angle: real, flush: real, i: U32)
    requires SweepablePolygon(polygon) && i < |polygon|
  {
    IsAngleBetweenNonReflex(angle, AngleFromSuccessor(polygon, o, i), flush)
    || AlmostEqual(angle, AngleFromSuccessor(polygon, o, i))
  }

  /** Without a flush edge facing P[i]: whether `angle` lies between i's two
      edges, or runs (almost) along one of them but not along the flush edge. */
  predicate CutsBelowWithoutFlushEdge(polygon: seq<Point>, o: Oracle, angle: real, i: U32, c: U32)
    requires SweepablePolygon(polygon) && i < |polygon| && c < |polygon|
  {
    var pred, succ, flushEdge := AngleFromPredecessor(polygon, o, i), AngleFromSuccessor(polygon, o, i),
                                 AngleFromPredecessor(polygon, o, c);
    || IsAngleBetweenNonReflex(angle, pred, succ)
    || (AlmostEqual(angle, pred) && !AlmostEqual(angle, flushEdge))
    || (AlmostEqual(angle, succ) && !AlmostEqual(angle, flushEdge))
  }

  /** The classifier applied at vertex i with the polygon's own edge
      directions and heights. With a flush edge between i's edges, a line on
      the predecessor's side is classified by the predecessor's height, one
      only on the successor's side by the successor's height. */
  function IntersectsAt(polygon: seq<Point>, o: Oracle, angleGamma: real, i: U32, c: U32): (r: IntersectionKind)
    requires SweepablePolygon(polygon) && i < |polygon| && c < |polygon|
    ensures var flush := FlushAngleAt(polygon, o, i, c);
            flush.Some? && OnPredecessorSide(polygon, o, angleGamma, flush.value, i) ==>
              (r == Above <==> Height(polygon, o, Predecessor(i, |polygon|), c) > Height(polygon, o, i, c))
              && r != Critical
    ensures var flush := FlushAngleAt(polygon, o, i, c);
            && flush.Some?
            && !OnPredecessorSide(polygon, o, angleGamma, flush.value, i)
            && OnSuccessorSide(polygon, o, angleGamma, flush.value, i) ==>
              (r == Above <==> Height(polygon, o, Successor(i, |polygon|), c) > Height(polygon, o, i, c))
              && r != Critical
    ensures var flush := FlushAngleAt(polygon, o, i, c);
            flush.Some? ==>
              (r == Critical <==> !OnPredecessorSide(polygon, o, angleGamma, flush.value, i)
                                  && !OnSuccessorSide(polygon, o, angleGamma, flush.value, i))
    ensures FlushAngleAt(polygon, o, i, c).None? ==> r != Above
    ensures FlushAngleAt(polygon, o, i, c).None?
            && IsAngleBetweenNonReflex(angleGamma, AngleFromPredecessor(polygon, o, i), AngleFromSuccessor(polygon, o, i))
            ==> r == Below
    ensures FlushAngleAt(polygon, o, i, c).None? ==>
              (r == Below <==> CutsBelowWithoutFlushEdge(polygon, o, angleGamma, i, c))
              && (r == Critical <==> !CutsBelowWithoutFlushEdge(polygon, o, angleGamma, i, c))
  {
    var n := |polygon|;
    Intersects(angleGamma, AngleFromPredecessor(polygon, o, i), AngleFromSuccessor(polygon, o, i),
               AngleFromPredecessor(polygon, o, c),
               Height(polygon, o, Predecessor(i, n), c), Height(polygon, o, i, c), Height(polygon, o, Successor(i, n), c))
  }

  /** The line from P[i] towards the gamma point cuts the polygon below P[i]:
      on the predecessor's (successor's) side of the flush edge exactly when
      that neighbour is no higher than P[i], and always when there is no flush
      edge between i's edges and the line lies between them. */
  function IntersectsBelow(polygon: seq<Point>, o: Oracle, gammaPoint: Point, i: U32, c: U32): (r: bool)
    requires SweepablePolygon(polygon) && i < |polygon| && c < |polygon|
    ensures var angle := o.angleOfLineWrtOxAxis(polygon[i], gammaPoint);
            var flush := FlushAngleAt(polygon, o, i, c);
            flush.Some? && OnPredecessorSide(polygon, o, angle, flush.value, i) ==>
              (r <==> Height(polygon, o, Predecessor(i, |polygon|), c) <= Height(polygon, o, i, c))
    ensures var angle := o.angleOfLineWrtOxAxis(polygon[i], gammaPoint);
            var flush := FlushAngleAt(polygon, o, i, c);
            && flush.Some?
            && !OnPredecessorSide(polygon, o, angle, flush.value, i)
            && OnSuccessorSide(polygon, o, angle, flush.value, i) ==>
              (r <==> Height(polygon, o, Successor(i, |polygon|), c) <= Height(polygon, o, i, c))
    ensures var angle := o.angleOfLineWrtOxAxis(polygon[i], gammaPoint);
            var flush := FlushAngleAt(polygon, o, i, c);
            flush.Some? && r ==> OnPredecessorSide(polygon, o, angle, flush.value, i)
                                 || OnSuccessorSide(polygon, o, angle, flush.value, i)
    ensures FlushAngleAt(polygon, o, i, c).None?
            && IsAngleBetweenNonReflex(o.angleOfLineWrtOxAxis(polygon[i], gammaPoint),
                                       AngleFromPredecessor(polygon, o, i), AngleFromSuccessor(polygon, o, i))
            ==> r
    ensures FlushAngleAt(polygon, o, i, c).None? ==>
              (r <==> CutsBelowWithoutFlushEdge(polygon, o, o.angleOfLineWrtOxAxis(polygon[i], gammaPoint), i, c))
  {
    IntersectsAt(polygon, o, o.angleOfLineWrtOxAxis(polygon[i], gammaPoint), i, c) == Below
  }

  /** The line from the gamma point towards P[i] cuts the polygon above P[i]:
      on the predecessor's (successor's) side of the flush edge exactly when
      that neighbour is strictly higher than P[i]; so it needs a neighbour of
      P[i] strictly higher than P[i]. */
  function IntersectsAbove(polygon: seq<Point>, o: Oracle, gammaPoint: Point, i: U32, c: U32): (r: bool)
    requires SweepablePolygon(polygon) && i < |polygon| && c < |polygon|
    ensures r ==> Height(polygon, o, Predecessor(i, |polygon|), c) > Height(polygon, o, i, c)
                  || Height(polygon, o, Successor(i, |polygon|), c) > Height(polygon, o, i, c)
    ensures var angle := o.angleOfLineWrtOxAxis(gammaPoint, polygon[i]);
            var flush := FlushAngleAt(polygon, o, i, c);
            flush.Some? && OnPredecessorSide(polygon, o, angle, flush.value, i) ==>
              (r <==> Height(polygon, o, Predecessor(i, |polygon|), c) > Height(polygon, o, i, c))
    ensures var angle := o.angleOfLineWrtOxAxis(gammaPoint, polygon[i]);
            var flush := FlushAngleAt(polygon, o, i, c);
            && flush.Some?
            && !OnPredecessorSide(polygon, o, angle, flush.value, i)
            && OnSuccessorSide(polygon, o, angle, flush.value, i) ==>
              (r <==> Height(polygon, o, Successor(i, |polygon|), c) > Height(polygon, o, i, c))
    ensures var angle := o.angleOfLineWrtOxAxis(gammaPoint, polygon[i]);
            var flush := FlushAngleAt(polygon, o, i, c);
            && flush.Some?
            && !OnPredecessorSide(polygon, o, angle, flush.value, i)
            && !OnSuccessorSide(polygon, o, angle, flush.value, i)
            ==> !r
    ensures FlushAngleAt(polygon, o, i, c).None? ==> !r
  {
    IntersectsAt(polygon, o, o.angleOfLineWrtOxAxis(gammaPoint, polygon[i]), i, c) == Above
  }

  /** Loop condition of advanceBToRightChain at b: the vertex after b is (tolerantly)
      at least as high. */
  function RightChainContinues(polygon: seq<Point>, o: Oracle, c: U32): (r: U32 -> bool)
    requires SweepablePolygon(polygon) && c < |polygon|
  {
    (b: U32) => b < |polygon|
                && GreaterOrEqual(Height(polygon, o, Successor(b, |polygon|), c), Height(polygon, o, b, c))
  }

  /** advanceBToRightChain: advance b while the next vertex is (tolerantly) at least as high.
      On exit b is in range and the next vertex is strictly lower. */
  function AdvanceBToRightChain(polygon: seq<Point>, o: Oracle, b: U32, c: U32, fuel: nat): (r: Option<U32>)
    requires SweepablePolygon(polygon) && b < |polygon| && c < |polygon|
    ensures r.Some? ==> r.value < |polygon|
    ensures r.Some? ==> !GreaterOrEqual(Height(polygon, o, Successor(r.value, |polygon|), c),
                                        Height(polygon, o, r.value, c))
  {
    AdvanceWhile(RightChainContinues(polygon, o, c), b, |polygon|, fuel)
  }

  /** Loop condition of moveAIfLowAndBIfHigh: b is strictly higher than a. */
  function BHigherThanA(polygon: seq<Point>, o: Oracle, c: U32): (r: (U32, U32) -> bool)
    requires SweepablePolygon(polygon) && c < |polygon|
  {
    (a: U32, b: U32) => a < |polygon| && b < |polygon| && Height(polygon, o, b, c) > Height(polygon, o, a, c)
  }

  /** Branch of moveAIfLowAndBIfHigh: gamma(a) exists and the line through it and P[a]
      cuts below b. */
  function GammaOfACutsBelowB(polygon: seq<Point>, o: Oracle, c: U32): (r: (U32, U32) -> bool)
    requires SweepablePolygon(polygon) && c < |polygon|
  {
    (a: U32, b: U32) => a < |polygon| && b < |polygon|
                        && var gammaOfA := o.gamma(a, a, c);
                           gammaOfA.Some? && IntersectsBelow(polygon, o, gammaOfA.value, b, c)
  }

  /** moveAIfLowAndBIfHigh: while b is higher than a, advance b if the line through
      gamma(a) and P[a] cuts below b, and advance a otherwise. On exit both
      are in range and b is no higher than a. */
  function MoveAIfLowAndBIfHigh(polygon: seq<Point>, o: Oracle, a: U32, b: U32, c: U32, fuel: nat)
    : (r: Option<(U32, U32)>)
    requires SweepablePolygon(polygon) && a < |polygon| && b < |polygon| && c < |polygon|
    ensures r.Some? ==> r.value.0 < |polygon| && r.value.1 < |polygon|
    ensures r.Some? ==> Height(polygon, o, r.value.1, c) <= Height(polygon, o, r.value.0, c)
  {
    MoveWhile(BHigherThanA(polygon, o, c), GammaOfACutsBelowB(polygon, o, c), a, b, |polygon|, fuel)
  }

  /** The condition under which the B-tangency search keeps advancing b. */
  predicate BTangencyNotReached(polygon: seq<Point>, o: Oracle, a: U32, b: U32, c: U32)
    requires SweepablePolygon(polygon) && a < |polygon| && b < |polygon| && c < |polygon|
  {
    var gammaOfB := o.gamma(b, a, c);
    && gammaOfB.Some?
    && IntersectsBelow(polygon, o, gammaOfB.value, b, c)
    && GreaterOrEqual(Height(polygon, o, b, c), Height(polygon, o, Predecessor(a, |polygon|), c))
  }

  /** Loop condition of searchForBTangency at b. */
  function BTangencySearchContinues(polygon: seq<Point>, o: Oracle, a: U32, c: U32): (r: U32 -> bool)
    requires SweepablePolygon(polygon) && a < |polygon| && c < |polygon|
  {
    (b: U32) => b < |polygon| && BTangencyNotReached(polygon, o, a, b, c)
  }

  /** searchForBTangency: advance b while gamma(b) exists, the line through it cuts
      below b, and b is (tolerantly) at least as high as a-1. */
  function SearchForBTangency(polygon: seq<Point>, o: Oracle, a: U32, b: U32, c: U32, fuel: nat): (r: Option<U32>)
    requires SweepablePolygon(polygon) && a < |polygon| && b < |polygon| && c < |polygon|
    ensures r.Some? ==> r.value < |polygon|
    ensures r.Some? ==> !BTangencyNotReached(polygon, o, a, r.value, c)
  {
    AdvanceWhile(BTangencySearchContinues(polygon, o, a, c), b, |polygon|, fuel)
  }

  /** Tangency of side B was not obtained: the line through gamma(b) and
      P[b] cuts above b, or b is lower than a-1. When it was obtained, b is
      at least as high as a-1. */
  function IsNotBTangency(polygon: seq<Point>, o: Oracle, a: U32, b: U32, c: U32): (r: bool)
    requires SweepablePolygon(polygon) && a < |polygon| && b < |polygon| && c < |polygon|
    ensures !r ==> GreaterOrEqual(Height(polygon, o, b, c), Height(polygon, o, Predecessor(a, |polygon|), c))
    ensures r && o.gamma(b, a, c).None? ==>
              Height(polygon, o, b, c) < Height(polygon, o, Predecessor(a, |polygon|), c)
    ensures Height(polygon, o, b, c) < Height(polygon, o, Predecessor(a, |polygon|), c) ==> r
    ensures o.gamma(b, a, c).Some? && IntersectsAbove(polygon, o, o.gamma(b, a, c).value, b, c) ==> r
    ensures (&& o.gamma(b, a, c).Some? && !IntersectsAbove(polygon, o, o.gamma(b, a, c).value, b, c)
             && !(Height(polygon, o, b, c) < Height(polygon, o, Predecessor(a, |polygon|), c))) ==> !r
  {
    var gammaOfB := o.gamma(b, a, c);
    || (gammaOfB.Some? && IntersectsAbove(polygon, o, gammaOfB.value, b, c))
    || Height(polygon, o, b, c) < Height(polygon, o, Predecessor(a, |polygon|), c)
  }

  /** The three sides of a candidate and the flag saying how to validate it. */
  datatype Configuration = Configuration(flag: ValidationFlag, sideA: Side, sideB: Side, sideC: Side)

  /** No B-tangency: side B is flush with edge (b-1, b). If the midpoint of
      side B is lower than a-1, side A is made tangent at a-1 by ending it at
      the point of side B at twice that height (fatal if that point does not
      exist); otherwise both sides stay flush. */
  function UpdateSidesBA(polygon: seq<Point>, o: Oracle, a: U32, b: U32, c: U32, sideA: Side, sideC: Side)
    : (r: Result<Configuration, SweepError>)
    requires SweepablePolygon(polygon) && a < |polygon| && b < |polygon| && c < |polygon|
    ensures r.Success? ==> r.value.sideB == Side(polygon[Predecessor(b, |polygon|)], polygon[b])
    ensures r.Success? ==> r.value.sideC == sideC && r.value.flag != SideBTangent
    ensures r.Success? && r.value.flag == SidesFlush ==> r.value.sideA == sideA
    ensures r.Success? && r.value.flag == SideATangent ==>
              r.value.sideA.start == polygon[Predecessor(a, |polygon|)]
              && MiddlePointOfSideB(sideA, r.value.sideB, sideC).Some?
    ensures r.Failure? ==> r.error == VertexCOnSideBUndefined
    ensures var sideB := Side(polygon[Predecessor(b, |polygon|)], polygon[b]);
            var middle := MiddlePointOfSideB(sideA, sideB, sideC);
            var lowMiddle := middle.Some? && HeightOfPoint(polygon, o, middle.value, c)
                                             < Height(polygon, o, Predecessor(a, |polygon|), c);
            && (r.Success? ==> (r.value.flag == SideATangent <==> lowMiddle))
            && (r.Failure? <==> lowMiddle && o.vertexCOnSideB(a, c, sideB, sideC).None?)
            && (r.Success? && r.value.flag == SideATangent ==>
                  o.vertexCOnSideB(a, c, sideB, sideC) == Some(r.value.sideA.end))
  {
    var n := |polygon|;
    var sideB := Side(polygon[Predecessor(b, n)], polygon[b]);
    var sideBMiddlePoint := MiddlePointOfSideB(sideA, sideB, sideC);
    if sideBMiddlePoint.Some?
       && HeightOfPoint(polygon, o, sideBMiddlePoint.value, c) < Height(polygon, o, Predecessor(a, n), c)
    then
      match o.vertexCOnSideB(a, c, sideB, sideC)
      case None => Failure(VertexCOnSideBUndefined)
      case Some(vertexC) => Success(Configuration(SideATangent, Side(polygon[Predecessor(a, n)], vertexC), sideB, sideC))
    else
      Success(Configuration(SidesFlush, sideA, sideB, sideC))
  }

  /** B-tangency: side B runs from gamma(b) to P[b]; a missing gamma(b) is
      the fatal error ERR_SIDE_B_GAMMA. */
  function UpdateSideB(polygon: seq<Point>, o: Oracle, a: U32, b: U32, c: U32): (r: Result<Side, SweepError>)
    requires SweepablePolygon(polygon) && a < |polygon| && b < |polygon| && c < |polygon|
    ensures r.Success? <==> o.gamma(b, a, c).Some?
    ensures r.Success? ==> r.value == Side(o.gamma(b, a, c).value, polygon[b])
    ensures r.Failure? ==> r.error == SideBGammaUndefined
  {
    match o.gamma(b, a, c)
    case None => Failure(SideBGammaUndefined)
    case Some(gammaOfB) => Success(Side(gammaOfB, polygon[b]))
  }

  /** updateSidesCA, then isNotBTangency choosing between updateSidesBA and
      updateSideB: sides C and A flush with their edges, then either
      side B tangent at b (when IsNotBTangency fails) or side B flush, with
      side A possibly made tangent at a-1. */
  function PlaceSides(polygon: seq<Point>, o: Oracle, a: U32, b: U32, c: U32): (r: Result<Configuration, SweepError>)
    requires SweepablePolygon(polygon) && a < |polygon| && b < |polygon| && c < |polygon|
    ensures r.Success? ==> r.value.sideC == Side(polygon[Predecessor(c, |polygon|)], polygon[c])
    ensures r.Success? ==> (r.value.flag == SideBTangent <==> !IsNotBTangency(polygon, o, a, b, c))
    ensures r.Success? && r.value.flag == SideBTangent ==>
              r.value.sideA == Side(polygon[Predecessor(a, |polygon|)], polygon[a])
              && o.gamma(b, a, c) == Some(r.value.sideB.start) && r.value.sideB.end == polygon[b]
    ensures r.Success? && r.value.flag == SidesFlush ==>
              r.value.sideA == Side(polygon[Predecessor(a, |polygon|)], polygon[a])
              && r.value.sideB == Side(polygon[Predecessor(b, |polygon|)], polygon[b])
    ensures r.Success? && r.value.flag == SideATangent ==>
              r.value.sideA.start == polygon[Predecessor(a, |polygon|)]
              && r.value.sideB == Side(polygon[Predecessor(b, |polygon|)], polygon[b])
    ensures r.Failure? ==> r.error != OutOfFuel
    ensures r == Failure(SideBGammaUndefined) <==> !IsNotBTangency(polygon, o, a, b, c) && o.gamma(b, a, c).None?
    ensures IsNotBTangency(polygon, o, a, b, c) ==>
              r == UpdateSidesBA(polygon, o, a, b, c, Side(polygon[Predecessor(a, |polygon|)], polygon[a]),
                                 Side(polygon[Predecessor(c, |polygon|)], polygon[c]))
  {
    var n := |polygon|;
    var sideC := Side(polygon[Predecessor(c, n)], polygon[c]);
    var sideA := Side(polygon[Predecessor(a, n)], polygon[a]);
    if IsNotBTangency(polygon, o, a, b, c) then
      UpdateSidesBA(polygon, o, a, b, c, sideA, sideC)
    else
      var sideB :- UpdateSideB(polygon, o, a, b, c);
      Success(Configuration(SideBTangent, sideA, sideB, sideC))
  }

  /** After the B-tangency search stops at b, the tangency test there is
      decided by the heights alone when gamma(b) is missing, and always fails
      when gamma(b) exists and the line through it cuts below b (the search
      only stops then because b is lower than a-1). */
  lemma {:induction false} IsNotBTangencyAfterSearch(polygon: seq<Point>, o: Oracle, a: U32, b: U32, c: U32, fuel: nat)
    requires SweepablePolygon(polygon) && a < |polygon| && b < |polygon| && c < |polygon|
    ensures var found := SearchForBTangency(polygon, o, a, b, c, fuel);
            && found.Some? && o.gamma(found.value, a, c).Some?
            && IntersectsBelow(polygon, o, o.gamma(found.value, a, c).value, found.value, c)
            ==> IsNotBTangency(polygon, o, a, found.value, c)
    ensures var found := SearchForBTangency(polygon, o, a, b, c, fuel);
            found.Some? && o.gamma(found.value, a, c).None? ==>
              (IsNotBTangency(polygon, o, a, found.value, c)
               <==> Height(polygon, o, found.value, c) < Height(polygon, o, Predecessor(a, |polygon|), c))
  {
    var found := SearchForBTangency(polygon, o, a, b, c, fuel);
    if found.Some? {
      assert !BTangencyNotReached(polygon, o, a, found.value, c);
    }
  }

  /** The sweep state between iterations over c. */
  datatype State = State(a: U32, b: U32, best: Best)

  /** The candidate built at indices a, b for flush side c: the sides
      placed by PlaceSides, intersected and validated by
      IsLocalMinimalTriangle (None when that rejects them). */
  function StepCandidate(polygon: seq<Point>, o: Oracle, a: U32, b: U32, c: U32): (r: Result<Option<Triangle>, SweepError>)
    requires SweepablePolygon(polygon) && a < |polygon| && b < |polygon| && c < |polygon|
    ensures r.Success? <==> PlaceSides(polygon, o, a, b, c).Success?
    ensures r.Success? ==>
              var config := PlaceSides(polygon, o, a, b, c).value;
              r.value == IsLocalMinimalTriangle(polygon[Predecessor(a, |polygon|)], polygon[b], config.flag,
                                                config.sideA, config.sideB, config.sideC, o.isPointOnLineSegment)
    ensures r.Success? && r.value.Some? ==>
              var config := PlaceSides(polygon, o, a, b, c).value;
              IsValidMinimalTriangle(r.value.value, polygon[Predecessor(a, |polygon|)], polygon[b], config.flag,
                                     config.sideA, config.sideB, config.sideC, o.isPointOnLineSegment)
  {
    var config :- PlaceSides(polygon, o, a, b, c);
    Success(IsLocalMinimalTriangle(polygon[Predecessor(a, |polygon|)], polygon[b], config.flag,
                                   config.sideA, config.sideB, config.sideC, o.isPointOnLineSegment))
  }

  /** One iteration of the loop over the flush index c: advanceBToRightChain,
      moveAIfLowAndBIfHigh and searchForBTangency move b and a, then the
      candidate for the indices reached is offered to the best result.
      The indices stay in range, the best area never grows, and a recorded
      triangle always carries its own area. */
  function SweepStep(polygon: seq<Point>, o: Oracle, c: U32, s: State, fuel: nat): (r: Result<State, SweepError>)
    requires SweepablePolygon(polygon) && c < |polygon| && s.a < |polygon| && s.b < |polygon|
    ensures r.Success? ==> r.value.a < |polygon| && r.value.b < |polygon|
    ensures r.Success? ==> r.value.best.area <= s.best.area
    ensures r.Success? && Consistent(s.best) ==> Consistent(r.value.best)
    ensures r.Success? ==> var candidate := StepCandidate(polygon, o, r.value.a, r.value.b, c);
                           && candidate.Success?
                           && r.value.best == Offer(s.best, candidate.value)
    ensures r.Success? ==> Reaches(s.a, r.value.a, |polygon|) && Reaches(s.b, r.value.b, |polygon|)
    ensures r.Success? ==> !BTangencyNotReached(polygon, o, r.value.a, r.value.b, c)
  {
    var n := |polygon|;
    var b1 :- AdvanceBToRightChain(polygon, o, s.b, c, fuel).ToResult(OutOfFuel);
    var ab :- MoveAIfLowAndBIfHigh(polygon, o, s.a, b1, c, fuel).ToResult(OutOfFuel);
    var a := ab.0;
    var b :- SearchForBTangency(polygon, o, a, ab.1, c, fuel).ToResult(OutOfFuel);
    var candidate :- StepCandidate(polygon, o, a, b, c);
    AdvanceWhileReaches(RightChainContinues(polygon, o, c), s.b, n, fuel);
    MoveWhileReaches(BHigherThanA(polygon, o, c), GammaOfACutsBelowB(polygon, o, c), s.a, b1, n, fuel);
    AdvanceWhileReaches(BTangencySearchContinues(polygon, o, a, c), ab.1, n, fuel);
    ReachesTransitive(s.b, b1, ab.1, n);
    ReachesTransitive(s.b, ab.1, b, n);
    Success(State(a, b, Offer(s.best, candidate)))
  }

  /** The validated candidates the loop over c offers from `c` on, in order. */
  function SweepCandidates(polygon: seq<Point>, o: Oracle, c: U32, s: State, fuel: nat): (r: Result<seq<Triangle>, SweepError>)
    requires SweepablePolygon(polygon) && c <= |polygon| && s.a < |polygon| && s.b < |polygon|
    ensures r.Success? ==> |r.value| <= |polygon| - c
    decreases |polygon| - c
  {
    if c == |polygon| then
      Success([])
    else
      var next :- SweepStep(polygon, o, c, s, fuel);
      var rest :- SweepCandidates(polygon, o, c + 1, next, fuel);
      Success(Offered(StepCandidate(polygon, o, next.a, next.b, c).value) + rest)
  }

  /** The loop `for c = from .. n-1`. It succeeds exactly when collecting its
      candidates does, and its result is the starting best offered every
      validated candidate in turn. */
  function SweepFrom(polygon: seq<Point>, o: Oracle, c: U32, s: State, fuel: nat): (r: Result<Best, SweepError>)
    requires SweepablePolygon(polygon) && c <= |polygon| && s.a < |polygon| && s.b < |polygon|
    ensures r.Success? ==> r.value.area <= s.best.area
    ensures r.Success? && Consistent(s.best) ==> Consistent(r.value)
    ensures r.Success? <==> SweepCandidates(polygon, o, c, s, fuel).Success?
    ensures r.Success? ==> r.value == UpdateAll(s.best, SweepCandidates(polygon, o, c, s, fuel).value)
    decreases |polygon| - c
  {
    if c == |polygon| then
      Success(s.best)
    else
      var next :- SweepStep(polygon, o, c, s, fuel);
      var r := SweepFrom(polygon, o, c + 1, next, fuel);
      if r.Success? then
        UpdateAllConcat(s.best, Offered(StepCandidate(polygon, o, next.a, next.b, c).value),
                        SweepCandidates(polygon, o, c + 1, next, fuel).value);
        r
      else
        r
  }

  /** The sweep proper, from (a, b, c) = (1, 2, 0) and the empty result: on
      success, the empty result offered every validated candidate. So the
      result is either still empty, with area DBL_MAX (no candidate passed
      validation), or a triangle carrying its own area. */
  function FindMinimumAreaEnclosingTriangle(polygon: seq<Point>, o: Oracle, fuel: nat): (r: Result<Best, SweepError>)
    requires SweepablePolygon(polygon)
    ensures r.Success? ==> Consistent(r.value) && 0.0 <= r.value.area
    ensures r.Success? ==> var candidates := SweepCandidates(polygon, o, 0, State(1, 2, Initialise()), fuel);
                           candidates.Success? && r.value == UpdateAll(Initialise(), candidates.value)
  {
    SweepFrom(polygon, o, 0, State(1, 2, Initialise()), fuel)
  }

  /** The sweep's result has an area no larger than any validated candidate
      and is either the empty result or one of the candidates; as soon as a
      candidate has an area below DBL_MAX, a triangle is returned. */
  lemma FindMinimumAreaIsSmallestCandidate(polygon: seq<Point>, o: Oracle, fuel: nat)
    requires SweepablePolygon(polygon)
    ensures var r := FindMinimumAreaEnclosingTriangle(polygon, o, fuel);
            var candidates := SweepCandidates(polygon, o, 0, State(1, 2, Initialise()), fuel);
            r.Success? ==>
              && candidates.Success?
              && (forall i :: 0 <= i < |candidates.value| ==> r.value.area <= Area(candidates.value[i]))
              && (|| r.value == Initialise()
                  || exists i :: 0 <= i < |candidates.value|
                       && r.value == Best(Vertices(candidates.value[i]), Area(candidates.value[i])))
              && ((exists i :: 0 <= i < |candidates.value| && Area(candidates.value[i]) < DblMax) ==>
                    |r.value.triangle| == 3)
  {
    var r := FindMinimumAreaEnclosingTriangle(polygon, o, fuel);
    var candidates := SweepCandidates(polygon, o, 0, State(1, 2, Initialise()), fuel);
    if r.Success? {
      UpdateAllKeepsMinimum(Initialise(), candidates.value);
      if exists i :: 0 <= i < |candidates.value| && Area(candidates.value[i]) < DblMax {
        assert r.value.area < DblMax;
        assert r.value != Initialise();
      }
    }
  }

  /** Entry point on a convex polygon (the convex hull of the input): the
      sweep for more than three vertices, the short-circuit otherwise. */
  function FindMinEnclosingTriangle(polygon: seq<Point>, o: Oracle, fuel: nat): (r: Result<Best, SweepError>)
    requires 1 <= |polygon| < U32Limit
    ensures |polygon| <= 3 ==> r.Success? && |r.value.triangle| == 3
    ensures |polygon| <= 3 ==> r == Success(ReturnMinimumAreaEnclosingTriangle(polygon))
    ensures |polygon| < 3 ==> r.Success? && r.value.area == 0.0
    ensures r.Success? ==> Consistent(r.value) && 0.0 <= r.value.area
    ensures r.Failure? ==> 3 < |polygon|
    ensures 3 < |polygon| ==> r == FindMinimumAreaEnclosingTriangle(polygon, o, fuel)
  {
    if |polygon| > 3 then
      FindMinimumAreaEnclosingTriangle(polygon, o, fuel)
    else
      Success(ReturnMinimumAreaEnclosingTriangle(polygon))
  }

  /** An iteration that did not run out of fuel gives the same outcome,
      success or fatal error, with any more fuel. */
  lemma SweepStepFuelMonotone(polygon: seq<Point>, o: Oracle, c: U32, s: State, fuel: nat, more: nat)
    requires SweepablePolygon(polygon) && c < |polygon| && s.a < |polygon| && s.b < |polygon| && fuel <= more
    ensures SweepStep(polygon, o, c, s, fuel) != Failure(OutOfFuel) ==>
              SweepStep(polygon, o, c, s, more) == SweepStep(polygon, o, c, s, fuel)
  {
    if SweepStep(polygon, o, c, s, fuel) != Failure(OutOfFuel) {
      var n := |polygon|;
      AdvanceWhileFuelMonotone(RightChainContinues(polygon, o, c), s.b, n, fuel, more);
      var b1 := AdvanceBToRightChain(polygon, o, s.b, c, fuel).value;
      MoveWhileFuelMonotone(BHigherThanA(polygon, o, c), GammaOfACutsBelowB(polygon, o, c), s.a, b1, n, fuel, more);
      var ab := MoveAIfLowAndBIfHigh(polygon, o, s.a, b1, c, fuel).value;
      AdvanceWhileFuelMonotone(BTangencySearchContinues(polygon, o, ab.0, c), ab.1, n, fuel, more);
    }
  }

  /** The same for the whole loop over c. */
  lemma {:induction false} SweepFromFuelMonotone(polygon: seq<Point>, o: Oracle, c: U32, s: State, fuel: nat, more: nat)
    requires SweepablePolygon(polygon) && c <= |polygon| && s.a < |polygon| && s.b < |polygon| && fuel <= more
    ensures SweepFrom(polygon, o, c, s, fuel) != Failure(OutOfFuel) ==>
              SweepFrom(polygon, o, c, s, more) == SweepFrom(polygon, o, c, s, fuel)
    decreases |polygon| - c
  {
    if c < |polygon| && SweepFrom(polygon, o, c, s, fuel) != Failure(OutOfFuel) {
      SweepStepFuelMonotone(polygon, o, c, s, fuel, more);
      var step := SweepStep(polygon, o, c, s, fuel);
      if step.Success? {
        SweepFromFuelMonotone(polygon, o, c + 1, step.value, fuel, more);
      }
    }
  }
}
