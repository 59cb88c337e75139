# Minimum-area enclosing triangle — a Dafny model

This project models the core of `bugtest_minEnclosingTriangle.cpp`. That file
implements the linear-time minimum-area enclosing triangle algorithm of
O'Rourke, Aggarwal, Maddila and Baldwin on a convex polygon. It also proves
properties of the model. The model follows the file's own structure:

- `CyclicIndex` (`cyclic_index.dfy`): the cyclic vertex index. This covers
  `successor`, `predecessor` and `advance` on 32-bit `unsigned int`, with the
  wrap-around written out.
- `Tolerance` (`tolerance.dfy`): the tolerant comparisons `almostEqual`,
  `greaterOrEqual`, `lessOrEqual`, `maximum` and `sign`, with EPSILON = 1e-5.
- `Angles` (`angles.dfy`): the direction predicates. These are
  `oppositeAngle`, `isAngleBetween`, `isAngleBetweenNonReflex`,
  `isOppositeAngleBetweenNonReflex` and `isFlushAngleBtwPredAndSucc`, plus the
  classifier `intersects` / `intersectsAboveOrBelow`.
  - Directions and heights are parameters here.
  - The C++ `(int)` cast and `%` are modelled as truncation toward zero
    (`Trunc`, `CQuot`, `CRem`).
- `Geometry` (`geometry.dfy`): line algebra. This covers
  `lineEquationDeterminedByPoints`, both forms of `lineIntersection`,
  `areIdenticalLines`, `areOnTheSameSideOfLine`, `areaOfTriangle`,
  `middlePoint` and `areEqualPoints`.
- `Candidates` (`candidates.dfy`): the running best result. This covers
  `initialise`, the short-circuit for polygons of at most three vertices,
  `updateMinimumAreaEnclosingTriangle`, `middlePointOfSideB`,
  `isLocalMinimalTriangle` and `isValidMinimalTriangle`.
- `Loops` (`loops.dfy`): the two loop shapes of the sweep over cyclic
  indices, with the loop condition as a parameter.
- `Sweep` (`sweep.dfy`): the main loop over the flush side C and its three
  index-moving loops, `isNotBTangency`, the side updates and the entry point
  on a convex polygon.

How the C++ is represented:

- Doubles are modelled as mathematical reals.
- Functions that write their result through a reference and return a
  success flag return an `Option` instead. This applies to
  `lineIntersection`, `middlePointOfSideB` and `isFlushAngleBtwPredAndSucc`.
- The two `CV_Error` paths of the sweep become `Failure` results.
- The `CV_Assert` in `lineEquationDeterminedByPoints` becomes a precondition.
- The computations built on `sqrt` and `atan2` are fields of an `Oracle`
  value given to the sweep: `distanceFromPointToLine`,
  `angleOfLineWrtOxAxis`, `gamma`, `findVertexCOnSideB` and
  `isPointOnLineSegment`.
- The while-loops of the sweep are bounded by a `fuel` argument, and running
  out of fuel is a `Failure`.
  - Lemmas show that fuel never changes an outcome that was reached.
  - Lemmas show that the loops only move their indices forward.

Two behaviours of `isAngleBetween` are proved as they are rather than
corrected.

- It truncates `angle2 - angle3` to an `int` before taking it modulo 180.
  So when `angle2` exceeds `angle3` by less than one degree, or by exactly
  180, it picks the empty orientation and reports nothing as lying between.
  See `Angles.IsAngleBetweenSubDegreeGap`, `Angles.IsAngleBetweenHalfTurn`
  and the concrete `Angles.IsAngleBetweenSubDegreeExample`.
- More generally it picks the empty orientation whenever `angle2` exceeds
  `angle3` by a whole multiple of 180 plus less than one degree: differences
  in (0, 1), [180, 181), [360, 361) and so on (`Angles.IsAngleBetweenQuirkRanges`).
  For instance 200 is not reported between 280.5 and 100
  (`Angles.IsAngleBetweenHalfTurnExample`).
- With a bound difference in [-180, 180) outside (0, 1) it is exactly
  open-interval membership, in either bound order
  (`Angles.IsAngleBetweenIsOpenInterval`). `isAngleBetweenNonReflex` only
  calls it with differences of at most 180 in magnitude, so there the quirks
  are the differences in (0, 1) and exactly 180.
- Whether the sub-degree case can arise for a real polygon depends on the
  polygon's angles. The model keeps the code's behaviour.

The point-pair `lineIntersection` computes its own coefficients,
`A = b.y - a.y`, `B = a.x - b.x`, `C = a.x*A + a.y*B`. It solves `A x + B y = C`
by Cramer's rule, with the same tolerant determinant test as the
coefficient form. The model states its result directly in terms of the two
lines through the given points.

## Model

| member | source | states |
|---|---|---|
| CyclicIndex.Successor | bugtest_minEnclosingTriangle.cpp:1139-1141 | the successor stays in [0, n), is i+1 below the last index and wraps the last index to 0 (the 32-bit unsigned `index + 1` is reduced modulo 2^32 first) |
| CyclicIndex.Predecessor | bugtest_minEnclosingTriangle.cpp:1151-1154 | the predecessor is i-1 for i > 0 and n-1 for i = 0, stays in [0, n) for an index in range, and for n = 0 wraps to 2^32-1 as unsigned subtraction does |
| CyclicIndex.Advance | bugtest_minEnclosingTriangle.cpp:1127-1129 | advancing keeps the index in range and is undone by the predecessor |
| CyclicIndex.PredecessorOfSuccessor | bugtest_minEnclosingTriangle.cpp:1139-1154 | predecessor inverts successor on [0, n) |
| CyclicIndex.SuccessorOfPredecessor | bugtest_minEnclosingTriangle.cpp:1139-1154 | successor inverts predecessor on [0, n) |
| CyclicIndex.PredecessorInjective | bugtest_minEnclosingTriangle.cpp:1151-1154 | distinct indices in range have distinct predecessors |
| CyclicIndex.AdvanceTimesIsModularAddition | bugtest_minEnclosingTriangle.cpp:1127-1141 | advancing k times from i lands on (i + k) mod n |
| CyclicIndex.AdvanceFullTurn | bugtest_minEnclosingTriangle.cpp:1127-1141 | advancing n times returns to the starting index |
| CyclicIndex.AdvanceTimesAdd | bugtest_minEnclosingTriangle.cpp:1127-1141 | advancing j times and then k times is advancing j + k times |
| CyclicIndex.ReachesTransitive | bugtest_minEnclosingTriangle.cpp:1127-1141 | an index reached from one reached from i is itself reached from i |
| Tolerance.Maximum | bugtest_minEnclosingTriangle.cpp:1533-1535 | the result is at least each argument and equal to one of them |
| Tolerance.AlmostEqual | bugtest_minEnclosingTriangle.cpp:1545-1547 | tolerant equality holds iff the gap is within EPSILON absolutely or relative to either operand; equal numbers are almost equal |
| Tolerance.AlmostEqualSymmetric | bugtest_minEnclosingTriangle.cpp:1545-1547 | tolerant equality does not depend on argument order |
| Tolerance.AlmostEqualZero | bugtest_minEnclosingTriangle.cpp:1545-1547 | a number is almost zero iff its magnitude is at most EPSILON |
| Tolerance.AlmostEqualNotTransitive | bugtest_minEnclosingTriangle.cpp:1545-1547 | 0 ≈ 1e-5 and 1e-5 ≈ 2e-5 but not 0 ≈ 2e-5 |
| Tolerance.GreaterOrEqual | bugtest_minEnclosingTriangle.cpp:1554-1556 | holds exactly when x is below y by at most EPSILON times the larger of 1, \|x\| and \|y\| (so x > y or almost equal); implied by x >= y, false only when x is more than EPSILON below y |
| Tolerance.LessOrEqual | bugtest_minEnclosingTriangle.cpp:1563-1565 | holds exactly when x is above y by at most EPSILON times the larger of 1, \|x\| and \|y\|; implied by x <= y, false only when x is more than EPSILON above y |
| Tolerance.LessOrEqualIsFlippedGreaterOrEqual | bugtest_minEnclosingTriangle.cpp:1554-1565 | lessOrEqual(x, y) is greaterOrEqual(y, x) |
| Tolerance.GreaterOrEqualTotal | bugtest_minEnclosingTriangle.cpp:1554-1556 | any two numbers are comparable tolerantly |
| Tolerance.Sign | bugtest_minEnclosingTriangle.cpp:1528-1530 | the sign is -1, 0 or 1, times x gives \|x\|, and is 0 exactly at 0 |
| Angles.CRem | bugtest_minEnclosingTriangle.cpp:1252 | C++ `%` on int: the remainder has the dividend's sign, magnitude below the modulus, and completes the truncated quotient |
| Angles.Trunc | bugtest_minEnclosingTriangle.cpp:1252 | the `(int)` cast truncates toward zero: same sign, magnitude within one below |
| Angles.OppositeAngle | bugtest_minEnclosingTriangle.cpp:1269-1272 | for a direction in [0, 360) the opposite lies in (0, 360] exactly 180 away, and 180 maps to 360 |
| Angles.OppositeAngleInvolution | bugtest_minEnclosingTriangle.cpp:1269-1272 | on (0, 360] taking the opposite twice is the identity |
| Angles.OppositeAngleOfZeroTwice | bugtest_minEnclosingTriangle.cpp:1269-1272 | direction 0 comes back as 360 after two opposites |
| Angles.IsAngleBetween | bugtest_minEnclosingTriangle.cpp:1251-1257 | a positive answer means angle1 lies strictly between the bounds |
| Angles.IsAngleBetweenIsOpenInterval | bugtest_minEnclosingTriangle.cpp:1251-1257 | with the bound difference in [-180, 180) and not in (0, 1), the test is exactly open-interval membership in either bound order |
| Angles.IsAngleBetweenSubDegreeGap | bugtest_minEnclosingTriangle.cpp:1252-1256 | when angle2 exceeds angle3 by less than one degree nothing lies between |
| Angles.IsAngleBetweenSubDegreeExample | bugtest_minEnclosingTriangle.cpp:1252-1256 | 10.25 is reported between 10.0 and 10.5 but not between 10.5 and 10.0 |
| Angles.IsAngleBetweenHalfTurn | bugtest_minEnclosingTriangle.cpp:1252-1256 | when angle2 exceeds angle3 by exactly 180 nothing lies between |
| Angles.IsAngleBetweenQuirkRanges | bugtest_minEnclosingTriangle.cpp:1252-1256 | when angle2 exceeds angle3 by 180k plus less than one degree (any k >= 0) nothing lies between |
| Angles.IsAngleBetweenHalfTurnExample | bugtest_minEnclosingTriangle.cpp:1252-1256 | 200 lies between 100 and 280.5 but is not reported between 280.5 and 100 |
| Angles.IsAngleBetweenNonReflex | bugtest_minEnclosingTriangle.cpp:1219-1231 | a positive answer means angle1 lies on the arc of at most 180 degrees between the bounds (crossing 0/360 when they are more than 180 apart) |
| Angles.IsAngleBetweenNonReflexMatchesArc | bugtest_minEnclosingTriangle.cpp:1219-1231 | for directions in [0, 360), away from the two quirks, the test is exactly membership in the non-reflex arc |
| Angles.IsAngleBetweenNonReflexSymmetric | bugtest_minEnclosingTriangle.cpp:1219-1231 | under the same conditions the answer does not depend on bound order |
| Angles.IsOppositeAngleBetweenNonReflex | bugtest_minEnclosingTriangle.cpp:1239-1243 | a positive answer means the opposite direction lies on the non-reflex arc between the bounds and is neither bound |
| Angles.IsOppositeAngleBetweenNonReflexMatchesArc | bugtest_minEnclosingTriangle.cpp:1239-1243 | for directions other than 180, away from the quirks, the answer is exactly whether the opposite direction lies on the non-reflex arc |
| Angles.FlushAngleBtwPredAndSucc | bugtest_minEnclosingTriangle.cpp:1165-1175 | the flush angle or, failing that, its opposite is returned when it lies in the vertex's arc; the flush angle itself is preferred; None exactly when neither lies there |
| Angles.IntersectsAboveOrBelow | bugtest_minEnclosingTriangle.cpp:882-890 | never critical; above exactly when the neighbour is strictly higher than the vertex |
| Angles.Intersects | bugtest_minEnclosingTriangle.cpp:835-872 | with a facing flush edge: a line on the predecessor side (arc to the flush edge, or almost the predecessor edge) is classified by the predecessor's height, one only on the successor side by the successor's height, and any other is critical; without one: never above, below inside the arc or almost along an edge but not the flush edge, otherwise critical |
| Angles.IntersectsMatchesArcs | bugtest_minEnclosingTriangle.cpp:835-872 | the same dispatch against the reference non-reflex arcs, for directions away from the quirks |
| Angles.IntersectsIgnoresHeightsOutsideFlushArc | bugtest_minEnclosingTriangle.cpp:858-871 | when the flush edge does not face the vertex, heights play no part |
| Angles.IntersectsNeverAboveAtPeak | bugtest_minEnclosingTriangle.cpp:835-890 | a vertex at least as high as both neighbours is never cut above |
| Geometry.AreEqualPoints | bugtest_minEnclosingTriangle.cpp:1517-1519 | equal points, and points within EPSILON in each coordinate, are reported equal |
| Geometry.AreEqualPointsSymmetric | bugtest_minEnclosingTriangle.cpp:1517-1519 | point equality does not depend on order |
| Geometry.LineEquationDeterminedByPoints | bugtest_minEnclosingTriangle.cpp:1442-1449 | for distinct points the equation is non-trivial and both points satisfy it |
| Geometry.LineEquationIsOrientation | bugtest_minEnclosingTriangle.cpp:1442-1449 | the equation evaluated at any point is minus the orientation of (p, q, s) |
| Geometry.LineIntersection | bugtest_minEnclosingTriangle.cpp:1370-1382 | an intersection is reported iff the determinant is not almost zero (iff its magnitude exceeds EPSILON) and it satisfies both equations |
| Geometry.LineIntersectionUnique | bugtest_minEnclosingTriangle.cpp:1370-1382 | when reported, the intersection is the only common point |
| Geometry.LineIntersectionOfPoints | bugtest_minEnclosingTriangle.cpp:1408-1428 | an intersection is reported iff the lines' direction cross product is not almost zero, and it is collinear with both point pairs |
| Geometry.LineIntersectionOfPointsUnique | bugtest_minEnclosingTriangle.cpp:1408-1428 | when reported, it is the only point on both lines |
| Geometry.LineIntersectionOfPointsSymmetric | bugtest_minEnclosingTriangle.cpp:1408-1428 | swapping the two lines does not change the answer |
| Geometry.AreIdenticalLines | bugtest_minEnclosingTriangle.cpp:1501-1510 | exactly proportional coefficient triples are reported identical |
| Geometry.AreIdenticalLinesOfMultiple | bugtest_minEnclosingTriangle.cpp:1501-1510 | a line is identical to any multiple of itself |
| Geometry.AreIdenticalLinesSymmetric | bugtest_minEnclosingTriangle.cpp:1501-1510 | the test does not depend on order |
| Geometry.AreOnTheSameSideOfLine | bugtest_minEnclosingTriangle.cpp:1458-1468 | same side iff both points have the same orientation sign relative to (a, b) |
| Geometry.AreOnTheSameSideOfLineSwapEnds | bugtest_minEnclosingTriangle.cpp:1458-1468 | the answer does not depend on the direction of the line |
| Geometry.AreaOfTriangle | bugtest_minEnclosingTriangle.cpp:1326-1333 | the area is half the absolute orientation determinant, non-negative, and zero exactly for collinear points |
| Geometry.AreaOfTrianglePermutation | bugtest_minEnclosingTriangle.cpp:1326-1333 | the area is the same for all six vertex orders |
| Geometry.AreaOfTriangleDegenerate | bugtest_minEnclosingTriangle.cpp:1326-1333 | two equal vertices give area zero |
| Geometry.AreaOfTriangleTranslation | bugtest_minEnclosingTriangle.cpp:1326-1333 | translating all vertices keeps the area |
| Geometry.AreaOfTriangleScaling | bugtest_minEnclosingTriangle.cpp:1326-1333 | scaling by s multiplies the area by s squared |
| Geometry.MiddlePoint | bugtest_minEnclosingTriangle.cpp:1340-1345 | the midpoint is equidistant from both ends in each coordinate and on their line |
| Geometry.MiddlePointSymmetric | bugtest_minEnclosingTriangle.cpp:1340-1345 | the midpoint does not depend on order |
| Geometry.MiddlePointOnLine | bugtest_minEnclosingTriangle.cpp:1340-1345 | the midpoint of two points of a line is on that line |
| Candidates.Initialise | bugtest_minEnclosingTriangle.cpp:385-390 | the initial result is empty with a positive area (DBL_MAX) |
| Candidates.ReturnMinimumAreaEnclosingTriangle | bugtest_minEnclosingTriangle.cpp:455-464 | three points taken cyclically from the polygon; a triangle is the polygon itself; fewer vertices give area zero; the area is the triangle's |
| Candidates.UpdateMinimumAreaEnclosingTriangle | bugtest_minEnclosingTriangle.cpp:747-761 | the best area never grows and is at most the candidate's; it shrinks exactly when the candidate is strictly smaller, and then the candidate and its own area are recorded; otherwise nothing changes |
| Candidates.InitialiseAcceptsFirstCandidate | bugtest_minEnclosingTriangle.cpp:385-390 | the first candidate below DBL_MAX replaces the empty result |
| Candidates.UpdateAllKeepsMinimum | bugtest_minEnclosingTriangle.cpp:747-761 | after a sequence of updates the area is at most the start and every candidate's, and the result is the start or one of the candidates |
| Candidates.UpdateAllConcat | bugtest_minEnclosingTriangle.cpp:747-761 | offering two batches of candidates one after the other is offering them all in order |
| Candidates.Offer | bugtest_minEnclosingTriangle.cpp:440-445 | a candidate that may be missing is offered as a sequence of zero or one triangles; a missing one changes nothing |
| Candidates.IsValidMinimalTriangle | bugtest_minEnclosingTriangle.cpp:714-737 | under each flag, valid exactly when the tangent side's midpoint is at its touching vertex (P[a-1] for A, P[b] for B) and each other checked midpoint is on its side's segment; side C is checked unless both sides are flush |
| Candidates.IsValidMinimalTriangleIgnoresUncheckedSide | bugtest_minEnclosingTriangle.cpp:714-737 | the side not checked under each flag does not influence the answer |
| Candidates.MiddlePointOfSideB | bugtest_minEnclosingTriangle.cpp:773-787 | a midpoint exists iff side B meets both other sides non-parallel; it is the midpoint of those two intersections and lies on side B's line |
| Candidates.IsLocalMinimalTriangle | bugtest_minEnclosingTriangle.cpp:671-691 | a triangle is returned exactly when all three side intersections exist and the triangle they form passes validation, and it is that triangle; each vertex lies on the two sides it joins |
| Candidates.MiddlePointOfSideBIsCandidateMidpoint | bugtest_minEnclosingTriangle.cpp:773-787 | the side-B midpoint used to decide tangency is the midpoint of side B of the candidate built from the same sides, so a valid side-B tangent candidate touches P[b] there |
| Loops.AdvanceWhile | bugtest_minEnclosingTriangle.cpp:475-482 | the `while (cond) advance` loop shared by `advanceBToRightChain` and `searchForBTangency`: on exit the index is in range and the condition fails there |
| Loops.AdvanceWhileStopsAtFirstExit | bugtest_minEnclosingTriangle.cpp:518-530 | the loop stops at the first index, counting forward, where the condition fails, after fewer steps than the fuel |
| Loops.AdvanceWhileReaches | bugtest_minEnclosingTriangle.cpp:475-482 | the loop only moves its index forward |
| Loops.AdvanceWhileFinishesWithEnoughFuel | bugtest_minEnclosingTriangle.cpp:475-482 | if the condition fails k steps ahead and the fuel exceeds k, the loop finishes |
| Loops.AdvanceWhileFuelMonotone | bugtest_minEnclosingTriangle.cpp:475-482 | more fuel leaves a finished loop's result unchanged |
| Loops.MoveWhile | bugtest_minEnclosingTriangle.cpp:494-506 | the two-index loop of `moveAIfLowAndBIfHigh`: on exit both indices are in range and the loop condition fails |
| Loops.MoveWhileMovesForward | bugtest_minEnclosingTriangle.cpp:494-506 | the result is a advanced ka times and b advanced kb times, with ka + kb below the fuel |
| Loops.MoveWhileReaches | bugtest_minEnclosingTriangle.cpp:494-506 | neither index of the two-index loop moves backwards |
| Loops.MoveWhileFuelMonotone | bugtest_minEnclosingTriangle.cpp:494-506 | more fuel leaves a finished loop's result unchanged |
| Sweep.IntersectsAbove | bugtest_minEnclosingTriangle.cpp:819-825 | with a facing flush edge, cutting above vertex i on one neighbour's side happens exactly when that neighbour is strictly higher over side C, and never on neither side; without one never; so it needs a strictly higher neighbour |
| Sweep.IntersectsBelow | bugtest_minEnclosingTriangle.cpp:800-806 | the line from P[i] towards the gamma point cuts below exactly when the neighbour on its side of the facing flush edge is no higher than P[i], only on one of those sides; without a facing flush edge exactly when it is between i's edges or almost along one of them but not along the flush edge |
| Sweep.IntersectsAt | bugtest_minEnclosingTriangle.cpp:835-872 | the classifier at vertex i with i's own edge directions and heights: a neighbour's side of the facing flush edge is classified by that neighbour's height, neither side is critical; without a facing flush edge below exactly when the line is between i's edges or almost along one of them but not along the flush edge, critical otherwise |
| Sweep.AdvanceBToRightChain | bugtest_minEnclosingTriangle.cpp:475-482 | on exit b is in range and its successor is tolerantly lower |
| Sweep.MoveAIfLowAndBIfHigh | bugtest_minEnclosingTriangle.cpp:494-506 | on exit a and b are in range and b is no higher than a |
| Sweep.SearchForBTangency | bugtest_minEnclosingTriangle.cpp:518-530 | on exit b is in range and the loop condition fails at b |
| Sweep.IsNotBTangency | bugtest_minEnclosingTriangle.cpp:542-554 | non-tangency holds exactly when b is lower than a-1 or gamma(b) exists and its line cuts above b: each suffices, and with gamma(b) cutting no higher and b not lower it fails; when tangency was obtained b is tolerantly at least as high as a-1 |
| Sweep.IsNotBTangencyAfterSearch | bugtest_minEnclosingTriangle.cpp:518-554 | where the B-tangency search stops with gamma(b) cutting below b, tangency is not obtained; with no gamma(b) the heights alone decide |
| Sweep.UpdateSidesBA | bugtest_minEnclosingTriangle.cpp:598-624 | side B becomes flush with edge (b-1, b); side A becomes tangent at a-1, ending at the oracle's vertex C on side B, exactly when side B has a midpoint lower than a-1, and otherwise stays as it was; only a missing vertex C in that case is fatal |
| Sweep.UpdateSideB | bugtest_minEnclosingTriangle.cpp:639-650 | side B runs from gamma(b) to P[b]; it fails exactly when gamma(b) is undefined |
| Sweep.PlaceSides | bugtest_minEnclosingTriangle.cpp:427-439 | sides C and A start flush; when the tangency test holds the outcome is updateSidesBA's on those sides, otherwise side B is tangent, running from gamma(b) to P[b], and the only fatal error is a missing gamma(b) |
| Sweep.StepCandidate | bugtest_minEnclosingTriangle.cpp:440-445 | the candidate is IsLocalMinimalTriangle of the sides PlaceSides places, with P[a-1], P[b] and the configuration's flag; when present it passes the midpoint validation under that flag |
| Sweep.SweepStep | bugtest_minEnclosingTriangle.cpp:423-446 | one iteration moves a and b only forward, stops them where the B-tangency search condition fails, and offers the candidate built and validated at those indices to the best result, which never grows in area and stays consistent |
| Sweep.SweepCandidates | bugtest_minEnclosingTriangle.cpp:423-446 | the validated candidates offered from c on, at most one per remaining flush side |
| Sweep.SweepFrom | bugtest_minEnclosingTriangle.cpp:423-446 | the loop over c succeeds exactly when collecting its candidates does, and its result is the starting best offered every validated candidate in order; the area never grows and consistency is kept |
| Sweep.FindMinimumAreaEnclosingTriangle | bugtest_minEnclosingTriangle.cpp:398-447 | on success the result is the empty result offered every validated candidate; it is empty with DBL_MAX or a triangle carrying its own non-negative area |
| Sweep.FindMinimumAreaIsSmallestCandidate | bugtest_minEnclosingTriangle.cpp:423-446 | the result's area is at most every validated candidate's, the result is empty or one of the candidates, and a candidate below DBL_MAX means a triangle is returned |
| Sweep.FindMinEnclosingTriangle | bugtest_minEnclosingTriangle.cpp:359-368 | polygons of more than three vertices get the sweep's result; those of at most three always succeed with the short-circuit result, the polygon's own vertices taken cyclically (area 0 below three); every success is consistent |
| Sweep.SweepStepFuelMonotone | bugtest_minEnclosingTriangle.cpp:423-446 | an iteration that did not run out of fuel has the same outcome with more |
| Sweep.SweepFromFuelMonotone | bugtest_minEnclosingTriangle.cpp:423-446 | the loop over c, once it did not run out of fuel, has the same outcome with more |

## Left out

- `main` and the OpenCV entry points are not modelled. These are
  `minEnclosingTriangle`, the point-set `findMinEnclosingTriangle`,
  `createConvexHull` and `copyResultingTriangle`. They are I/O and calls into
  OpenCV (the convex hull). The model starts from the convex polygon.
- `distanceFromPointToLine`, `distanceBtwPoints`, `angleOfLineWrtOxAxis`,
  `isPointOnLineSegment`, `gamma`, `findGammaIntersectionPoints`,
  `findVertexCOnSideB`, `lineEquationParameters`, `areIntersectingLines` and
  the vector form of `areIdenticalLines` are not modelled. They compute with
  `sqrt` and `atan2`, or only feed `gamma`. The sweep takes them as `Oracle`
  parameters.
- Floating-point rounding is not modelled: reals replace `double` and
  `float`. This includes the casts to `float` in `lineIntersection` and
  `middlePoint`, and `EPSILON`'s binary representation.
- `Loops.AdvanceWhile` and `Loops.MoveWhile` are bounded by fuel. They
  implement `Sweep.AdvanceBToRightChain`, `Sweep.MoveAIfLowAndBIfHigh` and
  `Sweep.SearchForBTangency`. The source's loops are
  unbounded, and their termination depends on the geometry. Running out of
  fuel is reported as a failure rather than as non-termination.
- `Angles.Trunc`: the `(int)` cast is not modelled as undefined for values
  outside the `int` range. Directions lie in [0, 360), so this does not
  arise.
- `isGammaAngleBtw` and `isGammaAngleEqualTo` are one-line aliases. They are
  folded into `Angles.Intersects` as `IsAngleBetweenNonReflex` and
  `AlmostEqual`.
- `updateSidesCA` is inlined in `Sweep.PlaceSides`. It only sets sides A and C
  flush with edges (a-1, a) and (c-1, c).
- The abort of the `CV_Assert(!areEqualPoints(p, q))` in
  `lineEquationDeterminedByPoints` is not modelled where it is reached from
  inside the `Oracle`. `gamma` reaches it through `areOnTheSameSideOfLine`
  on P[c] and P[c-1], and through `findGammaIntersectionPoints` and
  `lineEquationParameters`. Two hull vertices within the relative tolerance,
  such as (100000, 0) and (100000.5, 0), make the source abort there. The
  model's `gamma` instead returns a point or None, because those
  computations are parameters.
- `height` has both overloads modelled, as `Sweep.Height` and
  `Sweep.HeightOfPoint`. They are computed through the distance oracle and
  carry no contract.
- `Geometry.AreEqualPoints`: only the sufficient conditions are stated. The
  exact condition is tolerant equality of both coordinates, which would
  restate the code.
- `Geometry.AreIdenticalLines`: only exact proportionality is stated as
  sufficient. Tolerant proportionality has no simpler exact description.
- The claim that the sweep finds the global minimum is not stated. That
  optimality is the published paper's theorem. The model proves only the
  bookkeeping: the result is the empty result offered every validated
  candidate in turn, so its area is at most every candidate's, and a
  recorded triangle carries its own area.
- `Sweep.FindMinEnclosingTriangle`: polygons with 2^32 or more vertices are
  excluded, because the source stores the count in an `unsigned int`.
