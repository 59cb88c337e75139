/** Exact line algebra on real-valued points: line equations, intersections,
    side-of-line tests, triangle areas and midpoints. */
module Geometry {
  import opened Options
  import opened Tolerance

  datatype Point = Point(x: real, y: real)

  /** Orientation determinant: twice the signed area of (o, p, q). It is
      positive when q lies to the left of the directed line o -> p and zero
      exactly when the three points are collinear. */
  function Cross(o: Point, p: Point, q: Point): (r: real) {
    (p.x - o.x) * (q.y - o.y) - (p.y - o.y) * (q.x - o.x)
  }

  /** Cross product of the direction vectors of the lines (p1, q1) and (p2, q2);
      zero exactly when the lines are parallel. */
  function DirectionCross(p1: Point, q1: Point, p2: Point, q2: Point): (r: real) {
    (q1.x - p1.x) * (q2.y - p2.y) - (q1.y - p1.y) * (q2.x - p2.x)
  }

  /** Tolerant point equality: both coordinates almost equal. */
  function AreEqualPoints(p: Point, q: Point): (r: bool)
    ensures p == q ==> r
    ensures Abs(p.x - q.x) <= Epsilon && Abs(p.y - q.y) <= Epsilon ==> r
  {
    AlmostEqual(p.x, q.x) && AlmostEqual(p.y, q.y)
  }

  lemma AreEqualPointsSymmetric(p: Point, q: Point)
    ensures AreEqualPoints(p, q) == AreEqualPoints(q, p)
  {
    AlmostEqualSymmetric(p.x, q.x);
    AlmostEqualSymmetric(p.y, q.y);
  }

  /** A line a*x + b*y + c = 0. */
  datatype LineEq = LineEq(a: real, b: real, c: real)

  function Eval(l: LineEq, p: Point): (r: real) {
    l.a * p.x + l.b * p.y + l.c
  }

  /** The coefficients the source computes for the line through p and q. */
  function LineThrough(p: Point, q: Point): (r: LineEq) {
    var a := q.y - p.y;
    var b := p.x - q.x;
    LineEq(a, b, (-p.y) * b - p.x * a)
  }

  lemma LineThroughIsOrientation(p: Point, q: Point, s: Point)
    ensures Eval(LineThrough(p, q), s) == -Cross(p, q, s)
  {
    var l := LineThrough(p, q);
    var a, b := l.a, l.b;
    assert Eval(l, s) == a * s.x + b * s.y + ((-p.y) * b - p.x * a);
    assert a * s.x - p.x * a == a * (s.x - p.x);
    assert b * s.y - p.y * b == b * (s.y - p.y);
  }

  /** The line through two points that are not (almost) equal; the source
      asserts this of its callers. Both points satisfy its equation, and its
      normal (a, b) is not zero. */
  function LineEquationDeterminedByPoints(p: Point, q: Point): (r: LineEq)
    requires !AreEqualPoints(p, q)
    ensures r.a != 0.0 || r.b != 0.0
    ensures Eval(r, p) == 0.0 && Eval(r, q) == 0.0
  {
    LineThroughIsOrientation(p, q, p);
    LineThroughIsOrientation(p, q, q);
    LineThrough(p, q)
  }

  /** The equation of the line through p and q evaluates, at any point s, to
      minus the orientation of (p, q, s): it vanishes exactly on the points
      collinear with p and q, and its sign tells the two sides apart. */
  lemma LineEquationIsOrientation(p: Point, q: Point, s: Point)
    requires !AreEqualPoints(p, q)
    ensures Eval(LineEquationDeterminedByPoints(p, q), s) == -Cross(p, q, s)
  {
    LineThroughIsOrientation(p, q, s);
  }

  lemma CancelNonZero(u: real, v: real, d: real)
    requires d != 0.0 && u * d == v * d
    ensures u == v
  {
    assert (u - v) * d == 0.0;
  }

  /** Cramer's rule solves the system whenever its determinant is non-zero. */
  lemma CramerSolves(a1: real, b1: real, c1: real, a2: real, b2: real, c2: real)
    requires a1 * b2 - a2 * b1 != 0.0
    ensures var det := a1 * b2 - a2 * b1;
            var x := (c1 * b2 - c2 * b1) / det;
            var y := (c2 * a1 - c1 * a2) / det;
            a1 * x + b1 * y == c1 && a2 * x + b2 * y == c2
  {
    var det := a1 * b2 - a2 * b1;
    var bigX, bigY := c1 * b2 - c2 * b1, c2 * a1 - c1 * a2;
    var x, y := bigX / det, bigY / det;
    assert x * det == bigX;
    assert y * det == bigY;
    assert (a1 * x + b1 * y) * det == a1 * (x * det) + b1 * (y * det);
    assert a1 * bigX + b1 * bigY == c1 * det;
    CancelNonZero(a1 * x + b1 * y, c1, det);
    assert (a2 * x + b2 * y) * det == a2 * (x * det) + b2 * (y * det);
    assert a2 * bigX + b2 * bigY == c2 * det;
    CancelNonZero(a2 * x + b2 * y, c2, det);
  }

  /** Intersection of the lines a1*x + b1*y = c1 and a2*x + b2*y = c2 (note the
      constant on the right-hand side). It exists iff the determinant
      a1*b2 - a2*b1 is not almost zero, i.e. has magnitude above EPSILON, and
      then lies on both lines. None means the output point is left untouched. */
  function LineIntersection(a1: real, b1: real, c1: real, a2: real, b2: real, c2: real): (r: Option<Point>)
    ensures r.Some? <==> !AlmostEqual(a1 * b2 - a2 * b1, 0.0)
    ensures r.Some? <==> Abs(a1 * b2 - a2 * b1) > Epsilon
    ensures r.Some? ==> a1 * r.value.x + b1 * r.value.y == c1
                        && a2 * r.value.x + b2 * r.value.y == c2
  {
    var det := a1 * b2 - a2 * b1;
    AlmostEqualZero(det);
    if !AlmostEqual(det, 0.0) then
      CramerSolves(a1, b1, c1, a2, b2, c2);
      Some(Point((c1 * b2 - c2 * b1) / det, (c2 * a1 - c1 * a2) / det))
    else
      None
  }

  /** A point on both lines is the intersection found, whenever one is. */
  lemma LineIntersectionUnique(a1: real, b1: real, c1: real, a2: real, b2: real, c2: real, p: Point)
    requires LineIntersection(a1, b1, c1, a2, b2, c2).Some?
    requires a1 * p.x + b1 * p.y == c1 && a2 * p.x + b2 * p.y == c2
    ensures LineIntersection(a1, b1, c1, a2, b2, c2) == Some(p)
  {
    var det := a1 * b2 - a2 * b1;
    assert det != 0.0;
    assert p.x * det == b2 * (a1 * p.x + b1 * p.y) - b1 * (a2 * p.x + b2 * p.y);
    assert p.x * det == c1 * b2 - c2 * b1;
    assert p.y * det == a1 * (a2 * p.x + b2 * p.y) - a2 * (a1 * p.x + b1 * p.y);
    assert p.y * det == c2 * a1 - c1 * a2;
    var q := LineIntersection(a1, b1, c1, a2, b2, c2).value;
    assert q.x * det == c1 * b2 - c2 * b1;
    assert q.y * det == c2 * a1 - c1 * a2;
    CancelNonZero(p.x, q.x, det);
    CancelNonZero(p.y, q.y, det);
  }

  /** Coefficients of the line through p and q in the form A*x + B*y = C,
      as the point-pair intersection computes them. */
  function CoefA(p: Point, q: Point): (r: real) { q.y - p.y }
  function CoefB(p: Point, q: Point): (r: real) { p.x - q.x }
  function CoefC(p: Point, q: Point): (r: real) { p.x * CoefA(p, q) + p.y * CoefB(p, q) }

  lemma CoefficientsAreOrientation(p: Point, q: Point, s: Point)
    ensures CoefA(p, q) * s.x + CoefB(p, q) * s.y - CoefC(p, q) == -Cross(p, q, s)
  {
    var a, b := CoefA(p, q), CoefB(p, q);
    assert CoefC(p, q) == p.x * a + p.y * b;
    assert a * s.x - p.x * a == a * (s.x - p.x);
    assert b * s.y - p.y * b == b * (s.y - p.y);
  }

  lemma DeterminantIsDirectionCross(p1: Point, q1: Point, p2: Point, q2: Point)
    ensures CoefA(p1, q1) * CoefB(p2, q2) - CoefA(p2, q2) * CoefB(p1, q1)
            == DirectionCross(p1, q1, p2, q2)
  {
  }

  /** Intersection of the line through p1 and q1 with the line through p2
      and q2. It exists iff the direction vectors are not almost parallel,
      and then lies on both lines. */
  function LineIntersectionOfPoints(p1: Point, q1: Point, p2: Point, q2: Point): (r: Option<Point>)
    ensures r.Some? <==> !AlmostEqual(DirectionCross(p1, q1, p2, q2), 0.0)
    ensures r.Some? ==> Cross(p1, q1, r.value) == 0.0 && Cross(p2, q2, r.value) == 0.0
  {
    var r := LineIntersection(CoefA(p1, q1), CoefB(p1, q1), CoefC(p1, q1),
                              CoefA(p2, q2), CoefB(p2, q2), CoefC(p2, q2));
    DeterminantIsDirectionCross(p1, q1, p2, q2);
    if r.Some? then
      CoefficientsAreOrientation(p1, q1, r.value);
      CoefficientsAreOrientation(p2, q2, r.value);
      r
    else
      r
  }

  /** A point lying on both lines is the intersection found, whenever one is. */
  lemma LineIntersectionOfPointsUnique(p1: Point, q1: Point, p2: Point, q2: Point, s: Point)
    requires LineIntersectionOfPoints(p1, q1, p2, q2).Some?
    requires Cross(p1, q1, s) == 0.0 && Cross(p2, q2, s) == 0.0
    ensures LineIntersectionOfPoints(p1, q1, p2, q2) == Some(s)
  {
    CoefficientsAreOrientation(p1, q1, s);
    CoefficientsAreOrientation(p2, q2, s);
    LineIntersectionUnique(CoefA(p1, q1), CoefB(p1, q1), CoefC(p1, q1),
                           CoefA(p2, q2), CoefB(p2, q2), CoefC(p2, q2), s);
  }

  /** The order in which the two lines are given does not matter. */
  lemma LineIntersectionOfPointsSymmetric(p1: Point, q1: Point, p2: Point, q2: Point)
    ensures LineIntersectionOfPoints(p1, q1, p2, q2) == LineIntersectionOfPoints(p2, q2, p1, q1)
  {
    var r := LineIntersectionOfPoints(p1, q1, p2, q2);
    var r' := LineIntersectionOfPoints(p2, q2, p1, q1);
    assert DirectionCross(p2, q2, p1, q1) == -DirectionCross(p1, q1, p2, q2);
    AlmostEqualZero(DirectionCross(p1, q1, p2, q2));
    AlmostEqualZero(DirectionCross(p2, q2, p1, q1));
    if r.Some? {
      LineIntersectionOfPointsUnique(p2, q2, p1, q1, r.value);
    }
  }

  /** Tolerant test that two lines a_i*x + b_i*y = c_i are the same line: the
      coefficient triples are (almost) proportional. */
  function AreIdenticalLines(a1: real, b1: real, c1: real, a2: real, b2: real, c2: real): (r: bool)
    ensures a1 * b2 == a2 * b1 && b1 * c2 == b2 * c1 && a1 * c2 == a2 * c1 ==> r
  {
    var a1B2 := a1 * b2;
    var a2B1 := a2 * b1;
    var a1C2 := a1 * c2;
    var a2C1 := a2 * c1;
    var b1C2 := b1 * c2;
    var b2C1 := b2 * c1;
    AlmostEqual(a1B2, a2B1) && AlmostEqual(b1C2, b2C1) && AlmostEqual(a1C2, a2C1)
  }

  /** Scaling a line's coefficients describes the same line. */
  lemma AreIdenticalLinesOfMultiple(a: real, b: real, c: real, k: real)
    ensures AreIdenticalLines(a, b, c, k * a, k * b, k * c)
  {
    assert a * (k * b) == (k * a) * b;
    assert b * (k * c) == (k * b) * c;
    assert a * (k * c) == (k * a) * c;
  }

  lemma AreIdenticalLinesSymmetric(a1: real, b1: real, c1: real, a2: real, b2: real, c2: real)
    ensures AreIdenticalLines(a1, b1, c1, a2, b2, c2) == AreIdenticalLines(a2, b2, c2, a1, b1, c1)
  {
    AlmostEqualSymmetric(a1 * b2, a2 * b1);
    AlmostEqualSymmetric(b1 * c2, b2 * c1);
    AlmostEqualSymmetric(a1 * c2, a2 * c1);
  }

  /** p1 and p2 lie on the same side of the line through a and b: the signs
      of their orientations with respect to a -> b agree (a point on the line
      has sign 0 and matches only other points on the line). */
  function AreOnTheSameSideOfLine(p1: Point, p2: Point, a: Point, b: Point): (r: bool)
    requires !AreEqualPoints(a, b)
    ensures r <==> Sign(Cross(a, b, p1)) == Sign(Cross(a, b, p2))
  {
    var l := LineEquationDeterminedByPoints(a, b);
    var p1OnLine := Eval(l, p1);
    var p2OnLine := Eval(l, p2);
    LineEquationIsOrientation(a, b, p1);
    LineEquationIsOrientation(a, b, p2);
    Sign(p1OnLine) == Sign(p2OnLine)
  }

  /** Reversing the line's direction does not change the answer. */
  lemma AreOnTheSameSideOfLineSwapEnds(p1: Point, p2: Point, a: Point, b: Point)
    requires !AreEqualPoints(a, b)
    ensures !AreEqualPoints(b, a)
    ensures AreOnTheSameSideOfLine(p1, p2, a, b) == AreOnTheSameSideOfLine(p1, p2, b, a)
  {
    AreEqualPointsSymmetric(a, b);
    assert Cross(b, a, p1) == -Cross(a, b, p1);
    assert Cross(b, a, p2) == -Cross(a, b, p2);
  }

  /** Unsigned area by the expanded determinant: half the magnitude of the
      orientation determinant of the three points. */
  function AreaOfTriangle(a: Point, b: Point, c: Point): (r: real)
    ensures 0.0 <= r
    ensures r == Abs(Cross(a, b, c)) / 2.0
    ensures r == 0.0 <==> Cross(a, b, c) == 0.0
  {
    var posTerm := (a.x * b.y) + (a.y * c.x) + (b.x * c.y);
    var negTerm := (b.y * c.x) + (a.x * c.y) + (a.y * b.x);
    var determinant := posTerm - negTerm;
    assert determinant == Cross(a, b, c);
    Abs(determinant) / 2.0
  }

  /** The area does not depend on the order of the vertices. */
  lemma AreaOfTrianglePermutation(a: Point, b: Point, c: Point)
    ensures AreaOfTriangle(a, b, c) == AreaOfTriangle(b, c, a) == AreaOfTriangle(c, a, b)
    ensures AreaOfTriangle(a, b, c) == AreaOfTriangle(b, a, c) == AreaOfTriangle(a, c, b)
    ensures AreaOfTriangle(a, b, c) == AreaOfTriangle(c, b, a)
  {
    assert Cross(b, c, a) == Cross(a, b, c);
    assert Cross(c, a, b) == Cross(a, b, c);
    assert Cross(b, a, c) == -Cross(a, b, c);
    assert Cross(a, c, b) == -Cross(a, b, c);
    assert Cross(c, b, a) == -Cross(a, b, c);
  }

  /** A triangle with two coinciding vertices has no area. */
  lemma AreaOfTriangleDegenerate(a: Point, b: Point, c: Point)
    requires a == b || b == c || a == c
    ensures AreaOfTriangle(a, b, c) == 0.0
  {
  }

  function Translate(p: Point, v: Point): (r: Point) {
    Point(p.x + v.x, p.y + v.y)
  }

  function Scale(p: Point, s: real): (r: Point) {
    Point(s * p.x, s * p.y)
  }

  /** Translating the three vertices leaves the area unchanged. */
  lemma AreaOfTriangleTranslation(a: Point, b: Point, c: Point, v: Point)
    ensures AreaOfTriangle(Translate(a, v), Translate(b, v), Translate(c, v)) == AreaOfTriangle(a, b, c)
  {
    assert Cross(Translate(a, v), Translate(b, v), Translate(c, v)) == Cross(a, b, c);
  }

  /** Scaling the three vertices by s scales the area by s squared. */
  lemma AreaOfTriangleScaling(a: Point, b: Point, c: Point, s: real)
    ensures AreaOfTriangle(Scale(a, s), Scale(b, s), Scale(c, s)) == s * s * AreaOfTriangle(a, b, c)
  {
    CrossOfScaled(a, b, c, s);
    AbsOfNonNegativeMultiple(s * s, Cross(a, b, c));
  }

  lemma CrossOfScaled(a: Point, b: Point, c: Point, s: real)
    ensures Cross(Scale(a, s), Scale(b, s), Scale(c, s)) == s * s * Cross(a, b, c)
  {
    var u1, u2 := b.x - a.x, c.y - a.y;
    var v1, v2 := b.y - a.y, c.x - a.x;
    ProductOfScaled(s, u1, u2);
    ProductOfScaled(s, v1, v2);
    assert Cross(Scale(a, s), Scale(b, s), Scale(c, s)) == (s * u1) * (s * u2) - (s * v1) * (s * v2);
  }

  lemma ProductOfScaled(s: real, u: real, v: real)
    ensures (s * u) * (s * v) == s * s * (u * v)
  {
  }

  lemma AbsOfNonNegativeMultiple(t: real, k: real)
    requires 0.0 <= t
    ensures Abs(t * k) == t * Abs(k)
  {
  }

  /** Midpoint of the segment [a, b]: equally far from both ends along each
      axis (which determines it), and on the line through a and b. */
  function MiddlePoint(a: Point, b: Point): (r: Point)
    ensures r.x - a.x == b.x - r.x && r.y - a.y == b.y - r.y
    ensures Cross(a, b, r) == 0.0
  {
    Point((a.x + b.x) / 2.0, (a.y + b.y) / 2.0)
  }

  lemma MiddlePointSymmetric(a: Point, b: Point)
    ensures MiddlePoint(a, b) == MiddlePoint(b, a)
  {
  }

  /** The midpoint of two points on a line is on that line. */
  lemma MiddlePointOnLine(o: Point, p: Point, u: Point, v: Point)
    requires Cross(o, p, u) == 0.0 && Cross(o, p, v) == 0.0
    ensures Cross(o, p, MiddlePoint(u, v)) == 0.0
  {
    var m := MiddlePoint(u, v);
    assert 2.0 * Cross(o, p, m) == Cross(o, p, u) + Cross(o, p, v);
  }
}
