/**
 * Line geometry (RadioSimulator/geometrics.py): slope-intercept coefficients,
 * the intersection of two lines, and point-to-line and point-to-point
 * distances. The square root of the program's math library is not part of
 * Dafny's reals; it is a parameter `sqrt` that every caller must supply as a
 * true non-negative square root (IsSqrt).
 */
module Geometrics {
  import opened Props

  /** `sqrt` returns the non-negative square root of every non-negative real. */
  ghost predicate IsSqrt(sqrt: real -> real) {
    forall x: real :: 0.0 <= x ==> 0.0 <= sqrt(x) && sqrt(x) * sqrt(x) == x
  }

  function Abs(x: real): real {
    if x < 0.0 then -x else x
  }

  /**
   * Coefficients (a, b, c) of the line through (x1, y1) and (x2, y2) in the
   * form a*x + b*y + c == 0, with b fixed at -1: a is the slope and c the
   * intercept. The slope divides by x2 - x1, so a vertical line is refused.
   */
  function Abc(x1: real, y1: real, x2: real, y2: real): (r: (real, real, real))
    requires x1 != x2
    ensures r.1 == -1.0
    ensures r.0 * (x2 - x1) == y2 - y1
    ensures r.0 * x1 + r.1 * y1 + r.2 == 0.0
    ensures r.0 * x2 + r.1 * y2 + r.2 == 0.0
  {
    var a := (y2 - y1) / (x2 - x1);
    var b := y2 - a * x2;
    (a, -1.0, b)
  }

  /** The coefficients of a non-vertical line given by two of its points. */
  function Coefficients(line: Line): (real, real, real)
    requires line.0 != line.2
  {
    Abc(line.0, line.1, line.2, line.3)
  }

  /** The denominator of the x coordinate of Intersection: a1*b2 - a2*b1. */
  function XDenominator(line1: Line, line2: Line): real
    requires line1.0 != line1.2 && line2.0 != line2.2
  {
    var (a1, b1, _) := Coefficients(line1);
    var (a2, b2, _) := Coefficients(line2);
    a1 * b2 - a2 * b1
  }

  /** The denominator of the y coordinate of Intersection, as the program writes it: a1*b2 - a2 - b1. */
  function YDenominator(line1: Line, line2: Line): real
    requires line1.0 != line1.2 && line2.0 != line2.2
  {
    var (a1, b1, _) := Coefficients(line1);
    var (a2, b2, _) := Coefficients(line2);
    a1 * b2 - a2 - b1
  }

  /**
   * The intersection of two non-vertical lines by Cramer's rule, as written:
   * both lines go through Abc, and both divisions must have a non-zero
   * denominator. Two lines with different slopes meet at the returned x.
   * The y coordinate divides by YDenominator, not XDenominator, so nothing
   * about it is promised here (see IntersectionOffFirstLine).
   */
  function Intersection(line1: Line, line2: Line): (p: Point)
    requires line1.0 != line1.2 && line2.0 != line2.2
    requires XDenominator(line1, line2) != 0.0 && YDenominator(line1, line2) != 0.0
    ensures Coefficients(line1).0 != Coefficients(line2).0
    ensures Coefficients(line1).0 * p.0 + Coefficients(line1).2 == Coefficients(line2).0 * p.0 + Coefficients(line2).2
  {
    var (a1, b1, c1) := Coefficients(line1);
    var (a2, b2, c2) := Coefficients(line2);
    var x := (b1 * c2 - b2 * c1) / XDenominator(line1, line2);
    var y := (c1 * a2 - c2 * a1) / YDenominator(line1, line2);
    assert XDenominator(line1, line2) == a2 - a1;
    assert (a1 - a2) * x == c2 - c1;
    (x, y)
  }

  /**
   * Two lines through (0,0)-(1,1) and (0,1)-(1,0) cross at (0.5, 0.5); the
   * program's y denominator turns that into (0.5, -1.0), which is not on the
   * first line.
   */
  lemma IntersectionOffFirstLine(line1: Line, line2: Line)
    requires line1 == (0.0, 0.0, 1.0, 1.0) && line2 == (0.0, 1.0, 1.0, 0.0)
    ensures line1.0 != line1.2 && line2.0 != line2.2
    ensures XDenominator(line1, line2) == -2.0 && YDenominator(line1, line2) == 1.0
    ensures Intersection(line1, line2) == (0.5, -1.0)
    ensures Coefficients(line1).0 * 0.5 + Coefficients(line1).1 * -1.0 + Coefficients(line1).2 != 0.0
  {
    CrossingCoefficients(line1, line2);
    CrossingPoint(line1, line2);
  }

  lemma CrossingPoint(line1: Line, line2: Line)
    requires line1 == (0.0, 0.0, 1.0, 1.0) && line2 == (0.0, 1.0, 1.0, 0.0)
    requires Coefficients(line1) == (1.0, -1.0, 0.0) && Coefficients(line2) == (-1.0, -1.0, 1.0)
    requires XDenominator(line1, line2) == -2.0 && YDenominator(line1, line2) == 1.0
    ensures Intersection(line1, line2) == (0.5, -1.0)
  {
  }

  lemma CrossingCoefficients(line1: Line, line2: Line)
    requires line1 == (0.0, 0.0, 1.0, 1.0) && line2 == (0.0, 1.0, 1.0, 0.0)
    ensures Coefficients(line1) == (1.0, -1.0, 0.0) && Coefficients(line2) == (-1.0, -1.0, 1.0)
    ensures XDenominator(line1, line2) == -2.0 && YDenominator(line1, line2) == 1.0
  {
    assert Coefficients(line1) == (1.0, -1.0, 0.0);
    assert Coefficients(line2) == (-1.0, -1.0, 1.0);
  }

  /**
   * The intersection with the y denominator the formula calls for
   * (a1*b2 - a2*b1): the returned point lies on both lines.
   */
  function IntersectionCorrected(line1: Line, line2: Line): (p: Point)
    requires line1.0 != line1.2 && line2.0 != line2.2
    requires XDenominator(line1, line2) != 0.0
    ensures Coefficients(line1).0 * p.0 + Coefficients(line1).1 * p.1 + Coefficients(line1).2 == 0.0
    ensures Coefficients(line2).0 * p.0 + Coefficients(line2).1 * p.1 + Coefficients(line2).2 == 0.0
  {
    var (a1, b1, c1) := Coefficients(line1);
    var (a2, b2, c2) := Coefficients(line2);
    var den := XDenominator(line1, line2);
    var x := (b1 * c2 - b2 * c1) / den;
    var y := (c1 * a2 - c2 * a1) / den;
    assert b1 == -1.0 && b2 == -1.0 && den == a2 - a1;
    CramerSolvesBoth(a1, c1, a2, c2);
    assert x == (c1 - c2) / (a2 - a1);
    (x, y)
  }

  /**
   * With b1 == b2 == -1, Cramer's rule with the common denominator a2 - a1
   * solves both a1*x - y + c1 == 0 and a2*x - y + c2 == 0.
   */
  lemma CramerSolvesBoth(a1: real, c1: real, a2: real, c2: real)
    requires a2 - a1 != 0.0
    ensures var x := (c1 - c2) / (a2 - a1);
            var y := (c1 * a2 - c2 * a1) / (a2 - a1);
            a1 * x - y + c1 == 0.0 && a2 * x - y + c2 == 0.0
  {
    var den := a2 - a1;
    var x := (c1 - c2) / den;
    var y := (c1 * a2 - c2 * a1) / den;
    assert x * den == c1 - c2;
    assert y * den == c1 * a2 - c2 * a1;
    assert den * (a1 * x - y + c1) == 0.0 by {
      assert den * (a1 * x - y + c1) == a1 * (x * den) - y * den + c1 * den;
    }
    assert den * (a2 * x - y + c2) == 0.0 by {
      assert den * (a2 * x - y + c2) == a2 * (x * den) - y * den + c2 * den;
    }
  }

  /**
   * `point` lies on the line through the two points of `line`: the cross
   * product of the line's direction and the offset to `point` vanishes.
   */
  predicate Collinear(point: Point, line: Line) {
    (line.2 - line.0) * (point.1 - line.1) == (line.3 - line.1) * (point.0 - line.0)
  }

  /**
   * The distance from `point` to the line through the points of `line`.
   * A vertical line is measured along x; any other line by its general form
   * divided by the length of its normal (a, b).
   */
  function PointLineDistance(sqrt: real -> real, point: Point, line: Line): (d: real)
    requires IsSqrt(sqrt)
    ensures 0.0 <= d
    ensures line.0 == line.2 ==> d == Abs(point.0 - line.0)
    ensures (line.0, line.1) != (line.2, line.3) ==> (d == 0.0 <==> Collinear(point, line))
    ensures line.0 != line.2 ==>
              var (a, b, c) := Coefficients(line);
              d * d * (a * a + b * b) == (a * point.0 + b * point.1 + c) * (a * point.0 + b * point.1 + c)
  {
    if line.0 == line.2 then
      VerticalCollinear(point, line);
      Abs(point.0 - line.0)
    else
      var (a, b, c) := Coefficients(line);
      var s := sqrt(a * a + b * b);
      assert s * s == a * a + b * b;
      assert 0.0 < s;
      var n := Abs(a * point.0 + b * point.1 + c);
      assert n / s * s == n;
      ResidualCollinear(point, line);
      n / s
  }

  /** On a vertical line with distinct points, collinearity is equality of x. */
  lemma VerticalCollinear(point: Point, line: Line)
    requires line.0 == line.2
    ensures line.1 != line.3 ==> (Collinear(point, line) <==> point.0 == line.0)
  {
    if line.1 != line.3 {
      assert (line.3 - line.1) * (point.0 - line.0) == 0.0 <==> point.0 == line.0;
    }
  }

  /** For a non-vertical line, the general-form residual vanishes exactly on collinear points. */
  lemma ResidualCollinear(point: Point, line: Line)
    requires line.0 != line.2
    ensures var (a, b, c) := Coefficients(line);
            a * point.0 + b * point.1 + c == 0.0 <==> Collinear(point, line)
  {
    var (a, b, c) := Coefficients(line);
    var dx := line.2 - line.0;
    var r := a * point.0 + b * point.1 + c;
    assert r == a * (point.0 - line.0) - (point.1 - line.1) by {
      assert a * line.0 + b * line.1 + c == 0.0;
    }
    assert dx * r == (line.3 - line.1) * (point.0 - line.0) - dx * (point.1 - line.1);
  }

  /** Both points that define a line are at distance zero from it. */
  lemma PointLineDistanceAtEndpoints(sqrt: real -> real, line: Line)
    requires IsSqrt(sqrt)
    ensures PointLineDistance(sqrt, (line.0, line.1), line) == 0.0
    ensures PointLineDistance(sqrt, (line.2, line.3), line) == 0.0
  {
    if line.0 != line.2 {
      assert Collinear((line.0, line.1), line) && Collinear((line.2, line.3), line);
    }
  }

  /** The Euclidean distance between two points. */
  function PointPointDistance(sqrt: real -> real, point1: Point, point2: Point): (d: real)
    requires IsSqrt(sqrt)
    ensures 0.0 <= d
    ensures d * d == (point2.0 - point1.0) * (point2.0 - point1.0) + (point2.1 - point1.1) * (point2.1 - point1.1)
    ensures d == 0.0 <==> point1 == point2
  {
    var dx := point2.0 - point1.0;
    var dy := point2.1 - point1.1;
    var d := sqrt(dx * dx + dy * dy);
    assert d * d == dx * dx + dy * dy;
    SquareNonNegative(dx);
    SquareNonNegative(dy);
    assert d * d == dx * dx + dy * dy;
    assert d == 0.0 <==> point1 == point2 by {
      if d == 0.0 {
        assert dx * dx + dy * dy == 0.0;
        SquareSumZero(dx, dy);
      }
      if point1 == point2 {
        assert d * d == 0.0;
        SquareZero(d);
      }
    }
    d
  }

  lemma ProductPositive(x: real, y: real)
    requires 0.0 < x && 0.0 < y
    ensures 0.0 < x * y
  {
  }

  lemma SquareNonNegative(x: real)
    ensures 0.0 <= x * x
  {
    if x < 0.0 {
      ProductPositive(-x, -x);
    } else if 0.0 < x {
      ProductPositive(x, x);
    }
  }

  lemma CancelFactor(s: real, square: real)
    requires s != 0.0 && square == s * s
    ensures square / s == s
  {
  }

  /** Only zero squares to zero. */
  lemma SquareZero(s: real)
    requires s * s == 0.0
    ensures s == 0.0
  {
    if s != 0.0 {
      CancelFactor(s, 0.0);
      assert false;
    }
  }

  /** A sum of two squares vanishes only when both terms do. */
  lemma SquareSumZero(x: real, y: real)
    requires x * x + y * y == 0.0
    ensures x == 0.0 && y == 0.0
  {
    SquareNonNegative(x);
    SquareNonNegative(y);
    SquareZero(x);
    SquareZero(y);
  }

  /** Distance does not depend on the order of the two points. */
  lemma PointPointDistanceSymmetric(sqrt: real -> real, p: Point, q: Point)
    requires IsSqrt(sqrt)
    ensures PointPointDistance(sqrt, p, q) == PointPointDistance(sqrt, q, p)
  {
    var d1 := PointPointDistance(sqrt, p, q);
    var d2 := PointPointDistance(sqrt, q, p);
    assert d1 * d1 == d2 * d2;
    assert (d1 - d2) * (d1 + d2) == 0.0;
  }
}
