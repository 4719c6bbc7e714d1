/** The regression line of a set of points, in exact arithmetic: it minimises the squared
    deviation that the library itself computes. */
module Regression {
  import opened RealArithmetic
  import opened Wrappers

  datatype Point = Point(x: real, y: real)

  /** Offset and slope of a line a + b * x. */
  datatype Line = Line(a: real, b: real)

  function Square(v: real): real { v * v }

  /** What the loops accumulate. */
  function Sum(p: seq<Point>, f: Point -> real): real {
    if p == [] then 0.0 else Sum(p[..|p| - 1], f) + f(p[|p| - 1])
  }

  function Nothing(pt: Point): real { 0.0 }
  function One(pt: Point): real { 1.0 }
  function X(pt: Point): real { pt.x }
  function Y(pt: Point): real { pt.y }
  function XX(pt: Point): real { Square(pt.x) }
  function YY(pt: Point): real { Square(pt.y) }
  function XY(pt: Point): real { pt.x * pt.y }

  function Residual(l: Line): Point -> real { (pt: Point) => pt.y - l.a - l.b * pt.x }
  function Squared(f: Point -> real): Point -> real { (pt: Point) => Square(f(pt)) }
  function Product(f: Point -> real, g: Point -> real): Point -> real { (pt: Point) => f(pt) * g(pt) }

  /** How far the points are from a line, all in all. */
  function Deviation(p: seq<Point>, l: Line): real { Sum(p, Squared(Residual(l))) }

  // ----- the loops -----

  method SumTupleVec(p: seq<Point>) returns (x: real, y: real)
    ensures x == Sum(p, X) && y == Sum(p, Y)
  {
    x, y := 0.0, 0.0;
    for n := 0 to |p|
      invariant x == Sum(p[..n], X) && y == Sum(p[..n], Y)
    {
      assert p[..n + 1][..n] == p[..n];
      x, y := x + p[n].x, y + p[n].y;
    }
    assert p[..|p|] == p;
  }

  method SquareSumTupleVec(p: seq<Point>) returns (x: real, y: real)
    ensures x == Sum(p, XX) && y == Sum(p, YY)
  {
    x, y := 0.0, 0.0;
    for n := 0 to |p|
      invariant x == Sum(p[..n], XX) && y == Sum(p[..n], YY)
    {
      assert p[..n + 1][..n] == p[..n];
      x, y := x + Square(p[n].x), y + Square(p[n].y);
    }
    assert p[..|p|] == p;
  }

  method ProductSumTupleVec(p: seq<Point>) returns (r: real)
    ensures r == Sum(p, XY)
  {
    r := 0.0;
    for n := 0 to |p|
      invariant r == Sum(p[..n], XY)
    {
      assert p[..n + 1][..n] == p[..n];
      r := r + p[n].x * p[n].y;
    }
    assert p[..|p|] == p;
  }

  method SquareDeviation(p: seq<Point>, l: Line) returns (r: real)
    ensures r == Deviation(p, l) && r >= 0.0
    ensures r == 0.0 <==> forall pt :: pt in p ==> pt.y == l.a + l.b * pt.x
  {
    r := 0.0;
    for n := 0 to |p|
      invariant r == Deviation(p[..n], l)
    {
      assert p[..n + 1][..n] == p[..n];
      r := r + Square(p[n].y - l.a - l.b * p[n].x);
    }
    assert p[..|p|] == p;
    ZeroDeviation(p, l);
  }

  /** The parameters of the regression line; None stands for the division by zero that a set of
      points on one vertical line leads to. */
  method GetRegressionParameters(p: seq<Point>) returns (r: Option<Line>)
    ensures p == [] ==> r == Some(Line(0.0, 0.0))
    ensures r.None? <==> p != [] && !exists s, t :: s in p && t in p && s.x != t.x
    ensures p != [] && r.Some? ==> IsLeastSquares(p, r.value)
  {
    if p == [] { return Some(Line(0.0, 0.0)); }
    var n := |p| as real;
    var sumX, sumY := SumTupleVec(p);
    var sqSumX, sqSumY := SquareSumTupleVec(p);
    var prodSum := ProductSumTupleVec(p);
    var denominator := n * sqSumX - Square(sumX);
    DenominatorPositive(p, n, sumX, sqSumX, denominator);
    if denominator == 0.0 { return None; }
    var a := (sumY * sqSumX - sumX * prodSum) / denominator;
    var b := (n * prodSum - sumX * sumY) / denominator;
    ClosedForms(p, n, sumX, sumY, sqSumX, prodSum, denominator, a, b);
    return Some(Line(a, b));
  }

  /** Each point adds the square of its distance from the line in the direction of y. */
  lemma DeviationLaw(p: seq<Point>, pt: Point, l: Line)
    ensures Deviation([], l) == 0.0
    ensures Deviation(p + [pt], l) ==
            Deviation(p, l) + (pt.y - (l.a + l.b * pt.x)) * (pt.y - (l.a + l.b * pt.x))
  {
    var q := p + [pt];
    assert q[..|q| - 1] == p && q[|q| - 1] == pt;
    assert Residual(l)(pt) == pt.y - (l.a + l.b * pt.x);
  }

  // ----- what least squares means -----

  ghost predicate OnLine(p: seq<Point>, l: Line) {
    forall pt :: pt in p ==> pt.y == l.a + l.b * pt.x
  }

  /** Two of the points have different x. */
  ghost predicate TwoXs(p: seq<Point>) {
    exists s, t :: s in p && t in p && s.x != t.x
  }

  /** No line deviates less, and no other line deviates as little. */
  ghost predicate IsLeastSquares(p: seq<Point>, l: Line) {
    forall m: Line :: Deviation(p, l) <= Deviation(p, m) && (Deviation(p, l) == Deviation(p, m) ==> m == l)
  }

  // ----- sums -----

  lemma Distribute(k: real, a: real, b: real)
    ensures k * (a + b) == k * a + k * b
  {
  }

  /** Sums are linear in what is summed. */
  lemma {:induction false} SumLinear(p: seq<Point>, f: Point -> real, g: Point -> real,
                                     k: real, h: Point -> real, m: real, i: Point -> real)
    requires forall pt :: pt in p ==> f(pt) == g(pt) + k * h(pt) + m * i(pt)
    ensures Sum(p, f) == Sum(p, g) + k * Sum(p, h) + m * Sum(p, i)
  {
    if p != [] {
      var q, last := p[..|p| - 1], p[|p| - 1];
      SumLinear(q, f, g, k, h, m, i);
      Distribute(k, Sum(q, h), h(last));
      Distribute(m, Sum(q, i), i(last));
    }
  }

  lemma {:induction false} SumNothing(p: seq<Point>)
    ensures Sum(p, Nothing) == 0.0
  {
    if p != [] {
      SumNothing(p[..|p| - 1]);
    }
  }

  lemma {:induction false} SumOne(p: seq<Point>)
    ensures Sum(p, One) == |p| as real
  {
    if p != [] {
      SumOne(p[..|p| - 1]);
    }
  }

  /** A sum of terms that are not negative vanishes exactly when every term does. */
  lemma {:induction false} SumZero(p: seq<Point>, f: Point -> real)
    requires forall pt :: pt in p ==> f(pt) >= 0.0
    ensures Sum(p, f) >= 0.0
    ensures Sum(p, f) == 0.0 <==> forall pt :: pt in p ==> f(pt) == 0.0
  {
    if p != [] {
      var q, last := p[..|p| - 1], p[|p| - 1];
      SumZero(q, f);
      assert forall pt :: pt in p <==> pt in q || pt == last;
    }
  }

  lemma SquareSign(v: real)
    ensures Square(v) >= 0.0 && (Square(v) == 0.0 <==> v == 0.0)
  {
    if v != 0.0 {
      SameSigns(v, v, Square(v));
    }
  }

  lemma SquaresZero(p: seq<Point>, f: Point -> real)
    ensures Sum(p, Squared(f)) >= 0.0
    ensures Sum(p, Squared(f)) == 0.0 <==> forall pt :: pt in p ==> f(pt) == 0.0
  {
    forall pt: Point
      ensures Squared(f)(pt) >= 0.0 && (Squared(f)(pt) == 0.0 <==> f(pt) == 0.0)
    {
      SquareSign(f(pt));
    }
    SumZero(p, Squared(f));
  }

  lemma ZeroDeviation(p: seq<Point>, l: Line)
    ensures Deviation(p, l) >= 0.0 && (Deviation(p, l) == 0.0 <==> OnLine(p, l))
  {
    SquaresZero(p, Residual(l));
    assert forall pt: Point :: Residual(l)(pt) == 0.0 <==> pt.y == l.a + l.b * pt.x;
  }

  lemma DifferenceSquared(e: Point -> real, f: Point -> real, g: Point -> real, pt: Point)
    requires g(pt) == e(pt) - f(pt)
    ensures Squared(g)(pt) == Squared(e)(pt) + 1.0 * Squared(f)(pt) + -2.0 * Product(e, f)(pt)
  {
    SquareOfDifference(e(pt), f(pt), g(pt));
  }

  lemma SquareOfDifference(e: real, f: real, g: real)
    requires g == e - f
    ensures Square(g) == Square(e) + 1.0 * Square(f) + -2.0 * (e * f)
  {
  }

  lemma SquaredDifference(p: seq<Point>, e: Point -> real, f: Point -> real, g: Point -> real)
    requires forall pt :: g(pt) == e(pt) - f(pt)
    ensures Sum(p, Squared(g)) == Sum(p, Squared(e)) + Sum(p, Squared(f)) - 2.0 * Sum(p, Product(e, f))
  {
    forall pt: Point
      ensures Squared(g)(pt) == Squared(e)(pt) + 1.0 * Squared(f)(pt) + -2.0 * Product(e, f)(pt)
    {
      DifferenceSquared(e, f, g, pt);
    }
    SumLinear(p, Squared(g), Squared(e), 1.0, Squared(f), -2.0, Product(e, f));
  }

  // ----- moving a line -----

  function Shift(c: real, d: real): Point -> real { (pt: Point) => c + d * pt.x }

  /** What moving a line by c and d adds to its deviation if the line solves the normal
      equations. */
  function Spread(p: seq<Point>, c: real, d: real): real { Sum(p, Squared(Shift(c, d))) }

  lemma NoSlope(c: real, d: real, x: real, y: real)
    requires x != y && c + d * x == 0.0 && c + d * y == 0.0
    ensures c == 0.0 && d == 0.0
  {
    assert d * (x - y) == 0.0;
  }

  /** Only the line that does not move stays where it is at two different x. */
  lemma SpreadPositive(p: seq<Point>, c: real, d: real)
    requires TwoXs(p)
    ensures Spread(p, c, d) >= 0.0 && (Spread(p, c, d) == 0.0 ==> c == 0.0 && d == 0.0)
  {
    SquaresZero(p, Shift(c, d));
    var s, t :| s in p && t in p && s.x != t.x;
    if Spread(p, c, d) == 0.0 {
      assert Shift(c, d)(s) == 0.0 && Shift(c, d)(t) == 0.0;
      NoSlope(c, d, s.x, t.x);
    }
  }

  lemma ResidualAt(l: Line, a: real, b: real, pt: Point)
    requires a == -l.a && b == -l.b
    ensures Residual(l)(pt) == Y(pt) + a * One(pt) + b * X(pt)
  {
    assert b * pt.x == -(l.b * pt.x);
  }

  /** The sum of the residuals. */
  lemma ResidualSum(p: seq<Point>, l: Line, a: real, b: real)
    requires a == -l.a && b == -l.b
    ensures Sum(p, Residual(l)) == Sum(p, Y) + a * |p| as real + b * Sum(p, X)
  {
    SumOne(p);
    forall pt: Point ensures Residual(l)(pt) == Y(pt) + a * One(pt) + b * X(pt) {
      ResidualAt(l, a, b, pt);
    }
    SumLinear(p, Residual(l), Y, a, One, b, X);
  }

  lemma WeightedResidual(a: real, b: real, x: real, y: real, xy: real, xx: real, r: real)
    requires xy == x * y && xx == x * x && r == y - a - b * x
    ensures x * r == xy + -a * x + -b * xx
  {
    assert x * (b * x) == b * xx;
  }

  lemma WeightedResidualAt(l: Line, a: real, b: real, pt: Point)
    requires a == -l.a && b == -l.b
    ensures Product(X, Residual(l))(pt) == XY(pt) + a * X(pt) + b * XX(pt)
  {
    WeightedResidual(l.a, l.b, pt.x, pt.y, XY(pt), XX(pt), Residual(l)(pt));
  }

  lemma WeightedSumOf(p: seq<Point>, f: Point -> real, a: real, b: real)
    requires forall pt :: f(pt) == XY(pt) + a * X(pt) + b * XX(pt)
    ensures Sum(p, f) == Sum(p, XY) + a * Sum(p, X) + b * Sum(p, XX)
  {
    SumLinear(p, f, XY, a, X, b, XX);
  }

  /** The sum of the residuals, weighted with x. */
  lemma WeightedResidualSum(p: seq<Point>, l: Line, a: real, b: real)
    requires a == -l.a && b == -l.b
    ensures Sum(p, Product(X, Residual(l))) == Sum(p, XY) + a * Sum(p, X) + b * Sum(p, XX)
  {
    forall pt: Point ensures Product(X, Residual(l))(pt) == XY(pt) + a * X(pt) + b * XX(pt) {
      WeightedResidualAt(l, a, b, pt);
    }
    WeightedSumOf(p, Product(X, Residual(l)), a, b);
  }

  lemma ShiftedProduct(e: real, c: real, d: real, x: real, xe: real)
    requires xe == x * e
    ensures e * (c + d * x) == c * e + d * xe
  {
    assert e * (d * x) == d * (x * e);
  }

  lemma ShiftedProductAt(e: Point -> real, c: real, d: real, pt: Point)
    ensures Product(e, Shift(c, d))(pt) == Nothing(pt) + c * e(pt) + d * Product(X, e)(pt)
  {
    ShiftedProduct(e(pt), c, d, pt.x, Product(X, e)(pt));
  }

  /** Residuals whose sum and weighted sum vanish are orthogonal to every shift. */
  lemma Orthogonal(p: seq<Point>, e: Point -> real, c: real, d: real)
    requires Sum(p, e) == 0.0 && Sum(p, Product(X, e)) == 0.0
    ensures Sum(p, Product(e, Shift(c, d))) == 0.0
  {
    forall pt: Point ensures Product(e, Shift(c, d))(pt) == Nothing(pt) + c * e(pt) + d * Product(X, e)(pt) {
      ShiftedProductAt(e, c, d, pt);
    }
    SumLinear(p, Product(e, Shift(c, d)), Nothing, c, e, d, Product(X, e));
    SumNothing(p);
  }

  lemma MovedResidual(l: Line, c: real, d: real, pt: Point)
    ensures Residual(Line(l.a + c, l.b + d))(pt) == Residual(l)(pt) - Shift(c, d)(pt)
  {
  }

  lemma ShiftedDeviation(p: seq<Point>, l: Line, c: real, d: real, m: Line)
    requires Sum(p, Residual(l)) == 0.0 && Sum(p, Product(X, Residual(l))) == 0.0
    requires m == Line(l.a + c, l.b + d)
    ensures Deviation(p, m) == Deviation(p, l) + Spread(p, c, d)
  {
    forall pt: Point ensures Residual(m)(pt) == Residual(l)(pt) - Shift(c, d)(pt) {
      MovedResidual(l, c, d, pt);
    }
    SquaredDifference(p, Residual(l), Shift(c, d), Residual(m));
    Orthogonal(p, Residual(l), c, d);
  }

  // ----- the denominator -----

  lemma CentredAt(m: real, k: real, mm: real, pt: Point)
    requires k == -2.0 * m && mm == m * m
    ensures Squared(Shift(-m, 1.0))(pt) == XX(pt) + k * X(pt) + mm * One(pt)
  {
    SquareOfDifference(pt.x, m, Shift(-m, 1.0)(pt));
  }

  lemma CentredSum(p: seq<Point>, m: real, k: real, mm: real)
    requires k == -2.0 * m && mm == m * m
    ensures Spread(p, -m, 1.0) == Sum(p, XX) + k * Sum(p, X) + mm * |p| as real
  {
    forall pt: Point ensures Squared(Shift(-m, 1.0))(pt) == XX(pt) + k * X(pt) + mm * One(pt) {
      CentredAt(m, k, mm, pt);
    }
    CentredSumOf(p, Squared(Shift(-m, 1.0)), k, mm);
  }

  lemma CentredSumOf(p: seq<Point>, f: Point -> real, k: real, mm: real)
    requires forall pt :: f(pt) == XX(pt) + k * X(pt) + mm * One(pt)
    ensures Sum(p, f) == Sum(p, XX) + k * Sum(p, X) + mm * |p| as real
  {
    SumLinear(p, f, XX, k, X, mm, One);
    SumOne(p);
  }

  lemma CentredDenominator(n: real, sx: real, sxx: real, m: real, k: real, mm: real)
    requires n * m == sx && k == -2.0 * m && mm == m * m
    ensures n * (sxx + k * sx + mm * n) == n * sxx - Square(sx)
  {
    assert mm * n == m * sx;
    assert n * (m * sx) == sx * sx;
  }

  /** The denominator is n times the squared distances from the mean. */
  lemma DenominatorIsSpread(p: seq<Point>, n: real, sx: real, sxx: real, m: real)
    requires n == |p| as real && sx == Sum(p, X) && sxx == Sum(p, XX) && n * m == sx
    ensures n * Spread(p, -m, 1.0) == n * sxx - Square(sx)
  {
    CentredSum(p, m, -2.0 * m, m * m);
    CentredDenominator(n, sx, sxx, m, -2.0 * m, m * m);
  }

  lemma PositiveFactor(n: real, s: real, d: real)
    requires n > 0.0 && s >= 0.0 && d == n * s
    ensures d >= 0.0 && (d == 0.0 <==> s == 0.0)
  {
  }

  lemma {:induction false} SameXs(p: seq<Point>, x: real)
    requires forall pt :: pt in p ==> pt.x == x
    ensures Sum(p, X) == |p| as real * x
  {
    if p != [] {
      SameXs(p[..|p| - 1], x);
      Distribute(x, (|p| - 1) as real, 1.0);
    }
  }

  lemma SameMean(n: real, m: real, x: real)
    requires n > 0.0 && n * m == n * x
    ensures m == x
  {
  }

  /** If all x are equal, none differs from the mean. */
  lemma NoSpread(p: seq<Point>, n: real, m: real)
    requires p != [] && !TwoXs(p) && n == |p| as real && n * m == Sum(p, X)
    ensures Spread(p, -m, 1.0) == 0.0
  {
    var x := p[0].x;
    assert p[0] in p;
    SameXs(p, x);
    SameMean(n, m, x);
    SquaresZero(p, Shift(-m, 1.0));
  }

  lemma SpreadDecides(p: seq<Point>, n: real, m: real)
    requires p != [] && n == |p| as real && n * m == Sum(p, X)
    ensures Spread(p, -m, 1.0) >= 0.0 && (Spread(p, -m, 1.0) == 0.0 <==> !TwoXs(p))
  {
    if TwoXs(p) {
      SpreadPositive(p, -m, 1.0);
    } else {
      NoSpread(p, n, m);
    }
  }

  lemma Quotient(n: real, sx: real) returns (m: real)
    requires n > 0.0
    ensures n * m == sx
  {
    m := sx / n;
  }

  /** The denominator is positive exactly when two x differ; otherwise it is 0. */
  lemma DenominatorPositive(p: seq<Point>, n: real, sx: real, sxx: real, d: real)
    requires p != []
    requires n == |p| as real && sx == Sum(p, X) && sxx == Sum(p, XX) && d == n * sxx - Square(sx)
    ensures d >= 0.0 && (d > 0.0 <==> TwoXs(p))
  {
    var m := Quotient(n, sx);
    DenominatorIsSpread(p, n, sx, sxx, m);
    SpreadDecides(p, n, m);
    PositiveFactor(n, Spread(p, -m, 1.0), d);
  }

  // ----- the closed forms -----

  lemma Cancel(z: real, d: real)
    requires d != 0.0 && z * d == 0.0
    ensures z == 0.0
  {
  }

  /** Dividing an equation by `d`. */
  lemma Divided(k: real, u: real, v: real, x: real, y: real, d: real, a: real, b: real)
    requires d != 0.0 && k * u + v * x == y * d && u == -a * d && v == -b * d
    ensures y + a * k + b * x == 0.0
  {
    assert (y + a * k + b * x) * d == y * d - k * u - v * x;
    Cancel(y + a * k + b * x, d);
  }

  /** The closed forms solve the normal equations. `a` and `b` are the negated parameters. */
  lemma NormalEquations(n: real, sx: real, sy: real, sxx: real, sxy: real, d: real, a: real, b: real)
    requires d == n * sxx - Square(sx) && d != 0.0
    requires -a == (sy * sxx - sx * sxy) / d && -b == (n * sxy - sx * sy) / d
    ensures sy + a * n + b * sx == 0.0
    ensures sxy + a * sx + b * sxx == 0.0
  {
    var u, v := sy * sxx - sx * sxy, n * sxy - sx * sy;
    assert n * u + v * sx == sy * d;
    Divided(n, u, v, sx, sy, d, a, b);
    assert sx * u + v * sxx == sxy * d;
    Divided(sx, u, v, sxx, sxy, d, a, b);
  }

  /** The residuals sum up to 0, also when weighted with x: the line solves the normal
      equations. */
  ghost predicate Balanced(p: seq<Point>, l: Line) {
    Sum(p, Residual(l)) == 0.0 && Sum(p, Product(X, Residual(l))) == 0.0
  }

  lemma BalancedIfNormal(p: seq<Point>, l: Line, a: real, b: real)
    requires a == -l.a && b == -l.b
    requires Sum(p, Y) + a * |p| as real + b * Sum(p, X) == 0.0
    requires Sum(p, XY) + a * Sum(p, X) + b * Sum(p, XX) == 0.0
    ensures Balanced(p, l)
  {
    ResidualSum(p, l, a, b);
    WeightedResidualSum(p, l, a, b);
  }

  /** Least squares: a balanced line deviates less than any other. */
  lemma LeastSquares(p: seq<Point>, l: Line)
    requires TwoXs(p) && Balanced(p, l)
    ensures IsLeastSquares(p, l)
  {
    forall m: Line
      ensures Deviation(p, l) <= Deviation(p, m) && (Deviation(p, l) == Deviation(p, m) ==> m == l)
    {
      var c, d := m.a - l.a, m.b - l.b;
      ShiftedDeviation(p, l, c, d, m);
      SpreadPositive(p, c, d);
    }
  }

  /** What the closed forms are for. */
  lemma ClosedForms(p: seq<Point>, n: real, sx: real, sy: real, sxx: real, sxy: real, d: real, a: real, b: real)
    requires p != []
    requires n == |p| as real && sx == Sum(p, X) && sy == Sum(p, Y) && sxx == Sum(p, XX) && sxy == Sum(p, XY)
    requires d == n * sxx - Square(sx) && d != 0.0
    requires a == (sy * sxx - sx * sxy) / d && b == (n * sxy - sx * sy) / d
    ensures Balanced(p, Line(a, b)) && IsLeastSquares(p, Line(a, b))
  {
    DenominatorPositive(p, n, sx, sxx, d);
    NormalEquations(n, sx, sy, sxx, sxy, d, -a, -b);
    BalancedIfNormal(p, Line(a, b), -a, -b);
    LeastSquares(p, Line(a, b));
  }

  /** If two x differ, a line of least squares exists. */
  lemma BestLineExists(p: seq<Point>) returns (best: Line)
    requires TwoXs(p)
    ensures Balanced(p, best) && IsLeastSquares(p, best)
  {
    var n, sx, sy, sxx, sxy := |p| as real, Sum(p, X), Sum(p, Y), Sum(p, XX), Sum(p, XY);
    var d := n * sxx - Square(sx);
    DenominatorPositive(p, n, sx, sxx, d);
    best := Line((sy * sxx - sx * sxy) / d, (n * sxy - sx * sy) / d);
    ClosedForms(p, n, sx, sy, sxx, sxy, d, best.a, best.b);
  }

  /** A line is the one of least squares exactly if it solves the normal equations. */
  lemma LeastSquaresExact(p: seq<Point>, l: Line)
    requires TwoXs(p)
    ensures IsLeastSquares(p, l) <==> Balanced(p, l)
  {
    if Balanced(p, l) {
      LeastSquares(p, l);
    }
    if IsLeastSquares(p, l) {
      var best := BestLineExists(p);
      assert Deviation(p, l) <= Deviation(p, best) && Deviation(p, best) <= Deviation(p, l);
    }
  }

  /** Points on one line are recovered exactly. */
  lemma LineRecovered(p: seq<Point>, l: Line, best: Line)
    requires IsLeastSquares(p, best) && forall pt :: pt in p ==> pt.y == l.a + l.b * pt.x
    ensures best == l
  {
    ZeroDeviation(p, l);
    ZeroDeviation(p, best);
    assert Deviation(p, best) <= Deviation(p, l);
  }
}
