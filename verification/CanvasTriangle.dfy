/** Painting a triangle on a canvas, in exact arithmetic. The scan leaves out pixels on the far
    side of the triangle's bounding box; this is right exactly for triangles that are not too
    thin. */
module CanvasTriangle {
  import opened Canvas
  import opened RealArithmetic

  datatype Coord = Coord(x: real, y: real)

  /** A triangle with its color and opacity. */
  datatype Triangle = Triangle(one: Coord, two: Coord, three: Coord, r: real, g: real, b: real, a: real)

  const SMALLEST_DETERMINANT := 0.0000001

  function Minus(p: Coord, q: Coord): Coord { Coord(p.x - q.x, p.y - q.y) }

  function Dot(p: Coord, q: Coord): real { p.x * q.x + p.y * q.y }

  function Gmax(x: real, y: real): real { if x > y then x else y }

  // ----- what the loop computes for a pixel -----

  /** All three corners lie on one side of the position, in one of the directions. */
  predicate OutsideX(t: Triangle, x: real) {
    (x < t.one.x && x < t.two.x && x < t.three.x) || (x > t.one.x && x > t.two.x && x > t.three.x)
  }

  predicate OutsideY(t: Triangle, y: real) {
    (y < t.one.y && y < t.two.y && y < t.three.y) || (y > t.one.y && y > t.two.y && y > t.three.y)
  }

  predicate OutsideBox(t: Triangle, p: Coord) { OutsideX(t, p.x) || OutsideY(t, p.y) }

  /** The Gram determinant of the two edges that leave the first corner. */
  function Det(t: Triangle): real {
    var e, f := Minus(t.three, t.one), Minus(t.two, t.one);
    Dot(e, e) * Dot(f, f) - Dot(e, f) * Dot(e, f)
  }

  /** The numerators of both coordinates. */
  function NumU(e: Coord, f: Coord, p: Coord): real { Dot(f, f) * Dot(e, p) - Dot(e, f) * Dot(f, p) }
  function NumV(e: Coord, f: Coord, p: Coord): real { Dot(e, e) * Dot(f, p) - Dot(e, f) * Dot(e, p) }

  function U(t: Triangle, p: Coord): real {
    NumU(Minus(t.three, t.one), Minus(t.two, t.one), Minus(p, t.one)) * (1.0 / Gmax(Det(t), SMALLEST_DETERMINANT))
  }

  function V(t: Triangle, p: Coord): real {
    NumV(Minus(t.three, t.one), Minus(t.two, t.one), Minus(p, t.one)) * (1.0 / Gmax(Det(t), SMALLEST_DETERMINANT))
  }

  predicate Covered(t: Triangle, p: Coord) { U(t, p) >= 0.0 && V(t, p) >= 0.0 && U(t, p) + V(t, p) < 1.0 }

  function Mixed(mix: (real, real, real) -> real, t: Triangle, c: Rgb): Rgb {
    Rgb(mix(c.r, t.r, t.a), mix(c.g, t.g, t.a), mix(c.b, t.b, t.a))
  }

  /** The color a pixel gets in a scan without early outs. */
  function Shaded(mix: (real, real, real) -> real, t: Triangle, p: Coord, c: Rgb): Rgb {
    if Covered(t, p) then Mixed(mix, t, c) else c
  }

  /** The color it gets in the scan with early outs. */
  function Scanned(mix: (real, real, real) -> real, t: Triangle, p: Coord, c: Rgb): Rgb {
    if OutsideBox(t, p) then c else Shaded(mix, t, p, c)
  }

  /** A pixel's position on the unit square. */
  function PositionOf(dim: nat, i: nat): real
    requires dim > 0
  {
    (i + 1) as real * (1.0 / dim as real)
  }

  function PixelAt(xDim: nat, yDim: nat, i: nat, j: nat): Coord
    requires xDim > 0 && yDim > 0
  {
    Coord(PositionOf(xDim, i), PositionOf(yDim, j))
  }

  // ----- the scan -----

  method AddTriangle(canvas: GCanvas, mix: (real, real, real) -> real, t: Triangle)
    requires canvas.Valid()
    modifies canvas`data
    ensures canvas.Valid()
    ensures forall i, j :: 0 <= i < canvas.xDim && 0 <= j < canvas.yDim ==>
      canvas.data[i][j] == Scanned(mix, t, PixelAt(canvas.xDim, canvas.yDim, i, j), old(canvas.data[i][j]))
    ensures forall i, j :: 0 <= i < canvas.xDim && 0 <= j < canvas.yDim ==>
      var p := Coord(PositionOf(canvas.xDim, i), PositionOf(canvas.yDim, j));
      var c := old(canvas.data[i][j]);
      var left := p.x < t.one.x && p.x < t.two.x && p.x < t.three.x;
      var right := p.x > t.one.x && p.x > t.two.x && p.x > t.three.x;
      var below := p.y < t.one.y && p.y < t.two.y && p.y < t.three.y;
      var above := p.y > t.one.y && p.y > t.two.y && p.y > t.three.y;
      canvas.data[i][j] ==
      if U(t, p) >= 0.0 && V(t, p) >= 0.0 && U(t, p) + V(t, p) < 1.0 && !left && !right && !below && !above
        then Rgb(mix(c.r, t.r, t.a), mix(c.g, t.g, t.a), mix(c.b, t.b, t.a))
      else c
    ensures Det(t) >= 0.0000001 ==> forall i, j :: 0 <= i < canvas.xDim && 0 <= j < canvas.yDim ==>
      var p := Coord(PositionOf(canvas.xDim, i), PositionOf(canvas.yDim, j));
      var c := old(canvas.data[i][j]);
      canvas.data[i][j] ==
      if InTriangle(t, p) then Rgb(mix(c.r, t.r, t.a), mix(c.g, t.g, t.a), mix(c.b, t.b, t.a)) else c
  {
    var ix := 0;
    while ix < canvas.xDim
      invariant 0 <= ix <= canvas.xDim && canvas.Valid()
      invariant forall i, j :: 0 <= i < ix && 0 <= j < canvas.yDim ==>
        canvas.data[i][j] == Scanned(mix, t, PixelAt(canvas.xDim, canvas.yDim, i, j), old(canvas.data[i][j]))
      invariant forall i :: ix <= i < canvas.xDim ==> canvas.data[i] == old(canvas.data[i])
    {
      var x := PositionOf(canvas.xDim, ix);
      if OutsideX(t, x) {
        ix := ix + 1;
        continue;
      }
      var column := ScanColumn(mix, t, x, canvas.data[ix]);
      canvas.data := canvas.data[ix := column];
      ix := ix + 1;
    }
    if Det(t) >= 0.0000001 {
      forall i, j | 0 <= i < canvas.xDim && 0 <= j < canvas.yDim
        ensures var p, c := PixelAt(canvas.xDim, canvas.yDim, i, j), old(canvas.data[i][j]);
                canvas.data[i][j] ==
                if InTriangle(t, p) then Rgb(mix(c.r, t.r, t.a), mix(c.g, t.g, t.a), mix(c.b, t.b, t.a)) else c
      {
        var p := PixelAt(canvas.xDim, canvas.yDim, i, j);
        PaintsTriangle(t, p);
        if OutsideBox(t, p) {
          CoveredInBox(t, p);
        }
      }
    }
  }

  /** The inner loop. */
  method ScanColumn(mix: (real, real, real) -> real, t: Triangle, x: real, column: seq<Rgb>) returns (r: seq<Rgb>)
    requires !OutsideX(t, x)
    ensures |r| == |column|
    ensures forall j :: 0 <= j < |r| ==>
      r[j] == Scanned(mix, t, Coord(x, PositionOf(|r|, j)), column[j])
  {
    r := column;
    var iy := 0;
    while iy < |column|
      invariant 0 <= iy <= |column| == |r|
      invariant forall j :: 0 <= j < iy ==>
        r[j] == Scanned(mix, t, Coord(x, PositionOf(|r|, j)), column[j])
      invariant forall j :: iy <= j < |r| ==> r[j] == column[j]
    {
      var pos := Coord(x, PositionOf(|column|, iy));
      if OutsideY(t, pos.y) {
        iy := iy + 1;
        continue;
      }
      var u, v := U(t, pos), V(t, pos);
      if u >= 0.0 && v >= 0.0 && u + v < 1.0 {
        r := r[iy := Mixed(mix, t, r[iy])];
      }
      iy := iy + 1;
    }
  }

  // ----- what it means for a position to lie in the triangle -----

  /** The position with coordinates u and v along the edges that leave the first corner. */
  predicate IsAt(t: Triangle, u: real, v: real, p: Coord) {
    p.x == t.one.x + u * (t.three.x - t.one.x) + v * (t.two.x - t.one.x) &&
    p.y == t.one.y + u * (t.three.y - t.one.y) + v * (t.two.y - t.one.y)
  }

  /** A position in the triangle, the edge from two to three excluded. */
  ghost predicate InTriangle(t: Triangle, p: Coord) {
    exists u: real, v: real :: u >= 0.0 && v >= 0.0 && u + v < 1.0 && IsAt(t, u, v, p)
  }

  // ----- Cramer's rule -----

  function Cross(e: Coord, f: Coord): real { e.x * f.y - e.y * f.x }

  lemma DetIsSquare(e: Coord, f: Coord)
    ensures Dot(e, e) * Dot(f, f) - Dot(e, f) * Dot(e, f) == Cross(e, f) * Cross(e, f)
  {
  }

  lemma NumUIsCross(e: Coord, f: Coord, p: Coord)
    ensures NumU(e, f, p) == Cross(e, f) * (p.x * f.y - p.y * f.x)
  {
  }

  lemma NumVIsCross(e: Coord, f: Coord, p: Coord)
    ensures NumV(e, f, p) == Cross(e, f) * (e.x * p.y - e.y * p.x)
  {
  }

  lemma CrossSolves(a: real, b: real, c: real, d: real, x: real, y: real, cross: real, nu: real, nv: real, det: real)
    requires cross == a * d - b * c && det == cross * cross
    requires nu == cross * (x * d - y * c) && nv == cross * (a * y - b * x)
    ensures nu * a + nv * c == det * x
    ensures nu * b + nv * d == det * y
  {
    assert (x * d - y * c) * a + (a * y - b * x) * c == cross * x;
    assert (x * d - y * c) * b + (a * y - b * x) * d == cross * y;
  }

  /** Both numerators are the determinant times the coordinates. */
  lemma Cramer(e: Coord, f: Coord, p: Coord, det: real)
    requires det == Dot(e, e) * Dot(f, f) - Dot(e, f) * Dot(e, f)
    ensures NumU(e, f, p) * e.x + NumV(e, f, p) * f.x == det * p.x
    ensures NumU(e, f, p) * e.y + NumV(e, f, p) * f.y == det * p.y
  {
    DetIsSquare(e, f);
    NumUIsCross(e, f, p);
    NumVIsCross(e, f, p);
    CrossSolves(e.x, e.y, f.x, f.y, p.x, p.y, Cross(e, f), NumU(e, f, p), NumV(e, f, p), det);
  }

  lemma DivideOut(n: real, m: real, a: real, c: real, det: real, x: real)
    requires det > 0.0 && n * a + m * c == det * x
    ensures n * (1.0 / det) * a + m * (1.0 / det) * c == x
  {
    var inv := 1.0 / det;
    assert inv * det == 1.0;
    assert inv * (n * a + m * c) == inv * det * x;
  }

  /** For a determinant that is not replaced, u and v are the coordinates of the pixel. */
  lemma CoordinatesFound(t: Triangle, p: Coord)
    requires Det(t) >= SMALLEST_DETERMINANT
    ensures IsAt(t, U(t, p), V(t, p), p)
  {
    var u, v := Coordinates(t, p);
    AlongEdges(t, u, v, p);
  }

  lemma NotReplaced(t: Triangle, p: Coord) returns (det: real, u: real, v: real)
    requires Det(t) >= SMALLEST_DETERMINANT
    ensures det == Det(t) && u == U(t, p) && v == V(t, p)
    ensures var e, f, q := Minus(t.three, t.one), Minus(t.two, t.one), Minus(p, t.one);
            u == NumU(e, f, q) * (1.0 / det) && v == NumV(e, f, q) * (1.0 / det)
  {
    det, u, v := Det(t), U(t, p), V(t, p);
  }

  lemma Coordinates(t: Triangle, p: Coord) returns (u: real, v: real)
    requires Det(t) >= SMALLEST_DETERMINANT
    ensures u == U(t, p) && v == V(t, p)
    ensures var e, f, q := Minus(t.three, t.one), Minus(t.two, t.one), Minus(p, t.one);
            u * e.x + v * f.x == q.x && u * e.y + v * f.y == q.y
  {
    var det;
    det, u, v := NotReplaced(t, p);
    Found(Minus(t.three, t.one), Minus(t.two, t.one), Minus(p, t.one), det, u, v);
  }

  lemma AlongEdges(t: Triangle, u: real, v: real, p: Coord)
    requires var e, f, q := Minus(t.three, t.one), Minus(t.two, t.one), Minus(p, t.one);
             u * e.x + v * f.x == q.x && u * e.y + v * f.y == q.y
    ensures IsAt(t, u, v, p)
  {
  }

  lemma Found(e: Coord, f: Coord, q: Coord, det: real, u: real, v: real)
    requires det == Dot(e, e) * Dot(f, f) - Dot(e, f) * Dot(e, f) && det > 0.0
    requires u == NumU(e, f, q) * (1.0 / det) && v == NumV(e, f, q) * (1.0 / det)
    ensures u * e.x + v * f.x == q.x && u * e.y + v * f.y == q.y
  {
    Cramer(e, f, q, det);
    DivideOut(NumU(e, f, q), NumV(e, f, q), e.x, f.x, det, q.x);
    DivideOut(NumU(e, f, q), NumV(e, f, q), e.y, f.y, det, q.y);
  }

  lemma DotCombination(g: Coord, e: Coord, f: Coord, p: Coord, u: real, v: real)
    requires p.x == u * e.x + v * f.x && p.y == u * e.y + v * f.y
    ensures Dot(g, p) == u * Dot(g, e) + v * Dot(g, f)
  {
  }

  lemma Eliminate(ee: real, ef: real, ff: real, u: real, v: real, ep: real, fp: real, det: real)
    requires ep == u * ee + v * ef && fp == u * ef + v * ff && det == ee * ff - ef * ef
    ensures ff * ep - ef * fp == u * det
    ensures ee * fp - ef * ep == v * det
  {
    assert ff * (v * ef) == ef * (v * ff);
    assert ee * (u * ef) == ef * (u * ee);
  }

  /** The numerators at a position with known coordinates. */
  lemma NumeratorsAt(e: Coord, f: Coord, p: Coord, u: real, v: real, det: real)
    requires p.x == u * e.x + v * f.x && p.y == u * e.y + v * f.y
    requires det == Dot(e, e) * Dot(f, f) - Dot(e, f) * Dot(e, f)
    ensures NumU(e, f, p) == u * det && NumV(e, f, p) == v * det
  {
    DotCombination(e, e, f, p, u, v);
    DotCombination(f, e, f, p, u, v);
    DotSymmetric(e, f);
    Eliminate(Dot(e, e), Dot(e, f), Dot(f, f), u, v, Dot(e, p), Dot(f, p), det);
  }

  lemma DotSymmetric(e: Coord, f: Coord)
    ensures Dot(e, f) == Dot(f, e)
  {
  }

  /** What u and v are at a position with known coordinates, for any triangle. */
  lemma CoordinatesScaled(t: Triangle, u: real, v: real, p: Coord, scale: real)
    requires IsAt(t, u, v, p) && scale == Det(t) * (1.0 / Gmax(Det(t), SMALLEST_DETERMINANT))
    ensures U(t, p) == u * scale && V(t, p) == v * scale
  {
    NumeratorsAt(Minus(t.three, t.one), Minus(t.two, t.one), Minus(p, t.one), u, v, Det(t));
  }

  // ----- triangles that are thick enough -----

  /** What is painted is the triangle. */
  lemma PaintsTriangle(t: Triangle, p: Coord)
    requires Det(t) >= 0.0000001
    ensures Covered(t, p) <==> InTriangle(t, p)
  {
    CoordinatesFound(t, p);
    if InTriangle(t, p) {
      var u: real, v: real :| u >= 0.0 && v >= 0.0 && u + v < 1.0 && IsAt(t, u, v, p);
      CoordinatesScaled(t, u, v, p, 1.0);
    }
  }

  /** Pixels are counted from 1, and the last one is on the border of the unit square. */
  lemma PositionLaw(dim: nat, i: nat)
    requires dim > 0
    ensures PositionOf(dim, i) * dim as real == (i + 1) as real
  {
    assert 1.0 / dim as real * dim as real == 1.0;
  }

  /** The determinant is the square of the doubled area. */
  lemma DetLaw(t: Triangle)
    ensures var doubled := (t.three.x - t.one.x) * (t.two.y - t.one.y) - (t.three.y - t.one.y) * (t.two.x - t.one.x);
            Det(t) == doubled * doubled
  {
    DetIsSquare(Minus(t.three, t.one), Minus(t.two, t.one));
  }

  /** For any triangle with an area: the covered positions are those with coordinates that are not
      negative and whose sum is less than 1, or less than 0.0000001 / Det if that is more. */
  lemma CoveredExact(t: Triangle, p: Coord)
    requires Det(t) > 0.0
    ensures Covered(t, p) <==>
            exists u: real, v: real ::
              u >= 0.0 && v >= 0.0 && (u + v) * Det(t) < Gmax(Det(t), 0.0000001) && IsAt(t, u, v, p)
  {
    var u, v := CoordinatesOf(t, p, Det(t));
    CoveredAtAny(t, p, u, v, Det(t), Gmax(Det(t), 0.0000001));
    if u0: real, v0: real :|
      u0 >= 0.0 && v0 >= 0.0 && (u0 + v0) * Det(t) < Gmax(Det(t), 0.0000001) && IsAt(t, u0, v0, p)
    {
      CoveredAtAny(t, p, u0, v0, Det(t), Gmax(Det(t), 0.0000001));
    }
  }

  lemma CoveredAtAny(t: Triangle, p: Coord, u: real, v: real, det: real, most: real)
    requires det == Det(t) > 0.0 && most == Gmax(det, 0.0000001) && IsAt(t, u, v, p)
    ensures Covered(t, p) <==> u >= 0.0 && v >= 0.0 && (u + v) * det < most
  {
    var scale := ScaleFor(det, most);
    CoordinatesScaled(t, u, v, p, scale);
    CoveredCondition(u, v, scale, most, det, U(t, p), V(t, p));
  }

  lemma ScaleFor(det: real, most: real) returns (scale: real)
    requires det > 0.0 && most > 0.0
    ensures scale == det * (1.0 / most) && scale > 0.0 && scale * most == det
  {
    var inverse := 1.0 / most;
    assert inverse * most == 1.0;
    scale := det * inverse;
    SameSigns(det, inverse, scale);
  }

  lemma CoordinatesOf(t: Triangle, p: Coord, det: real) returns (u: real, v: real)
    requires det == Det(t) > 0.0
    ensures IsAt(t, u, v, p)
  {
    var e, f, q := Minus(t.three, t.one), Minus(t.two, t.one), Minus(p, t.one);
    u, v := NumU(e, f, q) * (1.0 / det), NumV(e, f, q) * (1.0 / det);
    Found(e, f, q, det, u, v);
    AlongEdges(t, u, v, p);
  }

  /** The condition of the loop, said of the coordinates before they are scaled. */
  lemma CoveredCondition(u: real, v: real, scale: real, most: real, det: real, su: real, sv: real)
    requires su == u * scale && sv == v * scale && scale > 0.0 && most > 0.0 && scale * most == det
    ensures su >= 0.0 && sv >= 0.0 && su + sv < 1.0 <==> u >= 0.0 && v >= 0.0 && (u + v) * det < most
  {
    SignsScaled(u, scale, su);
    SignsScaled(v, scale, sv);
    BelowScaled(u, v, scale, most, det, su, sv);
  }

  lemma SignsScaled(u: real, scale: real, scaled: real)
    requires scale > 0.0 && scaled == u * scale
    ensures scaled >= 0.0 <==> u >= 0.0
  {
    if u < 0.0 {
      SameSigns(-u, scale, -scaled);
    } else {
      ProductNotNegative(u, scale, scaled);
    }
  }

  lemma BelowScaled(u: real, v: real, scale: real, most: real, det: real, su: real, sv: real)
    requires scale * most == det && most > 0.0 && su == u * scale && sv == v * scale
    ensures su + sv < 1.0 <==> (u + v) * det < most
  {
    var less := 1.0 - (su + sv);
    var product := less * most;
    Summed(u, v, scale, most, det, su, sv);
    assert product == most - (u + v) * det;
    if less > 0.0 {
      SameSigns(less, most, product);
    } else {
      ProductNotNegative(-less, most, -product);
    }
  }

  lemma Summed(u: real, v: real, scale: real, most: real, det: real, su: real, sv: real)
    requires scale * most == det && su == u * scale && sv == v * scale
    ensures (u + v) * det == (su + sv) * most
  {
    assert (u + v) * (scale * most) == (u + v) * scale * most;
    assert (u + v) * scale == su + sv;
  }

  lemma PositiveMean(w: real, u: real, v: real, a: real, b: real, c: real)
    requires w > 0.0 && u >= 0.0 && v >= 0.0
    ensures a > 0.0 && b > 0.0 && c > 0.0 ==> w * a + u * b + v * c > 0.0
  {
    if a > 0.0 && b > 0.0 && c > 0.0 {
      assert w * a > 0.0 && u * b >= 0.0 && v * c >= 0.0;
    }
  }

  /** A mean with weights 1 - u - v, u and v is not beyond all three. */
  lemma MeanBetween(one: real, two: real, three: real, u: real, v: real, x: real)
    requires u >= 0.0 && v >= 0.0 && u + v < 1.0 && x == one + u * (three - one) + v * (two - one)
    ensures !(x < one && x < two && x < three) && !(x > one && x > two && x > three)
  {
    var w := 1.0 - u - v;
    assert w * (one - x) + u * (three - x) + v * (two - x) == 0.0;
    assert w * (x - one) + u * (x - three) + v * (x - two) == 0.0;
    PositiveMean(w, u, v, one - x, three - x, two - x);
    PositiveMean(w, u, v, x - one, x - three, x - two);
  }

  lemma TriangleInBox(t: Triangle, p: Coord)
    requires InTriangle(t, p)
    ensures !OutsideBox(t, p)
  {
    var u: real, v: real :| u >= 0.0 && v >= 0.0 && u + v < 1.0 && IsAt(t, u, v, p);
    MeanBetween(t.one.x, t.two.x, t.three.x, u, v, p.x);
    MeanBetween(t.one.y, t.two.y, t.three.y, u, v, p.y);
  }

  lemma CoveredInBox(t: Triangle, p: Coord)
    requires Det(t) >= SMALLEST_DETERMINANT && OutsideBox(t, p)
    ensures !Covered(t, p)
  {
    PaintsTriangle(t, p);
    if Covered(t, p) {
      TriangleInBox(t, p);
    }
  }

  // ----- thin triangles -----

  lemma DetNotNegative(t: Triangle)
    ensures Det(t) >= 0.0
  {
    var e, f := Minus(t.three, t.one), Minus(t.two, t.one);
    DetIsSquare(e, f);
    NotNegative(Cross(e, f), Cross(e, f) * Cross(e, f));
  }

  lemma NotNegative(v: real, square: real)
    requires square == v * v
    ensures square >= 0.0 && (v != 0.0 ==> square > 0.0)
  {
    if v != 0.0 {
      SameSigns(v, v, square);
    }
  }

  /** A position on a straight line through the first and another corner, beyond the latter. */
  function Beyond(t: Triangle, u: real, v: real): Coord {
    Coord(t.one.x + u * (t.three.x - t.one.x) + v * (t.two.x - t.one.x),
          t.one.y + u * (t.three.y - t.one.y) + v * (t.two.y - t.one.y))
  }

  lemma Stretched(a: real, stretch: real, sa: real)
    requires stretch > 1.0 && sa == stretch * a
    ensures (a > 0.0 ==> sa > a) && (a < 0.0 ==> sa < a) && (a == 0.0 ==> sa == 0.0)
  {
    if a != 0.0 {
      var more := (stretch - 1.0) * a;
      assert sa == a + more;
      if a > 0.0 {
        SameSigns(stretch - 1.0, a, more);
      } else {
        SameSigns(stretch - 1.0, -a, -more);
      }
    }
  }

  predicate Farther(a: real, c: real) { (a > 0.0 && c <= a) || (a < 0.0 && c >= a) }

  /** Of the corners three and two the one farther out, stretched beyond itself. */
  function FarPosition(t: Triangle, stretch: real): Coord {
    if Farther(t.three.x - t.one.x, t.two.x - t.one.x) then Beyond(t, stretch, 0.0) else Beyond(t, 0.0, stretch)
  }

  lemma FarOutside(t: Triangle, stretch: real)
    requires stretch > 1.0 && (t.three.x != t.one.x || t.two.x != t.one.x)
    ensures OutsideBox(t, FarPosition(t, stretch))
  {
    var a, c := t.three.x - t.one.x, t.two.x - t.one.x;
    Stretched(a, stretch, stretch * a);
    Stretched(c, stretch, stretch * c);
  }

  /** Stretched less than the determinant is, the edges stay covered. */
  lemma FarCovered(t: Triangle, stretch: real, scale: real)
    requires scale == Det(t) * (1.0 / Gmax(Det(t), SMALLEST_DETERMINANT)) && 0.0 <= stretch * scale < 1.0
    ensures Covered(t, FarPosition(t, stretch))
  {
    if Farther(t.three.x - t.one.x, t.two.x - t.one.x) {
      CoordinatesScaled(t, stretch, 0.0, Beyond(t, stretch, 0.0), scale);
    } else {
      CoordinatesScaled(t, 0.0, stretch, Beyond(t, 0.0, stretch), scale);
    }
  }

  lemma NotBothUpright(t: Triangle)
    requires Det(t) > 0.0
    ensures t.three.x != t.one.x || t.two.x != t.one.x
  {
    DetIsSquare(Minus(t.three, t.one), Minus(t.two, t.one));
  }

  lemma ScaleOf(det: real) returns (scale: real)
    requires 0.0 < det < SMALLEST_DETERMINANT
    ensures scale == det * (1.0 / Gmax(det, SMALLEST_DETERMINANT)) && 0.0 < scale < 1.0
  {
    scale := det * (1.0 / SMALLEST_DETERMINANT);
  }

  lemma StretchExists(scale: real) returns (stretch: real)
    requires 0.0 < scale < 1.0
    ensures stretch > 1.0 && 0.0 <= stretch * scale < 1.0
  {
    stretch := 2.0 / (1.0 + scale);
    assert stretch * (1.0 + scale) == 2.0;
  }

  /** If the corners lie on one line, every position is covered. */
  lemma FlatCoversAll(t: Triangle, p: Coord)
    requires Det(t) == 0.0
    ensures Covered(t, p)
  {
    var e, f, q := Minus(t.three, t.one), Minus(t.two, t.one), Minus(p, t.one);
    DetIsSquare(e, f);
    NotNegative(Cross(e, f), Cross(e, f) * Cross(e, f));
    NumUIsCross(e, f, q);
    NumVIsCross(e, f, q);
  }

  /** The determinant of a thin triangle is replaced by a larger number, so that too much is
      painted: a covered position lies outside the box. */
  lemma ThinLeaks(t: Triangle) returns (p: Coord)
    requires Det(t) < SMALLEST_DETERMINANT
    ensures OutsideBox(t, p) && Covered(t, p)
  {
    DetNotNegative(t);
    if Det(t) == 0.0 {
      p := Coord(Gmax(t.one.x, Gmax(t.two.x, t.three.x)) + 1.0, t.one.y);
      FlatCoversAll(t, p);
    } else {
      var scale := ScaleOf(Det(t));
      var stretch := StretchExists(scale);
      NotBothUpright(t);
      p := FarPosition(t, stretch);
      FarOutside(t, stretch);
      FarCovered(t, stretch, scale);
    }
  }

  // ----- the exact condition -----

  /** The early outs skip no covered position exactly when the determinant is not replaced. */
  lemma EarlyOutsExact(t: Triangle)
    ensures (forall p :: OutsideBox(t, p) ==> !Covered(t, p)) <==> Det(t) >= 0.0000001
  {
    if Det(t) >= SMALLEST_DETERMINANT {
      forall p | OutsideBox(t, p) ensures !Covered(t, p) {
        CoveredInBox(t, p);
      }
    } else {
      var p := ThinLeaks(t);
    }
  }

  /** The formulas paint the triangle and nothing else exactly under the same condition. */
  lemma TrianglePaintedExact(t: Triangle)
    ensures (forall p :: Covered(t, p) <==> InTriangle(t, p)) <==> Det(t) >= 0.0000001
  {
    if Det(t) >= SMALLEST_DETERMINANT {
      forall p ensures Covered(t, p) <==> InTriangle(t, p) {
        PaintsTriangle(t, p);
      }
    } else {
      var p := ThinLeaks(t);
      if InTriangle(t, p) {
        TriangleInBox(t, p);
      }
    }
  }
}
