/** When the early outs of the triangle scan change a picture. */
module CanvasPicture {
  import opened Canvas
  import opened CanvasTriangle
  import opened RealArithmetic

  /** On a canvas of this size the scans with and without early outs give the same picture,
      whatever is on the canvas and however colors are mixed. */
  ghost predicate SamePicture(t: Triangle, xDim: nat, yDim: nat) {
    forall i: nat, j: nat :: i < xDim && j < yDim ==> SameColor(t, PixelAt(xDim, yDim, i, j))
  }

  ghost predicate SameColor(t: Triangle, p: Coord) {
    forall mix: (real, real, real) -> real, c: Rgb :: Scanned(mix, t, p, c) == Shaded(mix, t, p, c)
  }

  /** They differ at covered positions outside of the box. */
  lemma SameColorExact(t: Triangle, p: Coord)
    ensures SameColor(t, p) <==> !(OutsideBox(t, p) && Covered(t, p))
  {
    if OutsideBox(t, p) && Covered(t, p) {
      var mix := (x: real, y: real, a: real) => x + 1.0;
      assert Scanned(mix, t, p, BLACK) != Shaded(mix, t, p, BLACK);
    }
  }

  // ----- an example -----

  lemma LastPosition(n: nat)
    requires n > 0
    ensures PositionOf(n, n - 1) == 1.0
  {
  }

  /** A triangle without area paints every pixel, also the last one, which lies on the far corner
      of the unit square. */
  lemma FlatChangesPicture(t: Triangle, xDim: nat, yDim: nat)
    requires Det(t) == 0.0 && t.one.x < 1.0 && t.two.x < 1.0 && t.three.x < 1.0 && xDim > 0 && yDim > 0
    ensures !SamePicture(t, xDim, yDim)
  {
    var p := PixelAt(xDim, yDim, xDim - 1, yDim - 1);
    FlatCoversAll(t, p);
    LastPosition(xDim);
    SameColorExact(t, p);
  }

  lemma PointIsFlat(t: Triangle)
    requires t.one == t.two == t.three
    ensures Det(t) == 0.0
  {
    var zero := Coord(0.0, 0.0);
    assert Minus(t.three, t.one) == zero && Minus(t.two, t.one) == zero;
    assert Dot(zero, zero) == 0.0;
  }

  /** A triangle that is a single point changes every picture. */
  lemma PointChangesPicture(t: Triangle, xDim: nat, yDim: nat)
    requires t.one == t.two == t.three && t.one.x < 1.0 && xDim > 0 && yDim > 0
    ensures !SamePicture(t, xDim, yDim)
  {
    PointIsFlat(t);
    FlatChangesPicture(t, xDim, yDim);
  }

  /** For example on a canvas of two by two pixels. */
  lemma PointTriangle(t: Triangle)
    requires t.one == t.two == t.three == Coord(0.2, 0.2)
    ensures !SamePicture(t, 2, 2)
  {
    PointChangesPicture(t, 2, 2);
  }

  // ----- pixels lie close to every position -----

  /** A small enough step. */
  lemma StepSize(s: real, r: real) returns (h: real)
    requires s >= 0.0 && r > 0.0
    ensures h > 0.0 && h * s < r
  {
    h := r / (s + 1.0);
    assert h * (s + 1.0) == r;
  }

  lemma FineGrid(p: real, eps: real) returns (n: nat)
    requires p > 0.0 && eps > 0.0
    ensures n > 0 && n as real * eps >= 1.0 && n as real * p >= 1.0
  {
    n := (1.0 / eps).Floor + (1.0 / p).Floor + 2;
    AtLeastOne(n as real, eps);
    AtLeastOne(n as real, p);
  }

  lemma AtLeastOne(n: real, eps: real)
    requires eps > 0.0 && n >= 1.0 / eps
    ensures n * eps >= 1.0
  {
    assert (n - 1.0 / eps) * eps >= 0.0;
    assert 1.0 / eps * eps == 1.0;
  }

  lemma PixelNear(p: real, eps: real) returns (n: nat, i: nat)
    requires 0.0 < p <= 1.0 && eps > 0.0
    ensures i < n && p - eps <= PositionOf(n, i) <= p
  {
    n := FineGrid(p, eps);
    var k := (p * n as real).Floor;
    i := k - 1;
    GridPosition(p, eps, n as real, k as real, k as real * (1.0 / n as real));
  }

  lemma GridPosition(p: real, eps: real, n: real, k: real, q: real)
    requires n > 0.0 && 0.0 < p <= 1.0 && k <= p * n < k + 1.0 && n * eps >= 1.0 && q == k * (1.0 / n)
    ensures p - eps <= q <= p && k <= n
  {
    assert q * n == k;
    assert (p - q) * n >= 0.0;
    assert (p - q) * n < 1.0;
    assert (p - q - eps) * n < 0.0;
    assert (1.0 - p) * n >= 0.0;
  }

  // ----- half planes -----

  datatype HalfPlane = HalfPlane(c: real, a: real, b: real)

  function At(h: HalfPlane, p: Coord): real { h.c + h.a * p.x + h.b * p.y }

  function Abs(x: real): real { if x < 0.0 then -x else x }

  predicate Near(p: Coord, q: Coord, eps: real) { p.x - eps <= q.x <= p.x && p.y - eps <= q.y <= p.y }

  lemma BoundedProduct(a: real, d: real, eps: real)
    requires 0.0 <= d <= eps
    ensures a * d <= Abs(a) * eps
  {
    if a >= 0.0 {
      ProductNotNegative(a, eps - d, a * (eps - d));
    } else {
      ProductNotNegative(-a, d, -a * d);
      ProductNotNegative(-a, eps, -a * eps);
    }
  }

  lemma StaysInside(h: HalfPlane, p: Coord, q: Coord, eps: real)
    requires eps > 0.0 && eps * (Abs(h.a) + Abs(h.b)) < At(h, p) && Near(p, q, eps)
    ensures At(h, q) > 0.0
  {
    BoundedProduct(h.a, p.x - q.x, eps);
    BoundedProduct(h.b, p.y - q.y, eps);
    assert At(h, q) == At(h, p) - h.a * (p.x - q.x) - h.b * (p.y - q.y);
  }

  lemma Margin(h: HalfPlane, p: Coord) returns (eps: real)
    requires At(h, p) > 0.0
    ensures eps > 0.0 && eps * (Abs(h.a) + Abs(h.b)) < At(h, p)
  {
    eps := StepSize(Abs(h.a) + Abs(h.b), At(h, p));
  }

  function Least(x: real, y: real): real { if x < y then x else y }

  /** Close to a position inside of four half planes and of the unit square there is a pixel
      inside of all of them. */
  lemma PixelInside(h1: HalfPlane, h2: HalfPlane, h3: HalfPlane, h4: HalfPlane, p: Coord)
    returns (xDim: nat, yDim: nat, i: nat, j: nat)
    requires At(h1, p) > 0.0 && At(h2, p) > 0.0 && At(h3, p) > 0.0 && At(h4, p) > 0.0
    requires 0.0 < p.x < 1.0 && 0.0 < p.y < 1.0
    ensures i < xDim && j < yDim
    ensures var q := PixelAt(xDim, yDim, i, j); At(h1, q) > 0.0 && At(h2, q) > 0.0 && At(h3, q) > 0.0 && At(h4, q) > 0.0
  {
    var e1 := Margin(h1, p);
    var e2 := Margin(h2, p);
    var e3 := Margin(h3, p);
    var e4 := Margin(h4, p);
    var eps := Least(Least(e1, e2), Least(e3, e4));
    xDim, i := PixelNear(p.x, eps);
    yDim, j := PixelNear(p.y, eps);
    var q := PixelAt(xDim, yDim, i, j);
    StaysInside(h1, p, q, e1);
    StaysInside(h2, p, q, e2);
    StaysInside(h3, p, q, e3);
    StaysInside(h4, p, q, e4);
  }

  // ----- the covered positions as half planes -----

  /** m * Dot(g, p - o) - n * Dot(h, p - o), times k. */
  function Form(m: real, n: real, g: Coord, h: Coord, k: real, o: Coord): HalfPlane {
    var a, b := (m * g.x - n * h.x) * k, (m * g.y - n * h.y) * k;
    HalfPlane(-(a * o.x + b * o.y), a, b)
  }

  lemma FormMeans(m: real, n: real, g: Coord, h: Coord, k: real, o: Coord, p: Coord)
    ensures At(Form(m, n, g, h, k, o), p) == (m * Dot(g, Minus(p, o)) - n * Dot(h, Minus(p, o))) * k
  {
    var a, b, dx, dy := m * g.x - n * h.x, m * g.y - n * h.y, p.x - o.x, p.y - o.y;
    assert At(Form(m, n, g, h, k, o), p) == a * k * dx + b * k * dy;
    assert m * (g.x * dx + g.y * dy) - n * (h.x * dx + h.y * dy) == a * dx + b * dy;
    assert (a * dx + b * dy) * k == a * k * dx + b * k * dy;
  }

  function HalfU(t: Triangle): HalfPlane {
    var e, f := Minus(t.three, t.one), Minus(t.two, t.one);
    Form(Dot(f, f), Dot(e, f), e, f, 1.0 / Gmax(Det(t), SMALLEST_DETERMINANT), t.one)
  }

  function HalfV(t: Triangle): HalfPlane {
    var e, f := Minus(t.three, t.one), Minus(t.two, t.one);
    Form(Dot(e, e), Dot(e, f), f, e, 1.0 / Gmax(Det(t), SMALLEST_DETERMINANT), t.one)
  }

  function Rest(h: HalfPlane, k: HalfPlane): HalfPlane { HalfPlane(1.0 - h.c - k.c, -h.a - k.a, -h.b - k.b) }

  lemma HalfPlanesMean(t: Triangle, p: Coord)
    ensures At(HalfU(t), p) == U(t, p) && At(HalfV(t), p) == V(t, p)
    ensures At(Rest(HalfU(t), HalfV(t)), p) == 1.0 - U(t, p) - V(t, p)
  {
    var e, f := Minus(t.three, t.one), Minus(t.two, t.one);
    var k := 1.0 / Gmax(Det(t), SMALLEST_DETERMINANT);
    FormMeans(Dot(f, f), Dot(e, f), e, f, k, t.one, p);
    FormMeans(Dot(e, e), Dot(e, f), f, e, k, t.one, p);
    RestMeans(HalfU(t), HalfV(t), p);
  }

  lemma RestMeans(h: HalfPlane, k: HalfPlane, p: Coord)
    ensures At(Rest(h, k), p) == 1.0 - At(h, p) - At(k, p)
  {
  }

  // ----- a covered position beyond the outermost corner -----

  predicate Inside(p: Coord) { 0.0 < p.x < 1.0 && 0.0 < p.y < 1.0 }

  predicate InUnitSquare(t: Triangle) { Inside(t.one) && Inside(t.two) && Inside(t.three) }

  /** Small enough that a move does not change the side that a value is on. */
  lemma SmallMove(v: real, d: real, eta: real, room: real)
    requires eta * Abs(d) < room && eta > 0.0 && room <= v && room <= 1.0 - v
    ensures 0.0 < v + eta * d < 1.0
  {
    if d < 0.0 {
      assert eta * Abs(d) == -(eta * d);
      assert eta * -d > 0.0;
    } else {
      assert eta * d >= 0.0;
    }
  }

  lemma Weight(a: real, c: real) returns (w: real)
    requires Farther(a, c)
    ensures 0.0 < w <= 1.0
    ensures (a > 0.0 ==> 2.0 * a + w * c > 0.0) && (a < 0.0 ==> 2.0 * a + w * c < 0.0)
  {
    w := Abs(a) / (Abs(a) + Abs(c));
    Share(Abs(a), Abs(c), w);
    assert w * Abs(c) == (if c < 0.0 then -(w * c) else w * c);
  }

  lemma Share(a: real, c: real, w: real)
    requires a > 0.0 && c >= 0.0 && w == a / (a + c)
    ensures 0.0 < w <= 1.0 && 0.0 <= w * c <= a
  {
    assert w * (a + c) == a;
    if w > 1.0 {
      SameSigns(w - 1.0, a + c, (w - 1.0) * (a + c));
    }
    ProductNotNegative(w, a, w * a);
    ProductNotNegative(w, c, w * c);
  }

  function Move(c: Coord, d: Coord, eta: real): Coord { Coord(c.x + eta * d.x, c.y + eta * d.y) }

  /** A way outward from the outermost corner, which is three, along both edges. */
  lemma WayOut(t: Triangle) returns (w: real, d: Coord)
    requires Farther(t.three.x - t.one.x, t.two.x - t.one.x)
    ensures 0.0 < w <= 1.0 && (if t.three.x > t.one.x then d.x > 0.0 else d.x < 0.0)
    ensures forall eta: real {:trigger Move(t.three, d, eta)} ::
      IsAt(t, 1.0 + 2.0 * eta, eta * w, Move(t.three, d, eta))
  {
    var e, f := Minus(t.three, t.one), Minus(t.two, t.one);
    w := Weight(e.x, f.x);
    d := Coord(2.0 * e.x + w * f.x, 2.0 * e.y + w * f.y);
    forall eta: real ensures IsAt(t, 1.0 + 2.0 * eta, eta * w, Move(t.three, d, eta)) {
      Along(t.one.x, t.two.x, t.three.x, w, eta);
      Along(t.one.y, t.two.y, t.three.y, w, eta);
    }
  }

  lemma PositionBeyond(t: Triangle, scale: real) returns (p: Coord, u: real, v: real)
    requires InUnitSquare(t) && Farther(t.three.x - t.one.x, t.two.x - t.one.x) && 0.0 < scale < 1.0
    ensures Inside(p) && IsAt(t, u, v, p) && u * scale > 0.0 && v * scale > 0.0 && u * scale + v * scale < 1.0
    ensures if t.three.x > t.one.x then p.x > t.three.x else p.x < t.three.x
  {
    var w, d := WayOut(t);
    var eta := SmallEnough(t.three, d, scale);
    p, u, v := Move(t.three, d, eta), 1.0 + 2.0 * eta, eta * w;
    StaysCovered(scale, eta, w);
    Outward(d.x, eta);
  }

  lemma SmallEnough(c: Coord, d: Coord, scale: real) returns (eta: real)
    requires Inside(c) && 0.0 < scale < 1.0
    ensures eta > 0.0 && eta * 3.0 < 1.0 - scale
    ensures Inside(Move(c, d, eta))
  {
    var room := Room(c, scale);
    eta := StepSize(3.0 + Abs(d.x) + Abs(d.y), room);
    Parts(eta, Abs(d.x), Abs(d.y), room);
    SmallMove(c.x, d.x, eta, room);
    SmallMove(c.y, d.y, eta, room);
  }

  lemma Room(c: Coord, scale: real) returns (room: real)
    requires Inside(c) && 0.0 < scale < 1.0
    ensures 0.0 < room <= 1.0 - scale
    ensures room <= c.x && room <= 1.0 - c.x && room <= c.y && room <= 1.0 - c.y
  {
    room := Least(1.0 - scale, Least(Least(c.x, 1.0 - c.x), Least(c.y, 1.0 - c.y)));
  }

  lemma Parts(eta: real, x: real, y: real, room: real)
    requires eta > 0.0 && x >= 0.0 && y >= 0.0 && eta * (3.0 + x + y) < room
    ensures eta * 3.0 < room && eta * x < room && eta * y < room
  {
    assert eta * (3.0 + x + y) == eta * 3.0 + eta * x + eta * y;
    assert eta * x >= 0.0 && eta * y >= 0.0;
  }

  lemma Along(one: real, two: real, three: real, w: real, eta: real)
    ensures three + eta * (2.0 * (three - one) + w * (two - one))
         == one + (1.0 + 2.0 * eta) * (three - one) + eta * w * (two - one)
  {
    AlongEdges(three - one, two - one, w, eta);
  }

  lemma AlongEdges(e: real, f: real, w: real, eta: real)
    ensures e + eta * (2.0 * e + w * f) == (1.0 + 2.0 * eta) * e + eta * w * f
  {
  }

  lemma StaysCovered(scale: real, eta: real, w: real)
    requires 0.0 < scale < 1.0 && eta > 0.0 && 0.0 < w <= 1.0 && eta * 3.0 < 1.0 - scale
    ensures (1.0 + 2.0 * eta) * scale > 0.0 && eta * w * scale > 0.0
    ensures (1.0 + 2.0 * eta) * scale + eta * w * scale < 1.0
  {
    SameSigns(1.0 + 2.0 * eta, scale, (1.0 + 2.0 * eta) * scale);
    SameSigns(eta, w, eta * w);
    SameSigns(eta * w, scale, eta * w * scale);
    assert eta * (1.0 - w) >= 0.0;
    var more := 2.0 * eta + eta * w;
    assert (1.0 + 2.0 * eta) * scale + eta * w * scale == scale + more * scale;
    SameSigns(more, 1.0 - scale, more * (1.0 - scale));
    assert more * (1.0 - scale) == more - more * scale;
  }

  lemma Outward(d: real, eta: real)
    requires eta > 0.0
    ensures (d > 0.0 ==> eta * d > 0.0) && (d < 0.0 ==> eta * d < 0.0)
  {
    if d < 0.0 {
      SameSigns(eta, -d, eta * -d);
    }
  }

  // ----- a covered pixel outside of the box -----

  lemma PixelBeyond(t: Triangle) returns (xDim: nat, yDim: nat, i: nat, j: nat)
    requires InUnitSquare(t) && Farther(t.three.x - t.one.x, t.two.x - t.one.x)
    requires 0.0 < Det(t) < SMALLEST_DETERMINANT
    ensures i < xDim && j < yDim
    ensures var q := PixelAt(xDim, yDim, i, j); OutsideBox(t, q) && Covered(t, q)
  {
    var scale := ScaleOf(Det(t));
    var p, u, v := PositionBeyond(t, scale);
    CoordinatesScaled(t, u, v, p, scale);
    HalfPlanesMean(t, p);
    var side := if t.three.x > t.one.x then HalfPlane(-t.three.x, 1.0, 0.0) else HalfPlane(t.three.x, -1.0, 0.0);
    xDim, yDim, i, j := PixelInside(HalfU(t), HalfV(t), Rest(HalfU(t), HalfV(t)), side, p);
    HalfPlanesMean(t, PixelAt(xDim, yDim, i, j));
  }

  /** The corners two and three exchanged. */
  function Exchanged(t: Triangle): Triangle { t.(two := t.three, three := t.two) }

  lemma ExchangedAlike(t: Triangle, p: Coord)
    ensures Det(Exchanged(t)) == Det(t)
    ensures OutsideBox(Exchanged(t), p) == OutsideBox(t, p)
    ensures Covered(Exchanged(t), p) == Covered(t, p)
  {
    CoordinatesExchanged(t, p);
  }

  lemma DetExchanged(t: Triangle)
    ensures Det(Exchanged(t)) == Det(t)
  {
    DotSymmetric(Minus(t.three, t.one), Minus(t.two, t.one));
  }

  lemma CoordinatesExchanged(t: Triangle, p: Coord)
    ensures Det(Exchanged(t)) == Det(t) && U(Exchanged(t), p) == V(t, p) && V(Exchanged(t), p) == U(t, p)
  {
    var e, f := Minus(t.three, t.one), Minus(t.two, t.one);
    DetExchanged(t);
    NumeratorsExchanged(e, f, Minus(p, t.one));
    NumeratorsExchanged(f, e, Minus(p, t.one));
  }

  lemma NumeratorsExchanged(e: Coord, f: Coord, p: Coord)
    ensures NumU(e, f, p) == NumV(f, e, p)
  {
    DotSymmetric(e, f);
  }

  /** A thin triangle changes some picture. */
  lemma ThinChangesPicture(t: Triangle) returns (xDim: nat, yDim: nat)
    requires InUnitSquare(t) && Det(t) < SMALLEST_DETERMINANT
    ensures !SamePicture(t, xDim, yDim)
  {
    DetNotNegative(t);
    if Det(t) == 0.0 {
      xDim, yDim := 1, 1;
      FlatChangesPicture(t, 1, 1);
    } else {
      var i, j;
      if Farther(t.three.x - t.one.x, t.two.x - t.one.x) {
        xDim, yDim, i, j := PixelBeyond(t);
      } else {
        NotBothUpright(t);
        ExchangedAlike(t, t.one);
        xDim, yDim, i, j := PixelBeyond(Exchanged(t));
        ExchangedAlike(t, PixelAt(xDim, yDim, i, j));
      }
      SameColorExact(t, PixelAt(xDim, yDim, i, j));
    }
  }

  /** For a triangle inside of the unit square, the early outs change no picture of any size
      exactly when the determinant is not replaced. */
  lemma PictureExact(t: Triangle)
    requires InUnitSquare(t)
    ensures (forall xDim: nat, yDim: nat :: SamePicture(t, xDim, yDim)) <==> Det(t) >= 0.0000001
  {
    if Det(t) >= SMALLEST_DETERMINANT {
      forall xDim: nat, yDim: nat ensures SamePicture(t, xDim, yDim) {
        ThickSamePicture(t, xDim, yDim);
      }
    } else {
      var xDim, yDim := ThinChangesPicture(t);
    }
  }

  lemma ThickSamePicture(t: Triangle, xDim: nat, yDim: nat)
    requires Det(t) >= 0.0000001
    ensures SamePicture(t, xDim, yDim)
  {
    forall i: nat, j: nat | i < xDim && j < yDim ensures SameColor(t, PixelAt(xDim, yDim, i, j)) {
      var p := PixelAt(xDim, yDim, i, j);
      if OutsideBox(t, p) {
        CoveredInBox(t, p);
      }
      SameColorExact(t, p);
    }
  }

  // ----- triangles outside of the unit square -----

  /** Elsewhere the condition is only sufficient: this triangle is thin, but no pixel of any
      canvas is covered. */
  lemma ThinFarAway(t: Triangle, xDim: nat, yDim: nat)
    requires t.one == Coord(2.0, 2.0) && t.two == Coord(2.0, 2.0001) && t.three == Coord(2.0001, 2.0)
    ensures Det(t) < 0.0000001 && SamePicture(t, xDim, yDim)
  {
  }
}
