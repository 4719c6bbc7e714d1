/** For every triangle: some picture changes by the early outs exactly if some position of the unit
    square, which need not be a pixel's, is covered and outside of the box. */
module CanvasPosition {
  import opened CanvasTriangle
  import opened CanvasPicture
  import opened RealArithmetic

  /** Where pixels may be. */
  predicate OnSquare(p: Coord) { 0.0 < p.x <= 1.0 && 0.0 < p.y <= 1.0 }

  predicate LeaksAt(t: Triangle, p: Coord) { OutsideBox(t, p) && Covered(t, p) }

  lemma PixelOnSquare(xDim: nat, yDim: nat, i: nat, j: nat)
    requires i < xDim && j < yDim
    ensures OnSquare(PixelAt(xDim, yDim, i, j))
  {
    OnSide(xDim as real, (i + 1) as real);
    OnSide(yDim as real, (j + 1) as real);
  }

  lemma OnSide(n: real, k: real)
    requires 0.0 < k <= n
    ensures 0.0 < k * (1.0 / n) <= 1.0
  {
    var x := k * (1.0 / n);
    assert x * n == k;
    SameSigns(k, 1.0 / n, x);
    if x > 1.0 { SameSigns(x - 1.0, n, (x - 1.0) * n); }
  }

  // ----- moving in a direction -----

  /** How the value of a half plane changes in a direction. */
  function Slope(h: HalfPlane, d: Coord): real { h.a * d.x + h.b * d.y }

  lemma AtMoved(h: HalfPlane, p: Coord, d: Coord, s: real)
    ensures At(h, Move(p, d, s)) == At(h, p) + s * Slope(h, d)
  {
  }

  lemma SlopeBetween(h: HalfPlane, p: Coord, q: Coord)
    ensures Slope(h, Minus(q, p)) == At(h, q) - At(h, p)
  {
  }

  function Plus(p: Coord, q: Coord): Coord { Coord(p.x + q.x, p.y + q.y) }

  lemma SlopeOfSum(h: HalfPlane, d: Coord, e: Coord)
    ensures Slope(h, Plus(d, e)) == Slope(h, d) + Slope(h, e)
  {
  }

  ghost predicate AllPositive(hs: seq<HalfPlane>, p: Coord) {
    forall i :: 0 <= i < |hs| ==> At(hs[i], p) > 0.0
  }

  lemma StepKeeps(h: HalfPlane, p: Coord, d: Coord, e: real, s: real)
    requires e * Abs(Slope(h, d)) < At(h, p) && 0.0 <= s <= e
    ensures At(h, Move(p, d, s)) > 0.0
  {
    var slope := Slope(h, d);
    AtMoved(h, p, d, s);
    BoundedProduct(-slope, s, e);
    assert -slope * s == -(s * slope);
    assert Abs(-slope) * e == e * Abs(slope);
  }

  /** A small enough step leaves no half plane. */
  lemma {:induction false} StepAll(hs: seq<HalfPlane>, p: Coord, d: Coord) returns (e: real)
    requires AllPositive(hs, p)
    ensures e > 0.0 && forall s: real {:trigger Move(p, d, s)} :: 0.0 <= s <= e ==> AllPositive(hs, Move(p, d, s))
  {
    if hs == [] {
      e := 1.0;
    } else {
      var h := hs[0];
      var own := StepSize(Abs(Slope(h, d)), At(h, p));
      var others := StepAll(hs[1..], p, d);
      e := Least(own, others);
      forall s: real | 0.0 <= s <= e ensures AllPositive(hs, Move(p, d, s)) {
        StepKeeps(h, p, d, own, s);
        assert AllPositive(hs[1..], Move(p, d, s));
        assert forall i :: 0 < i < |hs| ==> hs[i] == hs[1..][i - 1];
      }
    }
  }

  // ----- half planes of the box and of the unit square -----

  function Least3(x: real, y: real, z: real): real { Least(x, Least(y, z)) }

  function Most3(x: real, y: real, z: real): real { Gmax(x, Gmax(y, z)) }

  /** The side of the box that a position is beyond. */
  lemma SideOf(t: Triangle, p: Coord) returns (h: HalfPlane)
    requires OutsideBox(t, p)
    ensures At(h, p) > 0.0 && forall q: Coord {:trigger At(h, q)} :: At(h, q) > 0.0 ==> OutsideBox(t, q)
  {
    var left, right := Least3(t.one.x, t.two.x, t.three.x), Most3(t.one.x, t.two.x, t.three.x);
    var low, high := Least3(t.one.y, t.two.y, t.three.y), Most3(t.one.y, t.two.y, t.three.y);
    h := if p.x < left then HalfPlane(left, -1.0, 0.0)
         else if p.x > right then HalfPlane(-right, 1.0, 0.0)
         else if p.y < low then HalfPlane(low, 0.0, -1.0)
         else HalfPlane(-high, 0.0, 1.0);
  }

  const LEFT_SIDE := HalfPlane(0.0, 1.0, 0.0)
  const RIGHT_SIDE := HalfPlane(1.0, -1.0, 0.0)
  const LOWER_SIDE := HalfPlane(0.0, 0.0, 1.0)
  const UPPER_SIDE := HalfPlane(1.0, 0.0, -1.0)

  lemma SidesMean(p: Coord)
    ensures At(LEFT_SIDE, p) == p.x && At(RIGHT_SIDE, p) == 1.0 - p.x
    ensures At(LOWER_SIDE, p) == p.y && At(UPPER_SIDE, p) == 1.0 - p.y
  {
  }

  // ----- triangles without area -----

  lemma FlatPixel(t: Triangle, p: Coord) returns (xDim: nat, yDim: nat, i: nat, j: nat)
    requires Det(t) == 0.0 && OnSquare(p) && OutsideBox(t, p)
    ensures i < xDim && j < yDim && LeaksAt(t, PixelAt(xDim, yDim, i, j))
  {
    var h := SideOf(t, p);
    var eps := Margin(h, p);
    xDim, i := PixelNear(p.x, eps);
    yDim, j := PixelNear(p.y, eps);
    var q := PixelAt(xDim, yDim, i, j);
    StaysInside(h, p, q, eps);
    FlatCoversAll(t, q);
  }

  // ----- positions inside of the unit square -----

  /** Along both edges at once, both coordinates grow. */
  lemma InwardSlopes(t: Triangle, scale: real)
    requires scale == Det(t) * (1.0 / Gmax(Det(t), SMALLEST_DETERMINANT))
    ensures var d := Plus(Minus(t.three, t.one), Minus(t.two, t.one));
            Slope(HalfU(t), d) == scale && Slope(HalfV(t), d) == scale
  {
    var e, f := Minus(t.three, t.one), Minus(t.two, t.one);
    CornerValues(t, scale);
    SlopeBetween(HalfU(t), t.one, t.three);
    SlopeBetween(HalfU(t), t.one, t.two);
    SlopeBetween(HalfV(t), t.one, t.three);
    SlopeBetween(HalfV(t), t.one, t.two);
    SlopeOfSum(HalfU(t), e, f);
    SlopeOfSum(HalfV(t), e, f);
  }

  lemma CornerValues(t: Triangle, scale: real)
    requires scale == Det(t) * (1.0 / Gmax(Det(t), SMALLEST_DETERMINANT))
    ensures At(HalfU(t), t.one) == 0.0 && At(HalfU(t), t.two) == 0.0 && At(HalfU(t), t.three) == scale
    ensures At(HalfV(t), t.one) == 0.0 && At(HalfV(t), t.two) == scale && At(HalfV(t), t.three) == 0.0
  {
    HalfPlanesMean(t, t.one);
    HalfPlanesMean(t, t.two);
    HalfPlanesMean(t, t.three);
    CoordinatesScaled(t, 0.0, 0.0, t.one, scale);
    CoordinatesScaled(t, 0.0, 1.0, t.two, scale);
    CoordinatesScaled(t, 1.0, 0.0, t.three, scale);
  }

  lemma PositiveScale(t: Triangle) returns (scale: real)
    requires Det(t) > 0.0
    ensures scale == Det(t) * (1.0 / Gmax(Det(t), SMALLEST_DETERMINANT)) && scale > 0.0
  {
    scale := Det(t) * (1.0 / Gmax(Det(t), SMALLEST_DETERMINANT));
    SameSigns(Det(t), 1.0 / Gmax(Det(t), SMALLEST_DETERMINANT), scale);
  }

  lemma InnerPixel(t: Triangle, p: Coord) returns (xDim: nat, yDim: nat, i: nat, j: nat)
    requires Det(t) > 0.0 && Inside(p) && LeaksAt(t, p)
    ensures i < xDim && j < yDim && LeaksAt(t, PixelAt(xDim, yDim, i, j))
  {
    var side := SideOf(t, p);
    var rest := Rest(HalfU(t), HalfV(t));
    var d := Plus(Minus(t.three, t.one), Minus(t.two, t.one));
    var scale := PositiveScale(t);
    HalfPlanesMean(t, p);
    SidesMean(p);
    var e := StepAll([rest, side, LEFT_SIDE, RIGHT_SIDE, LOWER_SIDE, UPPER_SIDE], p, d);
    var q := Move(p, d, e);
    StillInside(rest, side, q);
    InwardSlopes(t, scale);
    AtMoved(HalfU(t), p, d, e);
    AtMoved(HalfV(t), p, d, e);
    SameSigns(e, scale, e * scale);
    xDim, yDim, i, j := PixelInside(HalfU(t), HalfV(t), rest, side, q);
    HalfPlanesMean(t, PixelAt(xDim, yDim, i, j));
  }

  lemma StillInside(rest: HalfPlane, side: HalfPlane, q: Coord)
    requires AllPositive([rest, side, LEFT_SIDE, RIGHT_SIDE, LOWER_SIDE, UPPER_SIDE], q)
    ensures At(rest, q) > 0.0 && At(side, q) > 0.0 && Inside(q)
  {
    var hs := [rest, side, LEFT_SIDE, RIGHT_SIDE, LOWER_SIDE, UPPER_SIDE];
    SidesMean(q);
    assert At(hs[0], q) > 0.0 && At(hs[1], q) > 0.0 && At(hs[2], q) > 0.0;
    assert At(hs[3], q) > 0.0 && At(hs[4], q) > 0.0 && At(hs[5], q) > 0.0;
  }

  // ----- positions on the right border -----

  /** Both coordinates vanish at the first corner only. */
  lemma OnlyApex(t: Triangle, p: Coord)
    requires Det(t) > 0.0 && U(t, p) == 0.0 && V(t, p) == 0.0
    ensures p == t.one
  {
    var e, f, q := Minus(t.three, t.one), Minus(t.two, t.one), Minus(p, t.one);
    var k := 1.0 / Gmax(Det(t), SMALLEST_DETERMINANT);
    Cramer(e, f, q, Det(t));
    NoFactor(NumU(e, f, q), k);
    NoFactor(NumV(e, f, q), k);
    NoFactor(q.x, Det(t));
    NoFactor(q.y, Det(t));
  }

  lemma NoFactor(x: real, k: real)
    requires k > 0.0 && (x * k == 0.0 || k * x == 0.0)
    ensures x == 0.0
  {
    if x > 0.0 {
      SameSigns(x, k, x * k);
    } else if x < 0.0 {
      SameSigns(-x, k, -x * k);
    }
  }

  /** Up or down: a coordinate that is 0 does not fall. */
  lemma WayAlong(t: Triangle, p: Coord) returns (up: real)
    requires Det(t) > 0.0 && LeaksAt(t, p)
    ensures up == 1.0 || up == -1.0
    ensures U(t, p) == 0.0 ==> Slope(HalfU(t), Coord(0.0, up)) >= 0.0
    ensures V(t, p) == 0.0 ==> Slope(HalfV(t), Coord(0.0, up)) >= 0.0
  {
    if U(t, p) == 0.0 && V(t, p) == 0.0 {
      OnlyApex(t, p);
    }
    var h := if U(t, p) == 0.0 then HalfU(t) else HalfV(t);
    up := if h.b >= 0.0 then 1.0 else -1.0;
  }

  /** Where a coordinate is 0, it is left out of the half planes that are to be kept. */
  function Strict(h: HalfPlane, p: Coord): seq<HalfPlane> { if At(h, p) > 0.0 then [h] else [] }

  lemma NotNegativeAlong(h: HalfPlane, p: Coord, d: Coord, s: real)
    requires At(h, p) >= 0.0 && s >= 0.0 && (At(h, p) == 0.0 ==> Slope(h, d) >= 0.0)
    requires At(h, p) > 0.0 ==> At(h, Move(p, d, s)) > 0.0
    ensures At(h, Move(p, d, s)) >= 0.0
  {
    AtMoved(h, p, d, s);
    if At(h, p) == 0.0 {
      ProductNotNegative(s, Slope(h, d), s * Slope(h, d));
    }
  }

  function Kept(rest: HalfPlane, side: HalfPlane, u: HalfPlane, v: HalfPlane, p: Coord): seq<HalfPlane> {
    [rest, side, LOWER_SIDE, UPPER_SIDE] + Strict(u, p) + Strict(v, p)
  }

  lemma KeptMean(rest: HalfPlane, side: HalfPlane, u: HalfPlane, v: HalfPlane, p: Coord, q: Coord)
    requires AllPositive(Kept(rest, side, u, v, p), q)
    ensures At(rest, q) > 0.0 && At(side, q) > 0.0 && 0.0 < q.y < 1.0
    ensures (At(u, p) > 0.0 ==> At(u, q) > 0.0) && (At(v, p) > 0.0 ==> At(v, q) > 0.0)
  {
    var hs := Kept(rest, side, u, v, p);
    SidesMean(q);
    assert At(hs[0], q) > 0.0 && At(hs[1], q) > 0.0 && At(hs[2], q) > 0.0 && At(hs[3], q) > 0.0;
    if At(u, p) > 0.0 { assert hs[4] == u; }
    if At(v, p) > 0.0 { assert hs[|hs| - 1] == v; }
  }

  /** The way from a position on the right border along which the triangle leaks. */
  lemma LeaksAlong(t: Triangle, p: Coord) returns (d: Coord, e: real)
    requires Det(t) > 0.0 && LeaksAt(t, p) && 0.0 < p.y < 1.0
    ensures e > 0.0 && d.x == 0.0 && (d.y == 1.0 || d.y == -1.0)
    ensures forall s: real {:trigger Move(p, d, s)} :: 0.0 <= s <= e ==>
      LeaksAt(t, Move(p, d, s)) && 0.0 < Move(p, d, s).y < 1.0
  {
    var side := SideOf(t, p);
    var u, v := HalfU(t), HalfV(t);
    var rest := Rest(u, v);
    var up := WayAlong(t, p);
    d := Coord(0.0, up);
    HalfPlanesMean(t, p);
    SidesMean(p);
    e := StepAll(Kept(rest, side, u, v, p), p, d);
    forall s: real | 0.0 <= s <= e ensures LeaksAt(t, Move(p, d, s)) && 0.0 < Move(p, d, s).y < 1.0 {
      var q := Move(p, d, s);
      KeptMean(rest, side, u, v, p, q);
      NotNegativeAlong(u, p, d, s);
      NotNegativeAlong(v, p, d, s);
      HalfPlanesMean(t, q);
    }
  }

  lemma BorderPixel(t: Triangle, p: Coord) returns (yDim: nat, j: nat)
    requires Det(t) > 0.0 && LeaksAt(t, p) && p.x == 1.0 && 0.0 < p.y < 1.0
    ensures j < yDim && LeaksAt(t, PixelAt(1, yDim, 0, j))
  {
    var d, e := LeaksAlong(t, p);
    var top := if d.y > 0.0 then Move(p, d, e) else p;
    assert 0.0 < Move(p, d, e).y < 1.0;
    yDim, j := PixelNear(top.y, e);
    var q := PixelAt(1, yDim, 0, j);
    LastPosition(1);
    var s := if d.y > 0.0 then q.y - p.y else p.y - q.y;
    assert q == Move(p, d, s);
  }

  // ----- x and y exchanged -----

  function Flip(p: Coord): Coord { Coord(p.y, p.x) }

  function Flipped(t: Triangle): Triangle { t.(one := Flip(t.one), two := Flip(t.two), three := Flip(t.three)) }

  lemma DotFlip(p: Coord, q: Coord)
    ensures Dot(Flip(p), Flip(q)) == Dot(p, q)
  {
  }

  lemma NumeratorsFlip(e: Coord, f: Coord, p: Coord)
    ensures NumU(Flip(e), Flip(f), Flip(p)) == NumU(e, f, p) && NumV(Flip(e), Flip(f), Flip(p)) == NumV(e, f, p)
  {
    DotFlip(e, e);
    DotFlip(e, f);
    DotFlip(f, f);
    DotFlip(e, p);
    DotFlip(f, p);
  }

  lemma MinusFlip(p: Coord, q: Coord)
    ensures Minus(Flip(p), Flip(q)) == Flip(Minus(p, q))
  {
  }

  lemma DetFlipped(t: Triangle)
    ensures Det(Flipped(t)) == Det(t)
  {
    var e, f := Minus(t.three, t.one), Minus(t.two, t.one);
    MinusFlip(t.three, t.one);
    MinusFlip(t.two, t.one);
    DotFlip(e, e);
    DotFlip(e, f);
    DotFlip(f, f);
  }

  lemma CoordinatesFlipped(t: Triangle, p: Coord)
    ensures U(Flipped(t), Flip(p)) == U(t, p) && V(Flipped(t), Flip(p)) == V(t, p)
  {
    DetFlipped(t);
    MinusFlip(t.three, t.one);
    MinusFlip(t.two, t.one);
    MinusFlip(p, t.one);
    NumeratorsFlip(Minus(t.three, t.one), Minus(t.two, t.one), Minus(p, t.one));
  }

  lemma FlippedAlike(t: Triangle, p: Coord)
    ensures Det(Flipped(t)) == Det(t) && LeaksAt(Flipped(t), Flip(p)) == LeaksAt(t, p)
  {
    DetFlipped(t);
    CoordinatesFlipped(t, p);
  }

  // ----- the exact condition -----

  lemma PixelLeaks(t: Triangle, p: Coord) returns (xDim: nat, yDim: nat, i: nat, j: nat)
    requires OnSquare(p) && LeaksAt(t, p)
    ensures i < xDim && j < yDim && LeaksAt(t, PixelAt(xDim, yDim, i, j))
  {
    DetNotNegative(t);
    if Det(t) == 0.0 {
      xDim, yDim, i, j := FlatPixel(t, p);
    } else if p.x < 1.0 && p.y < 1.0 {
      xDim, yDim, i, j := InnerPixel(t, p);
    } else if p.y < 1.0 {
      xDim, i := 1, 0;
      yDim, j := BorderPixel(t, p);
    } else if p.x < 1.0 {
      yDim, j := 1, 0;
      FlippedAlike(t, p);
      xDim, i := BorderPixel(Flipped(t), Flip(p));
      FlippedAlike(t, PixelAt(xDim, 1, i, 0));
    } else {
      xDim, yDim, i, j := 1, 1, 0, 0;
      LastPosition(1);
    }
  }

  /** The early outs change no picture of any size exactly when no position where a pixel may be is
      covered and outside of the box. */
  lemma PicturesExact(t: Triangle)
    ensures (forall xDim: nat, yDim: nat :: SamePicture(t, xDim, yDim)) <==>
            forall p :: OnSquare(p) ==> !LeaksAt(t, p)
  {
    if p :| OnSquare(p) && LeaksAt(t, p) {
      var xDim, yDim, i, j := PixelLeaks(t, p);
      SameColorExact(t, PixelAt(xDim, yDim, i, j));
      assert !SamePicture(t, xDim, yDim);
    } else {
      forall xDim: nat, yDim: nat ensures SamePicture(t, xDim, yDim) {
        forall i: nat, j: nat | i < xDim && j < yDim ensures SameColor(t, PixelAt(xDim, yDim, i, j)) {
          PixelOnSquare(xDim, yDim, i, j);
          SameColorExact(t, PixelAt(xDim, yDim, i, j));
        }
      }
    }
  }

  /** The box of the corners holds the whole unit square. */
  predicate BoxHoldsSquare(t: Triangle) {
    Least3(t.one.x, t.two.x, t.three.x) <= 0.0 && 1.0 <= Most3(t.one.x, t.two.x, t.three.x) &&
    Least3(t.one.y, t.two.y, t.three.y) <= 0.0 && 1.0 <= Most3(t.one.y, t.two.y, t.three.y)
  }

  /** A position of the unit square that is outside of the box. */
  lemma BesideBox(t: Triangle) returns (p: Coord)
    requires !BoxHoldsSquare(t)
    ensures OnSquare(p) && OutsideBox(t, p)
  {
    var left, low := Least3(t.one.x, t.two.x, t.three.x), Least3(t.one.y, t.two.y, t.three.y);
    if left > 0.0 {
      p := Coord(Least(left / 2.0, 1.0), 1.0);
    } else if low > 0.0 {
      p := Coord(1.0, Least(low / 2.0, 1.0));
    } else {
      p := Coord(1.0, 1.0);
    }
  }

  /** For a triangle without area, wherever it lies, a look at the corners is enough. */
  lemma FlatPicturesExact(t: Triangle)
    requires Det(t) == 0.0
    ensures (forall xDim: nat, yDim: nat :: SamePicture(t, xDim, yDim)) <==> BoxHoldsSquare(t)
  {
    PicturesExact(t);
    if !BoxHoldsSquare(t) {
      var p := BesideBox(t);
      FlatCoversAll(t, p);
    }
  }
}
