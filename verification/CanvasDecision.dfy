/** Whether the early outs change a picture of a triangle, decided by finitely many comparisons of
    numbers that are computed from its corners. */
module CanvasDecision {
  import opened CanvasTriangle
  import opened CanvasPicture
  import opened CanvasPosition
  import opened RealArithmetic

  // ----- systems of linear conditions -----

  /** A half plane with or without its border. */
  datatype Condition = Condition(h: HalfPlane, strict: bool)

  predicate Holds(c: Condition, p: Coord) { if c.strict then At(c.h, p) > 0.0 else At(c.h, p) >= 0.0 }

  predicate AllHold(cs: seq<Condition>, p: Coord) { forall c :: c in cs ==> Holds(c, p) }

  /** The condition bounds the second coordinate from below. */
  predicate IsLower(c: Condition) { c.h.b > 0.0 }

  predicate IsUpper(c: Condition) { c.h.b < 0.0 }

  /** What a lower and an upper bound demand of the first coordinate. */
  function Combined(lo: Condition, up: Condition): Condition {
    var k, m := -up.h.b, lo.h.b;
    Condition(HalfPlane(k * lo.h.c + m * up.h.c, k * lo.h.a + m * up.h.a, 0.0), lo.strict || up.strict)
  }

  function Pair(c: Condition, d: Condition): seq<Condition> {
    if IsLower(c) && IsUpper(d) then [Combined(c, d)]
    else if IsLower(d) && IsUpper(c) then [Combined(d, c)]
    else []
  }

  function Pairs(c: Condition, cs: seq<Condition>): seq<Condition> {
    if cs == [] then [] else Pair(c, cs[0]) + Pairs(c, cs[1..])
  }

  /** The conditions on the first coordinate under which there is a second one. */
  function Eliminated(cs: seq<Condition>): seq<Condition> {
    if cs == [] then []
    else (if cs[0].h.b == 0.0 then [cs[0]] else Pairs(cs[0], cs[1..])) + Eliminated(cs[1..])
  }

  /** With both coordinates exchanged. */
  function TurnedOne(c: Condition): Condition { Condition(HalfPlane(c.h.c, c.h.b, c.h.a), c.strict) }

  function Turned(cs: seq<Condition>): seq<Condition> {
    if cs == [] then [] else [TurnedOne(cs[0])] + Turned(cs[1..])
  }

  /** Both coordinates are eliminated, one after the other. */
  predicate Feasible(cs: seq<Condition>) { AllHold(Eliminated(Turned(Eliminated(cs))), Coord(0.0, 0.0)) }

  // ----- one coordinate -----

  ghost predicate PairHolds(c: Condition, d: Condition, p: Coord) { AllHold(Pair(c, d), p) }

  lemma HoldAppend(a: seq<Condition>, b: seq<Condition>, p: Coord)
    ensures AllHold(a + b, p) <==> AllHold(a, p) && AllHold(b, p)
  {
  }

  lemma {:induction false} PairsMean(c: Condition, cs: seq<Condition>, p: Coord)
    ensures AllHold(Pairs(c, cs), p) <==> forall d :: d in cs ==> PairHolds(c, d, p)
  {
    if cs != [] {
      PairsMean(c, cs[1..], p);
      assert forall d :: d in cs <==> d == cs[0] || d in cs[1..];
      HoldAppend(Pair(c, cs[0]), Pairs(c, cs[1..]), p);
      assert AllHold(Pairs(c, cs), p) <==> PairHolds(c, cs[0], p) && AllHold(Pairs(c, cs[1..]), p);
    }
  }

  ghost predicate FlatHold(cs: seq<Condition>, p: Coord) {
    forall c :: c in cs && c.h.b == 0.0 ==> Holds(c, p)
  }

  ghost predicate PairsHold(cs: seq<Condition>, p: Coord) {
    forall c, d :: c in cs && d in cs ==> PairHolds(c, d, p)
  }

  lemma {:induction false} EliminatedMeans(cs: seq<Condition>, p: Coord)
    ensures AllHold(Eliminated(cs), p) <==> FlatHold(cs, p) && PairsHold(cs, p)
  {
    if cs != [] {
      var c, rest := cs[0], cs[1..];
      EliminatedMeans(rest, p);
      PairsMean(c, rest, p);
      assert forall d :: d in cs <==> d == c || d in rest;
      assert PairsHold(cs, p) <==> PairsHold(rest, p) && forall d :: d in rest ==> PairHolds(c, d, p) by {
        assert PairHolds(c, c, p);
        assert forall d :: PairHolds(c, d, p) <==> PairHolds(d, c, p);
      }
      if c.h.b == 0.0 {
        assert forall d :: PairHolds(c, d, p);
        HoldAppend([c], Eliminated(rest), p);
      } else {
        HoldAppend(Pairs(c, rest), Eliminated(rest), p);
      }
    }
  }

  /** Where a bound lies. */
  function Bound(c: Condition, x: real): real
    requires c.h.b != 0.0
  {
    -(c.h.c + c.h.a * x) / c.h.b
  }

  lemma SignOfProduct(k: real, v: real, product: real)
    requires k > 0.0 && product == k * v
    ensures (product > 0.0 <==> v > 0.0) && (product >= 0.0 <==> v >= 0.0)
  {
    if v > 0.0 {
      SameSigns(k, v, product);
    } else if v < 0.0 {
      SameSigns(k, -v, -product);
    }
  }

  lemma AtBound(c: Condition, x: real, y: real)
    requires c.h.b != 0.0
    ensures At(c.h, Coord(x, y)) == c.h.b * (y - Bound(c, x))
  {
    assert c.h.b * Bound(c, x) == -(c.h.c + c.h.a * x);
  }

  lemma BoundMeans(c: Condition, x: real, y: real)
    requires c.h.b != 0.0
    ensures var d := if IsLower(c) then y - Bound(c, x) else Bound(c, x) - y;
            Holds(c, Coord(x, y)) <==> if c.strict then d > 0.0 else d >= 0.0
  {
    var d := y - Bound(c, x);
    AtBound(c, x, y);
    if IsLower(c) {
      SignOfProduct(c.h.b, d, c.h.b * d);
    } else {
      SignOfProduct(-c.h.b, -d, c.h.b * d);
    }
  }

  lemma CombinedAt(kc: real, ka: real, mc: real, ma: real, k: real, m: real, l: real, u: real, x: real)
    requires m * l == -(kc + ka * x) && k * u == mc + ma * x
    ensures k * kc + m * mc + (k * ka + m * ma) * x == k * m * (u - l)
  {
    assert k * (kc + ka * x) == -k * m * l;
    assert m * (mc + ma * x) == m * k * u;
  }

  /** A lower and an upper bound combined: the lower one is below the upper one. */
  lemma CombinedMeans(lo: Condition, up: Condition, x: real)
    requires IsLower(lo) && IsUpper(up)
    ensures var d := Bound(up, x) - Bound(lo, x);
            Holds(Combined(lo, up), Coord(x, 0.0)) <==> if lo.strict || up.strict then d > 0.0 else d >= 0.0
  {
    var k, m, l, u := -up.h.b, lo.h.b, Bound(lo, x), Bound(up, x);
    assert m * l == -(lo.h.c + lo.h.a * x) && up.h.b * u == -(up.h.c + up.h.a * x);
    assert k * u == up.h.c + up.h.a * x;
    CombinedAt(lo.h.c, lo.h.a, up.h.c, up.h.a, k, m, l, u, x);
    SameSigns(k, m, k * m);
    SignOfProduct(k * m, u - l, k * m * (u - l));
  }

  /** The lower bound that is highest, or the upper one that is lowest. */
  lemma {:induction false} Tightest(cs: seq<Condition>, x: real, lower: bool) returns (found: bool, k: Condition)
    ensures found ==> k in cs && if lower then IsLower(k) else IsUpper(k)
    ensures forall c :: c in cs && (if lower then IsLower(c) else IsUpper(c)) ==>
              found && if lower then Bound(c, x) <= Bound(k, x) else Bound(k, x) <= Bound(c, x)
  {
    if cs == [] {
      found, k := false, Condition(LEFT_SIDE, true);
    } else {
      var c := cs[0];
      found, k := Tightest(cs[1..], x, lower);
      assert forall d :: d in cs <==> d == c || d in cs[1..];
      if lower && IsLower(c) && (!found || Bound(k, x) < Bound(c, x)) {
        found, k := true, c;
      } else if !lower && IsUpper(c) && (!found || Bound(c, x) < Bound(k, x)) {
        found, k := true, c;
      }
    }
  }

  /** A number between all bounds. */
  lemma Between(cs: seq<Condition>, x: real) returns (y: real)
    requires FlatHold(cs, Coord(x, 0.0)) && PairsHold(cs, Coord(x, 0.0))
    ensures AllHold(cs, Coord(x, y))
  {
    var someLow, low := Tightest(cs, x, true);
    var someHigh, high := Tightest(cs, x, false);
    y := if someLow && someHigh then (Bound(low, x) + Bound(high, x)) / 2.0
         else if someLow then Bound(low, x) + 1.0
         else if someHigh then Bound(high, x) - 1.0
         else 0.0;
    forall c | c in cs ensures Holds(c, Coord(x, y)) {
      if IsLower(c) {
        if someHigh { PairApart(cs, c, high, x); }
        BoundMeans(c, x, y);
      } else if IsUpper(c) {
        if someLow { PairApart(cs, low, c, x); }
        BoundMeans(c, x, y);
      } else {
        FlatAlike(c, x, y);
      }
    }
  }

  lemma FlatAlike(c: Condition, x: real, y: real)
    requires c.h.b == 0.0
    ensures Holds(c, Coord(x, y)) <==> Holds(c, Coord(x, 0.0))
  {
    assert At(c.h, Coord(x, y)) == c.h.c + c.h.a * x + c.h.b * y;
    assert At(c.h, Coord(x, 0.0)) == c.h.c + c.h.a * x;
  }

  lemma PairApart(cs: seq<Condition>, lo: Condition, up: Condition, x: real)
    requires PairsHold(cs, Coord(x, 0.0)) && lo in cs && up in cs && IsLower(lo) && IsUpper(up)
    ensures if lo.strict || up.strict then Bound(lo, x) < Bound(up, x) else Bound(lo, x) <= Bound(up, x)
  {
    assert PairHolds(lo, up, Coord(x, 0.0));
    assert Combined(lo, up) in Pair(lo, up);
    CombinedMeans(lo, up, x);
  }

  lemma PairFollows(cs: seq<Condition>, x: real, y: real, c: Condition, d: Condition)
    requires AllHold(cs, Coord(x, y)) && c in cs && d in cs
    ensures PairHolds(c, d, Coord(x, 0.0))
  {
    if c.h.b != 0.0 && d.h.b != 0.0 {
      BoundMeans(c, x, y);
      BoundMeans(d, x, y);
      if IsLower(c) && IsUpper(d) {
        CombinedMeans(c, d, x);
      } else if IsLower(d) && IsUpper(c) {
        CombinedMeans(d, c, x);
      }
    }
  }

  /** A second coordinate exists exactly if the first one meets the eliminated conditions. */
  lemma EliminationExact(cs: seq<Condition>, x: real)
    ensures (exists y: real :: AllHold(cs, Coord(x, y))) <==> AllHold(Eliminated(cs), Coord(x, 0.0))
  {
    EliminatedMeans(cs, Coord(x, 0.0));
    if y: real :| AllHold(cs, Coord(x, y)) {
      forall c | c in cs && c.h.b == 0.0 ensures Holds(c, Coord(x, 0.0)) {
        FlatAlike(c, x, y);
      }
      forall c, d | c in cs && d in cs ensures PairHolds(c, d, Coord(x, 0.0)) {
        PairFollows(cs, x, y, c, d);
      }
    } else if AllHold(Eliminated(cs), Coord(x, 0.0)) {
      var y := Between(cs, x);
      assert AllHold(cs, Coord(x, y));
    }
  }

  lemma {:induction false} TurnedAlike(cs: seq<Condition>, p: Coord)
    ensures AllHold(Turned(cs), Flip(p)) <==> AllHold(cs, p)
  {
    if cs != [] {
      TurnedAlike(cs[1..], p);
      assert forall c :: c in cs <==> c == cs[0] || c in cs[1..];
      TurnedHolds(cs[0], p);
      HoldAppend([TurnedOne(cs[0])], Turned(cs[1..]), Flip(p));
    }
  }

  lemma TurnedHolds(c: Condition, p: Coord)
    ensures Holds(TurnedOne(c), Flip(p)) <==> Holds(c, p)
  {
    assert At(TurnedOne(c).h, Flip(p)) == c.h.c + c.h.b * p.y + c.h.a * p.x;
    assert At(TurnedOne(c).h, Flip(p)) == At(c.h, p);
  }

  /** A system of linear conditions has a solution exactly if the constants that are left over
      after both eliminations are of the right sign. */
  lemma FeasibleExact(cs: seq<Condition>)
    ensures (exists p :: AllHold(cs, p)) <==> Feasible(cs)
  {
    var turned := Turned(Eliminated(cs));
    EliminationExact(turned, 0.0);
    if p :| AllHold(cs, p) {
      assert p == Coord(p.x, p.y);
      EliminationExact(cs, p.x);
      TurnedAlike(Eliminated(cs), Coord(p.x, 0.0));
      assert AllHold(turned, Coord(0.0, p.x));
    } else if Feasible(cs) {
      var x: real :| AllHold(turned, Coord(0.0, x));
      TurnedAlike(Eliminated(cs), Coord(x, 0.0));
      EliminationExact(cs, x);
    }
  }

  // ----- triangles -----

  /** Beyond the sides of the box. */
  function Sides(t: Triangle): seq<HalfPlane> {
    [HalfPlane(Least3(t.one.x, t.two.x, t.three.x), -1.0, 0.0),
     HalfPlane(-Most3(t.one.x, t.two.x, t.three.x), 1.0, 0.0),
     HalfPlane(Least3(t.one.y, t.two.y, t.three.y), 0.0, -1.0),
     HalfPlane(-Most3(t.one.y, t.two.y, t.three.y), 0.0, 1.0)]
  }

  /** On the unit square, covered, and beyond one of the sides. */
  function LeakConditions(t: Triangle, side: HalfPlane): seq<Condition> {
    [Condition(LEFT_SIDE, true), Condition(RIGHT_SIDE, false), Condition(LOWER_SIDE, true),
     Condition(UPPER_SIDE, false), Condition(HalfU(t), false), Condition(HalfV(t), false),
     Condition(Rest(HalfU(t), HalfV(t)), true), Condition(side, true)]
  }

  /** Decided for each side. */
  predicate CanLeak(t: Triangle) {
    exists side :: side in Sides(t) && Feasible(LeakConditions(t, side))
  }

  lemma SidesExact(t: Triangle, p: Coord)
    ensures OutsideBox(t, p) <==> exists side :: side in Sides(t) && At(side, p) > 0.0
  {
    var sides := Sides(t);
    assert sides[0] in sides && sides[1] in sides && sides[2] in sides && sides[3] in sides;
    if OutsideBox(t, p) {
      assert At(sides[0], p) > 0.0 || At(sides[1], p) > 0.0 || At(sides[2], p) > 0.0 || At(sides[3], p) > 0.0;
    }
  }

  lemma ConditionsMean(t: Triangle, side: HalfPlane, p: Coord)
    ensures AllHold(LeakConditions(t, side), p) <==> OnSquare(p) && Covered(t, p) && At(side, p) > 0.0
  {
    var cs := LeakConditions(t, side);
    SidesMean(p);
    HalfPlanesMean(t, p);
    assert AllHold(cs, p) <==> forall i :: 0 <= i < |cs| ==> Holds(cs[i], p);
    assert AllHold(cs, p) <==>
      Holds(cs[0], p) && Holds(cs[1], p) && Holds(cs[2], p) && Holds(cs[3], p) &&
      Holds(cs[4], p) && Holds(cs[5], p) && Holds(cs[6], p) && Holds(cs[7], p);
  }

  lemma LeakDecided(t: Triangle)
    ensures CanLeak(t) <==> exists p :: OnSquare(p) && LeaksAt(t, p)
  {
    if p :| OnSquare(p) && LeaksAt(t, p) {
      SidesExact(t, p);
      var side :| side in Sides(t) && At(side, p) > 0.0;
      ConditionsMean(t, side, p);
      FeasibleExact(LeakConditions(t, side));
    }
    if side :| side in Sides(t) && Feasible(LeakConditions(t, side)) {
      FeasibleExact(LeakConditions(t, side));
      var p :| AllHold(LeakConditions(t, side), p);
      ConditionsMean(t, side, p);
      SidesExact(t, p);
    }
  }

  /** For every triangle, wherever it lies, the corners decide whether some picture changes. */
  lemma PicturesDecided(t: Triangle)
    ensures (forall xDim: nat, yDim: nat :: SamePicture(t, xDim, yDim)) <==> !CanLeak(t)
  {
    PicturesExact(t);
    LeakDecided(t);
  }
}
