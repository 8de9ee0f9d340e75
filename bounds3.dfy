/**
 * Axis-aligned boxes in three dimensions (src/geometry/bounding_box_3.rs).
 * A box is empty when some lower corner component exceeds its upper one;
 * `New` is the canonical empty box, the identity of `Union`.
 */
module Bounds3 {
  import opened Options
  import opened Floats
  import opened Vectors
  import opened Rays

  datatype Bounds3f = Bounds3f(pMin: Point3, pMax: Point3)

  predicate NoNaNBox(b: Bounds3f) { NoNaN3(b.pMin) && NoNaN3(b.pMax) }

  predicate FiniteBox(b: Bounds3f) { Finite3(b.pMin) && Finite3(b.pMax) }

  /** Every lower bound at or below its upper bound */
  predicate NonEmpty(b: Bounds3f) {
    Le(b.pMin.x, b.pMax.x) && Le(b.pMin.y, b.pMax.y) && Le(b.pMin.z, b.pMax.z)
  }

  /** `outer` reaches at least as far as `inner` on every face */
  predicate Encloses(outer: Bounds3f, inner: Bounds3f) {
    Le(outer.pMin.x, inner.pMin.x) && Le(outer.pMin.y, inner.pMin.y) && Le(outer.pMin.z, inner.pMin.z) &&
    Le(inner.pMax.x, outer.pMax.x) && Le(inner.pMax.y, outer.pMax.y) && Le(inner.pMax.z, outer.pMax.z)
  }

  /** `inside`: the box is closed, a point on any of the six faces is inside */
  predicate Inside(b: Bounds3f, c: Point3) {
    Le(b.pMin.x, c.x) && Le(c.x, b.pMax.x) &&
    Le(b.pMin.y, c.y) && Le(c.y, b.pMax.y) &&
    Le(b.pMin.z, c.z) && Le(c.z, b.pMax.z)
  }

  /** `new`: the empty box, lower corner at +infinity and upper corner at -infinity */
  function New(): (b: Bounds3f)
    ensures NoNaNBox(b) && !NonEmpty(b)
    ensures forall p :: !Inside(b, p)
    ensures forall c :: NoNaNBox(c) ==> Encloses(c, b)
  {
    Bounds3f(V3(PosInf, PosInf, PosInf), V3(NegInf, NegInf, NegInf))
  }

  /** `init`: the smallest box holding both points, whatever their order */
  function Init(p1: Point3, p2: Point3): (b: Bounds3f)
    ensures NoNaN3(p1) && NoNaN3(p2) ==> NonEmpty(b) && Inside(b, p1) && Inside(b, p2)
    ensures b == Union(InitOne(p1), InitOne(p2))
  {
    MinMaxBracket3(p1, p2);
    Bounds3f(V3(Min(p1.x, p2.x), Min(p1.y, p2.y), Min(p1.z, p2.z)),
             V3(Max(p1.x, p2.x), Max(p1.y, p2.y), Max(p1.z, p2.z)))
  }

  /** `init_one`: the degenerate box holding exactly one point */
  function InitOne(p: Point3): (b: Bounds3f)
    ensures NoNaN3(p) ==> NonEmpty(b) && forall q :: Inside(b, q) <==> PointEq3(q, p)
  {
    Bounds3f(p, p)
  }

  /** `diagonal`: from the lower to the upper corner */
  function Diagonal(b: Bounds3f): (d: Vector3)
    ensures FiniteBox(b) && NonEmpty(b) ==>
      Finite3(d) && d.x.r >= 0.0 && d.y.r >= 0.0 && d.z.r >= 0.0
  {
    Sub3(b.pMax, b.pMin)
  }

  /** `self[i]` (the `Index` impl): index 0 is the lower corner, every other index the upper one */
  function Index(b: Bounds3f, i: nat): (p: Point3)
    ensures i == 0 ==> p == b.pMin
    ensures i != 0 ==> p == b.pMax
  {
    if i == 0 then b.pMin else b.pMax
  }

  /** `corner(c)`: bit 0 of `c` picks x, bit 1 picks y, bit 2 picks z (0 = lower, 1 = upper) */
  function Corner(b: Bounds3f, c: nat): (p: Point3)
    ensures NonEmpty(b) && NoNaNBox(b) ==> Inside(b, p)
    ensures p.x == (if c % 2 == 0 then b.pMin.x else b.pMax.x)
    ensures p.y == (if (c / 2) % 2 == 0 then b.pMin.y else b.pMax.y)
    ensures p.z == (if (c / 4) % 2 == 0 then b.pMin.z else b.pMax.z)
  {
    var xIdx := c % 2;
    var yIdx := if (c / 2) % 2 == 0 then 0 else 1;
    var zIdx := if (c / 4) % 2 == 0 then 0 else 1;
    V3(Index(b, xIdx).x, Index(b, yIdx).y, Index(b, zIdx).z)
  }

  /** Corner 0 is the lower corner and corner 7 the upper one */
  lemma CornerExtremes(b: Bounds3f)
    ensures Corner(b, 0) == b.pMin && Corner(b, 7) == b.pMax
  {
  }

  /** `surface_area`: `2(dx*dy + dx*dz + dz*dy)` */
  function SurfaceArea(b: Bounds3f): (a: Float)
    ensures FiniteBox(b) && NonEmpty(b) ==> a.Fin? && a.r >= 0.0
  {
    var d := Diagonal(b);
    AreaOfFiniteSides(d);
    Mul(Fin(2.0), Add(Add(Mul(d.x, d.y), Mul(d.x, d.z)), Mul(d.z, d.y)))
  }

  lemma AreaOfFiniteSides(d: Vector3)
    ensures Finite3(d) && d.x.r >= 0.0 && d.y.r >= 0.0 && d.z.r >= 0.0 ==>
      var a := Mul(Fin(2.0), Add(Add(Mul(d.x, d.y), Mul(d.x, d.z)), Mul(d.z, d.y)));
      a.Fin? && a.r >= 0.0
  {
    if Finite3(d) && d.x.r >= 0.0 && d.y.r >= 0.0 && d.z.r >= 0.0 {
      var xy, xz, zy := d.x.r * d.y.r, d.x.r * d.z.r, d.z.r * d.y.r;
      assert Mul(d.x, d.y) == Fin(xy) && Mul(d.x, d.z) == Fin(xz) && Mul(d.z, d.y) == Fin(zy);
      assert xy >= 0.0 && xz >= 0.0 && zy >= 0.0;
    }
  }

  /** The empty box has infinite surface area */
  lemma EmptySurfaceArea()
    ensures SurfaceArea(New()) == PosInf
  {
    var e := Diagonal(New());
    assert e == V3(NegInf, NegInf, NegInf);
    assert Mul(NegInf, NegInf) == PosInf;
    assert Add(Add(PosInf, PosInf), PosInf) == PosInf;
    assert Mul(Fin(2.0), PosInf) == PosInf;
  }

  /** A single point encloses no area */
  lemma PointSurfaceArea(p: Point3)
    requires Finite3(p)
    ensures SurfaceArea(InitOne(p)) == Zero
  {
    var b := InitOne(p);
    assert Sub(p.x, p.x) == Zero && Sub(p.y, p.y) == Zero && Sub(p.z, p.z) == Zero;
    assert Diagonal(b) == V3(Zero, Zero, Zero);
    FlatSurfaceArea(b);
  }

  lemma FlatSurfaceArea(b: Bounds3f)
    requires Diagonal(b) == V3(Zero, Zero, Zero)
    ensures SurfaceArea(b) == Zero
  {
    var z := Mul(Zero, Zero);
    assert z == Fin(0.0 * 0.0) == Zero;
    assert Add(z, z) == Zero;
    assert Add(Add(z, z), z) == Zero;
    assert Mul(Fin(2.0), Zero) == Zero;
  }

  /** `max_extent`: the axis of the longest side; ties go to the later axis */
  function MaxExtent(b: Bounds3f): (axis: nat)
    ensures axis < 3
    ensures var d := Diagonal(b);
      (axis == 0 <==> Lt(d.y, d.x) && Lt(d.z, d.x)) &&
      (axis == 1 <==> !(Lt(d.y, d.x) && Lt(d.z, d.x)) && Lt(d.z, d.y))
    ensures var d := Diagonal(b);
      NoNaN3(d) ==> Le(d.x, d.Get(axis)) && Le(d.y, d.Get(axis)) && Le(d.z, d.Get(axis))
  {
    var d := Diagonal(b);
    LeTotal(d.x, d.y);
    LeTotal(d.x, d.z);
    LeTotal(d.y, d.z);
    if Lt(d.y, d.x) && Lt(d.z, d.x) then 0
    else if Lt(d.z, d.y) then
      assert NoNaN3(d) ==> Le(d.x, d.y) by {
        if NoNaN3(d) && Lt(d.y, d.x) { LtLeTrans(d.y, d.x, d.z); }
      }
      1
    else
      assert NoNaN3(d) ==> Le(d.x, d.z) by {
        if NoNaN3(d) && Lt(d.z, d.x) { LeLtTrans(d.y, d.z, d.x); }
      }
      2
  }

  /** The empty box has diagonal -infinity on every axis, so its longest axis is z */
  lemma EmptyMaxExtent()
    ensures MaxExtent(New()) == 2
    ensures Diagonal(New()) == V3(NegInf, NegInf, NegInf)
  {
  }

  /** One axis of `offset`: the distance from the lower face, divided by the extent when positive */
  function OffsetAxis(lo: Float, hi: Float, p: Float): Float {
    var o := Sub(p, lo);
    if Lt(lo, hi) then Div(o, Sub(hi, lo)) else o
  }

  lemma OffsetAxisFacts(lo: Float, hi: Float, p: Float)
    ensures lo.Fin? && hi.Fin? && p.Fin? && Le(lo, p) && Le(p, hi) ==>
      var o := OffsetAxis(lo, hi, p); o.Fin? && 0.0 <= o.r <= 1.0
    ensures lo.Fin? && hi.Fin? && p == lo ==> OffsetAxis(lo, hi, p) == Zero
    ensures lo.Fin? && hi.Fin? && Lt(lo, hi) && p == hi ==> OffsetAxis(lo, hi, p) == One
  {
    if lo.Fin? && hi.Fin? && p.Fin? {
      var d := p.r - lo.r;
      assert Sub(p, lo) == Fin(d);
      if lo.r < hi.r {
        var e := hi.r - lo.r;
        assert Sub(hi, lo) == Fin(e);
        assert OffsetAxis(lo, hi, p) == Fin(d / e);
        if lo.r <= p.r <= hi.r {
          RatioInUnit(d, e);
        }
      } else {
        assert OffsetAxis(lo, hi, p) == Fin(d);
      }
    }
  }

  lemma RatioInUnit(d: real, e: real)
    requires 0.0 <= d <= e && 0.0 < e
    ensures 0.0 <= d / e <= 1.0
    ensures d == e ==> d / e == 1.0
  {
    UnitRatio(e);
    assert d / e <= e / e;
  }

  lemma UnitRatio(e: real)
    requires 0.0 < e
    ensures e / e == 1.0
  {
  }

  /**
   * `offset(p)`: where `p` lies relative to the box, 0 at the lower face and 1 at the
   * upper face of every axis with positive extent.
   */
  function Offset(b: Bounds3f, p: Point3): (o: Vector3)
    ensures FiniteBox(b) && Finite3(p) && Inside(b, p) ==>
      Finite3(o) && 0.0 <= o.x.r <= 1.0 && 0.0 <= o.y.r <= 1.0 && 0.0 <= o.z.r <= 1.0
    ensures FiniteBox(b) && Finite3(p) ==>
      (p.x == b.pMin.x ==> o.x == Zero) && (p.y == b.pMin.y ==> o.y == Zero) && (p.z == b.pMin.z ==> o.z == Zero)
    ensures FiniteBox(b) && Finite3(p) ==>
      (Lt(b.pMin.x, b.pMax.x) && p.x == b.pMax.x ==> o.x == One) &&
      (Lt(b.pMin.y, b.pMax.y) && p.y == b.pMax.y ==> o.y == One) &&
      (Lt(b.pMin.z, b.pMax.z) && p.z == b.pMax.z ==> o.z == One)
  {
    OffsetAxisFacts(b.pMin.x, b.pMax.x, p.x);
    OffsetAxisFacts(b.pMin.y, b.pMax.y, p.y);
    OffsetAxisFacts(b.pMin.z, b.pMax.z, p.z);
    V3(OffsetAxis(b.pMin.x, b.pMax.x, p.x), OffsetAxis(b.pMin.y, b.pMax.y, p.y), OffsetAxis(b.pMin.z, b.pMax.z, p.z))
  }

  /** A non-empty box holds its own corners: the faces belong to the box */
  lemma InsideIsClosed(b: Bounds3f)
    requires NoNaNBox(b) && NonEmpty(b)
    ensures Inside(b, b.pMin) && Inside(b, b.pMax)
  {
  }

  lemma MinMaxBracket3(p: Point3, q: Point3)
    ensures NoNaN3(p) && NoNaN3(q) ==>
      Le(Min(p.x, q.x), Max(p.x, q.x)) && Le(Min(p.y, q.y), Max(p.y, q.y)) && Le(Min(p.z, q.z), Max(p.z, q.z))
    ensures NoNaN3(p) && NoNaN3(q) ==>
      Le(Min(p.x, q.x), p.x) && Le(p.x, Max(p.x, q.x)) && Le(Min(p.x, q.x), q.x) && Le(q.x, Max(p.x, q.x)) &&
      Le(Min(p.y, q.y), p.y) && Le(p.y, Max(p.y, q.y)) && Le(Min(p.y, q.y), q.y) && Le(q.y, Max(p.y, q.y)) &&
      Le(Min(p.z, q.z), p.z) && Le(p.z, Max(p.z, q.z)) && Le(Min(p.z, q.z), q.z) && Le(q.z, Max(p.z, q.z))
  {
    if NoNaN3(p) && NoNaN3(q) {
      MinMaxBracket(p.x, q.x);
      MinMaxBracket(p.y, q.y);
      MinMaxBracket(p.z, q.z);
      LeTrans(Min(p.x, q.x), p.x, Max(p.x, q.x));
      LeTrans(Min(p.y, q.y), p.y, Max(p.y, q.y));
      LeTrans(Min(p.z, q.z), p.z, Max(p.z, q.z));
    }
  }

  /** `union_pt`: grow the box just enough to hold `p` */
  function UnionPt(b: Bounds3f, p: Point3): (r: Bounds3f)
    ensures NoNaNBox(b) && NoNaN3(p) ==> Inside(r, p) && Encloses(r, b)
  {
    MinMaxBracket3(b.pMin, p);
    MinMaxBracket3(b.pMax, p);
    Bounds3f(V3(Min(b.pMin.x, p.x), Min(b.pMin.y, p.y), Min(b.pMin.z, p.z)),
             V3(Max(b.pMax.x, p.x), Max(b.pMax.y, p.y), Max(b.pMax.z, p.z)))
  }

  /** `union`: the componentwise min of the lower and max of the upper corners */
  function Union(b1: Bounds3f, b2: Bounds3f): (r: Bounds3f)
    ensures NoNaNBox(b1) && NoNaNBox(b2) ==> NoNaNBox(r) && Encloses(r, b1) && Encloses(r, b2)
  {
    MinMaxBracket3(b1.pMin, b2.pMin);
    MinMaxBracket3(b1.pMax, b2.pMax);
    Bounds3f(V3(Min(b1.pMin.x, b2.pMin.x), Min(b1.pMin.y, b2.pMin.y), Min(b1.pMin.z, b2.pMin.z)),
             V3(Max(b1.pMax.x, b2.pMax.x), Max(b1.pMax.y, b2.pMax.y), Max(b1.pMax.z, b2.pMax.z)))
  }

  /** The union is the least box enclosing both operands */
  lemma UnionIsLeast(b1: Bounds3f, b2: Bounds3f, c: Bounds3f)
    requires NoNaNBox(b1) && NoNaNBox(b2) && NoNaNBox(c)
    ensures Encloses(c, Union(b1, b2)) <==> Encloses(c, b1) && Encloses(c, b2)
  {
    var u := Union(b1, b2);
    if Encloses(c, u) {
      LeTrans(c.pMin.x, u.pMin.x, b1.pMin.x); LeTrans(c.pMin.x, u.pMin.x, b2.pMin.x);
      LeTrans(c.pMin.y, u.pMin.y, b1.pMin.y); LeTrans(c.pMin.y, u.pMin.y, b2.pMin.y);
      LeTrans(c.pMin.z, u.pMin.z, b1.pMin.z); LeTrans(c.pMin.z, u.pMin.z, b2.pMin.z);
      LeTrans(b1.pMax.x, u.pMax.x, c.pMax.x); LeTrans(b2.pMax.x, u.pMax.x, c.pMax.x);
      LeTrans(b1.pMax.y, u.pMax.y, c.pMax.y); LeTrans(b2.pMax.y, u.pMax.y, c.pMax.y);
      LeTrans(b1.pMax.z, u.pMax.z, c.pMax.z); LeTrans(b2.pMax.z, u.pMax.z, c.pMax.z);
    }
  }

  /** Union is commutative and idempotent on all boxes, NaN components included */
  lemma UnionCommutesAndIdempotent(b1: Bounds3f, b2: Bounds3f)
    ensures Union(b1, b2) == Union(b2, b1)
    ensures Union(b1, b1) == b1
  {
  }

  lemma MinAssoc(a: Float, b: Float, c: Float)
    requires !a.NaN? && !b.NaN? && !c.NaN?
    ensures Min(Min(a, b), c) == Min(a, Min(b, c))
    ensures Max(Max(a, b), c) == Max(a, Max(b, c))
  {
    LeTotal(a, b); LeTotal(b, c); LeTotal(a, c);
    if Lt(a, b) && Lt(b, c) { LtLeTrans(a, b, c); }
    if Lt(c, b) && Lt(b, a) { LtLeTrans(c, b, a); }
  }

  /** Union is associative on NaN-free boxes, so a fold over a list does not depend on grouping */
  lemma UnionAssociative(b1: Bounds3f, b2: Bounds3f, b3: Bounds3f)
    requires NoNaNBox(b1) && NoNaNBox(b2) && NoNaNBox(b3)
    ensures Union(Union(b1, b2), b3) == Union(b1, Union(b2, b3))
  {
    MinAssoc(b1.pMin.x, b2.pMin.x, b3.pMin.x); MinAssoc(b1.pMax.x, b2.pMax.x, b3.pMax.x);
    MinAssoc(b1.pMin.y, b2.pMin.y, b3.pMin.y); MinAssoc(b1.pMax.y, b2.pMax.y, b3.pMax.y);
    MinAssoc(b1.pMin.z, b2.pMin.z, b3.pMin.z); MinAssoc(b1.pMax.z, b2.pMax.z, b3.pMax.z);
  }

  /** The empty box is the identity of union (a NaN component would survive instead) */
  lemma UnionWithEmpty(b: Bounds3f)
    requires NoNaNBox(b)
    ensures Union(New(), b) == b && Union(b, New()) == b
  {
  }

  /** Enclosure is transitive */
  lemma EnclosesTrans(a: Bounds3f, b: Bounds3f, c: Bounds3f)
    requires Encloses(a, b) && Encloses(b, c)
    ensures Encloses(a, c)
  {
    LeTrans(a.pMin.x, b.pMin.x, c.pMin.x);
    LeTrans(a.pMin.y, b.pMin.y, c.pMin.y);
    LeTrans(a.pMin.z, b.pMin.z, c.pMin.z);
    LeTrans(c.pMax.x, b.pMax.x, a.pMax.x);
    LeTrans(c.pMax.y, b.pMax.y, a.pMax.y);
    LeTrans(c.pMax.z, b.pMax.z, a.pMax.z);
  }

  /** A point inside a box is inside every box enclosing it */
  lemma InsideEnclosed(outer: Bounds3f, inner: Bounds3f, p: Point3)
    requires Encloses(outer, inner) && Inside(inner, p)
    ensures Inside(outer, p)
  {
    LeTrans(outer.pMin.x, inner.pMin.x, p.x);
    LeTrans(outer.pMin.y, inner.pMin.y, p.y);
    LeTrans(outer.pMin.z, inner.pMin.z, p.z);
    LeTrans(p.x, inner.pMax.x, outer.pMax.x);
    LeTrans(p.y, inner.pMax.y, outer.pMax.y);
    LeTrans(p.z, inner.pMax.z, outer.pMax.z);
  }

  /** Growing by a point is the union with that point's degenerate box */
  lemma UnionPtIsUnionOne(b: Bounds3f, p: Point3)
    ensures UnionPt(b, p) == Union(b, InitOne(p))
  {
  }

  /** `intersect`: the componentwise max of the lower and min of the upper corners */
  function Intersect(b1: Bounds3f, b2: Bounds3f): (r: Bounds3f)
    ensures NoNaNBox(b1) && NoNaNBox(b2) ==> NoNaNBox(r) && Encloses(b1, r) && Encloses(b2, r)
  {
    MinMaxBracket3(b1.pMin, b2.pMin);
    MinMaxBracket3(b1.pMax, b2.pMax);
    Bounds3f(V3(Max(b1.pMin.x, b2.pMin.x), Max(b1.pMin.y, b2.pMin.y), Max(b1.pMin.z, b2.pMin.z)),
             V3(Min(b1.pMax.x, b2.pMax.x), Min(b1.pMax.y, b2.pMax.y), Min(b1.pMax.z, b2.pMax.z)))
  }

  /** Between two bounds on one axis exactly when between the tighter pair */
  lemma AxisMeet(lo1: Float, lo2: Float, hi1: Float, hi2: Float, c: Float)
    requires !lo1.NaN? && !lo2.NaN? && !hi1.NaN? && !hi2.NaN?
    ensures (Le(Max(lo1, lo2), c) && Le(c, Min(hi1, hi2))) <==>
            (Le(lo1, c) && Le(c, hi1) && Le(lo2, c) && Le(c, hi2))
  {
    MinMaxBracket(lo1, lo2);
    MinMaxBracket(hi1, hi2);
    if Le(Max(lo1, lo2), c) { LeTrans(lo1, Max(lo1, lo2), c); LeTrans(lo2, Max(lo1, lo2), c); }
    if Le(c, Min(hi1, hi2)) { LeTrans(c, Min(hi1, hi2), hi1); LeTrans(c, Min(hi1, hi2), hi2); }
  }

  /** A point is inside the intersection exactly when it is inside both boxes */
  lemma InsideIntersect(b1: Bounds3f, b2: Bounds3f, p: Point3)
    requires NoNaNBox(b1) && NoNaNBox(b2)
    ensures Inside(Intersect(b1, b2), p) <==> Inside(b1, p) && Inside(b2, p)
  {
    AxisMeet(b1.pMin.x, b2.pMin.x, b1.pMax.x, b2.pMax.x, p.x);
    AxisMeet(b1.pMin.y, b2.pMin.y, b1.pMax.y, b2.pMax.y, p.y);
    AxisMeet(b1.pMin.z, b2.pMin.z, b1.pMax.z, b2.pMax.z, p.z);
  }

  /** `overlaps`: the closed intervals meet on all three axes */
  predicate Overlaps(b1: Bounds3f, b2: Bounds3f) {
    (Le(b2.pMin.x, b1.pMax.x) && Le(b1.pMin.x, b2.pMax.x)) &&
    (Le(b2.pMin.y, b1.pMax.y) && Le(b1.pMin.y, b2.pMax.y)) &&
    (Le(b2.pMin.z, b1.pMax.z) && Le(b1.pMin.z, b2.pMax.z))
  }

  /** Two non-empty boxes overlap exactly when some point lies in both */
  lemma OverlapsIffCommonPoint(b1: Bounds3f, b2: Bounds3f)
    requires NoNaNBox(b1) && NoNaNBox(b2) && NonEmpty(b1) && NonEmpty(b2)
    ensures Overlaps(b1, b2) <==> exists p :: Inside(b1, p) && Inside(b2, p)
  {
    if Overlaps(b1, b2) {
      var w := Intersect(b1, b2).pMin;
      MinMaxBracket3(b1.pMin, b2.pMin);
      InsideIntersect(b1, b2, w);
      assert Inside(b1, w) && Inside(b2, w);
    } else {
      forall p | Inside(b1, p)
        ensures !Inside(b2, p)
      {
        if Inside(b2, p) {
          LeTrans(b2.pMin.x, p.x, b1.pMax.x); LeTrans(b1.pMin.x, p.x, b2.pMax.x);
          LeTrans(b2.pMin.y, p.y, b1.pMax.y); LeTrans(b1.pMin.y, p.y, b2.pMax.y);
          LeTrans(b2.pMin.z, p.z, b1.pMax.z); LeTrans(b1.pMin.z, p.z, b2.pMax.z);
        }
      }
    }
  }

  /** `expand(delta)`: every face pushed out by `delta`, then re-sorted by `init` */
  function Expand(b: Bounds3f, delta: Float): (r: Bounds3f)
    ensures NoNaNBox(b) && NonEmpty(b) && delta.Fin? && delta.r >= 0.0 ==> Encloses(r, b)
  {
    var dv := V3(delta, delta, delta);
    ExpandAxis(b.pMin.x, b.pMax.x, delta);
    ExpandAxis(b.pMin.y, b.pMax.y, delta);
    ExpandAxis(b.pMin.z, b.pMax.z, delta);
    Init(Sub3(b.pMin, dv), Add3(b.pMax, dv))
  }

  lemma ExpandAxis(lo: Float, hi: Float, delta: Float)
    ensures !lo.NaN? && !hi.NaN? && Le(lo, hi) && delta.Fin? && delta.r >= 0.0 ==>
      Le(Min(Sub(lo, delta), Add(hi, delta)), lo) && Le(hi, Max(Sub(lo, delta), Add(hi, delta)))
  {
    if !lo.NaN? && !hi.NaN? && Le(lo, hi) && delta.Fin? && delta.r >= 0.0 {
      var a, c := Sub(lo, delta), Add(hi, delta);
      assert Le(a, lo) && Le(hi, c);
      MinMaxBracket(a, c);
      LeTrans(Min(a, c), a, lo);
      LeTrans(hi, c, Max(a, c));
    }
  }

  /** Expanding the empty box by a finite amount swaps its infinite corners: the result is all of space */
  lemma ExpandEmptyIsEverything(delta: real)
    ensures var r := Expand(New(), Fin(delta));
      r.pMin == V3(NegInf, NegInf, NegInf) && r.pMax == V3(PosInf, PosInf, PosInf)
  {
  }

  /** `==` (the `PartialEq` impl): IEEE equality of both corners */
  predicate Eq(b1: Bounds3f, b2: Bounds3f) {
    PointEq3(b1.pMax, b2.pMax) && PointEq3(b1.pMin, b2.pMin)
  }

  /** `!=`: some corner component differs or is NaN */
  predicate Ne(b1: Bounds3f, b2: Bounds3f) {
    !PointEq3(b1.pMax, b2.pMax) || !PointEq3(b1.pMin, b2.pMin)
  }

  /** `!=` is the negation of `==`; a box holding NaN is not even equal to itself */
  lemma NeIsNotEq(b1: Bounds3f, b2: Bounds3f)
    ensures Ne(b1, b2) <==> !Eq(b1, b2)
    ensures Eq(b1, b1) <==> NoNaNBox(b1)
  {
  }

  /** The parametric interval `[t0, t1]` of a ray still inside every slab seen so far */
  datatype Interval = Interval(t0: Float, t1: Float)

  /** One slab of the box test: the two crossing distances, nearer one first */
  function NearFar(lo: Float, hi: Float, o: Float, d: Float): Interval {
    var invRayDir := Div(One, d);
    var tNear := Mul(Sub(lo, o), invRayDir);
    var tFar := Mul(Sub(hi, o), invRayDir);
    if Lt(tFar, tNear) then Interval(tFar, tNear) else Interval(tNear, tFar)
  }

  /** One iteration of `intersect_p`'s loop: narrow the interval by slab `i`, `None` once it is empty */
  function SlabStep(b: Bounds3f, ray: Ray, i: nat, iv: Interval): Option<Interval>
    requires i < 3
  {
    var nf := NearFar(b.pMin.Get(i), b.pMax.Get(i), ray.o.Get(i), ray.d.Get(i));
    var t0 := if Lt(iv.t0, nf.t0) then nf.t0 else iv.t0;
    var t1 := if Lt(nf.t1, iv.t1) then nf.t1 else iv.t1;
    if Lt(t1, t0) then None else Some(Interval(t0, t1))
  }

  /** The state of `intersect_p` after its first `k` slabs, starting from `[0, t_max]` */
  function Slabs(b: Bounds3f, ray: Ray, k: nat): Option<Interval>
    requires k <= 3
  {
    if k == 0 then Some(Interval(Zero, ray.tMax))
    else match Slabs(b, ray, k - 1)
      case None => None
      case Some(iv) => SlabStep(b, ray, k - 1, iv)
  }

  lemma {:induction false} SlabsStayEmpty(b: Bounds3f, ray: Ray, k: nat, j: nat)
    requires k <= j <= 3 && Slabs(b, ray, k).None?
    ensures Slabs(b, ray, j).None?
    decreases j - k
  {
    if k < j {
      SlabsStayEmpty(b, ray, k + 1, j);
    }
  }

  /**
   * `intersect_p`: clip `[0, t_max]` against the x, y and z slabs in turn, giving up as soon
   * as the interval is empty. On a miss the caller's `hit_t0`/`hit_t1` are left as they were.
   */
  method IntersectP(b: Bounds3f, ray: Ray, hitT0: Float, hitT1: Float) returns (hit: bool, t0Out: Float, t1Out: Float)
    ensures hit <==> Slabs(b, ray, 3).Some?
    ensures hit ==> Slabs(b, ray, 3) == Some(Interval(t0Out, t1Out))
    ensures !hit ==> t0Out == hitT0 && t1Out == hitT1
    ensures hit && !ray.tMax.NaN? ==> Le(Zero, t0Out) && Le(t0Out, t1Out) && Le(t1Out, ray.tMax)
  {
    var t0 := Zero;
    var t1 := ray.tMax;
    for i := 0 to 3
      invariant Slabs(b, ray, i) == Some(Interval(t0, t1))
    {
      var invRayDir := Div(One, ray.d.Get(i));
      var tNear := Mul(Sub(b.pMin.Get(i), ray.o.Get(i)), invRayDir);
      var tFar := Mul(Sub(b.pMax.Get(i), ray.o.Get(i)), invRayDir);
      if Lt(tFar, tNear) {
        tNear, tFar := tFar, tNear;
      }
      t0 := if Lt(t0, tNear) then tNear else t0;
      t1 := if Lt(tFar, t1) then tFar else t1;
      if Lt(t1, t0) {
        SlabsStayEmpty(b, ray, i + 1, 3);
        return false, hitT0, hitT1;
      }
    }
    SlabsBracket(b, ray, 3);
    return true, t0, t1;
  }

  /** A surviving interval starts at or after 0, ends at or before `t_max`, and (past the first slab) is not reversed */
  lemma {:induction false} SlabsBracket(b: Bounds3f, ray: Ray, k: nat)
    requires k <= 3
    ensures !ray.tMax.NaN? && Slabs(b, ray, k).Some? ==>
      var iv := Slabs(b, ray, k).value;
      !iv.t0.NaN? && !iv.t1.NaN? && Le(Zero, iv.t0) && Le(iv.t1, ray.tMax) && (k > 0 ==> Le(iv.t0, iv.t1))
  {
    if k > 0 && !ray.tMax.NaN? {
      SlabsBracket(b, ray, k - 1);
      if Slabs(b, ray, k).Some? {
        var prev := Slabs(b, ray, k - 1).value;
        var iv := Slabs(b, ray, k).value;
        if Lt(prev.t0, iv.t0) { LeTrans(Zero, prev.t0, iv.t0); }
        if Lt(iv.t1, prev.t1) { LeTrans(iv.t1, prev.t1, ray.tMax); }
        LeTotal(iv.t0, iv.t1);
      }
    }
  }

  /** A ray component crosses slab `[lo, hi]` at parameter `s` */
  predicate InSlab(lo: real, hi: real, o: real, d: real, s: real) {
    lo <= o + d * s <= hi
  }

  lemma MulMonotone(x: real, y: real, k: real)
    requires x <= y && k > 0.0
    ensures x * k <= y * k
  {
  }

  /** Whenever the crossing distances of a slab are numbers, they bracket every parameter inside it */
  lemma NearFarBrackets(lo: Float, hi: Float, o: Float, d: Float, t: real)
    requires lo.Fin? && hi.Fin? && o.Fin? && d.Fin?
    requires InSlab(lo.r, hi.r, o.r, d.r, t)
    ensures var nf := NearFar(lo, hi, o, d);
      (!nf.t0.NaN? ==> Le(nf.t0, Fin(t))) && (!nf.t1.NaN? ==> Le(Fin(t), nf.t1))
  {
    var a, c, m := lo.r - o.r, hi.r - o.r, d.r * t;
    assert lo.r <= o.r + m <= hi.r;
    assert a <= m <= c;
    if d.r == 0.0 {
      assert Div(One, d) == PosInf;
      assert Sub(lo, o) == Fin(a) && Sub(hi, o) == Fin(c);
    } else {
      NearFarNonzero(lo, hi, o, d);
      DividedBounds(a, c, d.r, t, m);
    }
  }

  /** Any parameter bracketed before a step and whose slab it lies in is still bracketed after it */
  lemma {:induction false} SlabsContain(b: Bounds3f, ray: Ray, k: nat, t: real)
    requires k <= 3 && FiniteBox(b) && Finite3(ray.o) && Finite3(ray.d)
    requires 0.0 <= t && Le(Fin(t), ray.tMax)
    requires forall i :: 0 <= i < k ==> InSlab(b.pMin.Get(i).r, b.pMax.Get(i).r, ray.o.Get(i).r, ray.d.Get(i).r, t)
    ensures Slabs(b, ray, k).Some?
    ensures var iv := Slabs(b, ray, k).value;
      !iv.t0.NaN? && !iv.t1.NaN? && Le(iv.t0, Fin(t)) && Le(Fin(t), iv.t1)
  {
    if k > 0 {
      SlabsContain(b, ray, k - 1, t);
      var i := k - 1;
      var prev := Slabs(b, ray, i).value;
      var nf := NearFar(b.pMin.Get(i), b.pMax.Get(i), ray.o.Get(i), ray.d.Get(i));
      NearFarBrackets(b.pMin.Get(i), b.pMax.Get(i), ray.o.Get(i), ray.d.Get(i), t);
      var t0 := if Lt(prev.t0, nf.t0) then nf.t0 else prev.t0;
      var t1 := if Lt(nf.t1, prev.t1) then nf.t1 else prev.t1;
      assert Le(t0, Fin(t)) && Le(Fin(t), t1);
      LeTrans(t0, Fin(t), t1);
      LeTotal(t0, t1);
      assert SlabStep(b, ray, i, prev) == Some(Interval(t0, t1));
    }
  }

  /**
   * The box test never misses: if the finite ray meets the box at some parameter in
   * `[0, t_max]`, `intersect_p` hits and its interval holds that parameter.
   */
  lemma IntersectPConservative(b: Bounds3f, ray: Ray, t: real)
    requires FiniteBox(b) && Finite3(ray.o) && Finite3(ray.d)
    requires 0.0 <= t && Le(Fin(t), ray.tMax)
    requires Inside(b, At(ray, Fin(t)))
    ensures Slabs(b, ray, 3).Some?
    ensures Le(Slabs(b, ray, 3).value.t0, Fin(t)) && Le(Fin(t), Slabs(b, ray, 3).value.t1)
  {
    AtIsAffine(ray, t);
    assert InSlab(b.pMin.x.r, b.pMax.x.r, ray.o.x.r, ray.d.x.r, t);
    assert InSlab(b.pMin.y.r, b.pMax.y.r, ray.o.y.r, ray.d.y.r, t);
    assert InSlab(b.pMin.z.r, b.pMax.z.r, ray.o.z.r, ray.d.z.r, t);
    SlabsContain(b, ray, 3, t);
  }

  /** Dividing a slab's face distances by a nonzero direction brackets the parameters that cross it */
  lemma DividedSlab(a: real, c: real, d: real, s: real, m: real)
    requires d != 0.0 && m == d * s
    requires d > 0.0 ==> a * (1.0 / d) <= s <= c * (1.0 / d)
    requires d < 0.0 ==> c * (1.0 / d) <= s <= a * (1.0 / d)
    ensures a <= m <= c
  {
    var k := 1.0 / d;
    assert d * k == 1.0;
    if d > 0.0 {
      MulMonotone(a * k, s, d);
      MulMonotone(s, c * k, d);
      assert a * k * d == a * (d * k);
      assert c * k * d == c * (d * k);
    } else {
      MulMonotone(c * k, s, -d);
      MulMonotone(s, a * k, -d);
      assert a * k * d == a * (d * k);
      assert c * k * d == c * (d * k);
    }
  }

  /** Along an axis the ray does not move, a slab off to one side is crossed only at infinity */
  lemma NearFarZeroDir(lo: Float, hi: Float, o: Float, d: Float)
    requires lo.Fin? && hi.Fin? && o.Fin? && d == Zero && lo.r <= hi.r
    ensures lo.r > o.r ==> NearFar(lo, hi, o, d) == Interval(PosInf, PosInf)
    ensures hi.r < o.r ==> NearFar(lo, hi, o, d) == Interval(NegInf, NegInf)
  {
    assert Div(One, d) == PosInf;
    assert Sub(lo, o) == Fin(lo.r - o.r) && Sub(hi, o) == Fin(hi.r - o.r);
  }

  /** For a nonzero direction the crossing distances are the face distances divided by it, in order */
  lemma NearFarNonzero(lo: Float, hi: Float, o: Float, d: Float)
    requires lo.Fin? && hi.Fin? && o.Fin? && d.Fin? && lo.r <= hi.r && d.r != 0.0
    ensures var a, c, k := lo.r - o.r, hi.r - o.r, 1.0 / d.r;
      NearFar(lo, hi, o, d) == if d.r > 0.0 then Interval(Fin(a * k), Fin(c * k)) else Interval(Fin(c * k), Fin(a * k))
  {
    var a, c, k := lo.r - o.r, hi.r - o.r, 1.0 / d.r;
    assert Div(One, d) == Fin(k);
    assert Mul(Sub(lo, o), Fin(k)) == Fin(a * k);
    assert Mul(Sub(hi, o), Fin(k)) == Fin(c * k);
    if d.r > 0.0 {
      MulMonotone(a, c, k);
    } else {
      MulMonotone(a, c, -k);
    }
  }

  /** Where a slab leaves a finite interval behind, every parameter in it crosses that slab */
  lemma NearFarExact(lo: Float, hi: Float, o: Float, d: Float, t0: Float, t1: Float, s: real)
    requires lo.Fin? && hi.Fin? && o.Fin? && d.Fin? && lo.r <= hi.r
    requires t0.Fin? && t1.Fin?
    requires var nf := NearFar(lo, hi, o, d);
      var u0 := if Lt(t0, nf.t0) then nf.t0 else t0;
      var u1 := if Lt(nf.t1, t1) then nf.t1 else t1;
      u0.Fin? && u1.Fin? && u0.r <= s <= u1.r
    ensures InSlab(lo.r, hi.r, o.r, d.r, s)
  {
    if d.r == 0.0 {
      NearFarZeroDir(lo, hi, o, d);
    } else {
      var nf := NearFar(lo, hi, o, d);
      NearFarNonzero(lo, hi, o, d);
      assert nf.t0.Fin? && nf.t1.Fin? && nf.t0.r <= s <= nf.t1.r;
      var m := d.r * s;
      DividedSlab(lo.r - o.r, hi.r - o.r, d.r, s, m);
      assert lo.r <= o.r + m <= hi.r;
    }
  }

  /**
   * Every interval `intersect_p` keeps is finite, and each of its parameters crosses all the
   * slabs seen so far.
   */
  lemma {:induction false} SlabsExact(b: Bounds3f, ray: Ray, k: nat, s: real)
    requires k <= 3 && FiniteBox(b) && NonEmpty(b) && Finite3(ray.o) && Finite3(ray.d) && ray.tMax.Fin?
    requires Slabs(b, ray, k).Some?
    ensures var iv := Slabs(b, ray, k).value; iv.t0.Fin? && iv.t1.Fin?
    ensures var iv := Slabs(b, ray, k).value; iv.t0.r <= s <= iv.t1.r ==>
      forall i :: 0 <= i < k ==> InSlab(b.pMin.Get(i).r, b.pMax.Get(i).r, ray.o.Get(i).r, ray.d.Get(i).r, s)
  {
    var iv := Slabs(b, ray, k).value;
    SlabsBracket(b, ray, k);
    if k > 0 {
      LeTrans(iv.t0, iv.t1, ray.tMax);
      LeTrans(Zero, iv.t0, iv.t1);
      var i := k - 1;
      SlabsExact(b, ray, i, s);
      var prev := Slabs(b, ray, i).value;
      if iv.t0.r <= s <= iv.t1.r {
        NearFarExact(b.pMin.Get(i), b.pMax.Get(i), ray.o.Get(i), ray.d.Get(i), prev.t0, prev.t1, s);
      }
    }
  }

  /** What `intersect_p` reports on a hit is a stretch of the ray lying wholly inside the box */
  lemma IntersectPExact(b: Bounds3f, ray: Ray)
    requires FiniteBox(b) && NonEmpty(b) && Finite3(ray.o) && Finite3(ray.d) && ray.tMax.Fin?
    requires Slabs(b, ray, 3).Some?
    ensures var iv := Slabs(b, ray, 3).value;
      iv.t0.Fin? && iv.t1.Fin? && 0.0 <= iv.t0.r <= iv.t1.r <= ray.tMax.r
    ensures var iv := Slabs(b, ray, 3).value;
      forall s :: iv.t0.r <= s <= iv.t1.r ==> Inside(b, At(ray, Fin(s)))
  {
    var iv := Slabs(b, ray, 3).value;
    SlabsBracket(b, ray, 3);
    SlabsExact(b, ray, 3, 0.0);
    forall s | iv.t0.r <= s <= iv.t1.r
      ensures Inside(b, At(ray, Fin(s)))
    {
      SlabsExact(b, ray, 3, s);
      assert InSlab(b.pMin.Get(0).r, b.pMax.Get(0).r, ray.o.Get(0).r, ray.d.Get(0).r, s);
      assert InSlab(b.pMin.Get(1).r, b.pMax.Get(1).r, ray.o.Get(1).r, ray.d.Get(1).r, s);
      assert InSlab(b.pMin.Get(2).r, b.pMax.Get(2).r, ray.o.Get(2).r, ray.d.Get(2).r, s);
      InsideAtSlabParameter(b, ray, s);
    }
  }

  lemma InsideAtSlabParameter(b: Bounds3f, ray: Ray, s: real)
    requires FiniteBox(b) && Finite3(ray.o) && Finite3(ray.d)
    requires InSlab(b.pMin.x.r, b.pMax.x.r, ray.o.x.r, ray.d.x.r, s)
    requires InSlab(b.pMin.y.r, b.pMax.y.r, ray.o.y.r, ray.d.y.r, s)
    requires InSlab(b.pMin.z.r, b.pMax.z.r, ray.o.z.r, ray.d.z.r, s)
    ensures Inside(b, At(ray, Fin(s)))
  {
    AtIsAffine(ray, s);
  }

  /**
   * For a finite ray with a finite `t_max` and a finite non-empty box, `intersect_p` hits
   * exactly when some point of the ray with parameter in `[0, t_max]` is inside the box.
   */
  lemma IntersectPIffRayMeetsBox(b: Bounds3f, ray: Ray)
    requires FiniteBox(b) && NonEmpty(b) && Finite3(ray.o) && Finite3(ray.d) && ray.tMax.Fin?
    ensures Slabs(b, ray, 3).Some? <==>
      exists t :: 0.0 <= t <= ray.tMax.r && Inside(b, At(ray, Fin(t)))
  {
    if Slabs(b, ray, 3).Some? {
      IntersectPExact(b, ray);
      var t := Slabs(b, ray, 3).value.t0.r;
      assert 0.0 <= t <= ray.tMax.r && Inside(b, At(ray, Fin(t)));
    }
    forall t | 0.0 <= t <= ray.tMax.r && Inside(b, At(ray, Fin(t)))
      ensures Slabs(b, ray, 3).Some?
    {
      IntersectPConservative(b, ray, t);
    }
  }

  /** The reciprocal direction the BVH traversal hands to the box test */
  function InvDir(d: Vector3): Vector3 {
    V3(Div(One, d.x), Div(One, d.y), Div(One, d.z))
  }

  /** `dir_is_neg`: 1 on the axes where the reciprocal direction is negative, else 0 */
  function DirIsNeg(inv: Vector3): (neg: seq<nat>)
    ensures |neg| == 3 && forall i | 0 <= i < 3 :: neg[i] <= 1
  {
    [if Lt(inv.x, Zero) then 1 else 0, if Lt(inv.y, Zero) then 1 else 0, if Lt(inv.z, Zero) then 1 else 0]
  }

  /** The entry distance of slab `i`, taken from the face the ray meets first */
  function SlabEntry(b: Bounds3f, ray: Ray, invDir: Vector3, dirIsNeg: seq<nat>, i: nat): Float
    requires i < 3 && |dirIsNeg| == 3
  {
    Mul(Sub(Index(b, dirIsNeg[i]).Get(i), ray.o.Get(i)), invDir.Get(i))
  }

  /** The exit distance of slab `i`, widened by `1 + 2*gamma(3)` against rounding */
  function SlabExit(b: Bounds3f, ray: Ray, invDir: Vector3, dirIsNeg: seq<nat>, i: nat): Float
    requires i < 3 && |dirIsNeg| == 3 && dirIsNeg[i] <= 1
  {
    Mul(Mul(Sub(Index(b, 1 - dirIsNeg[i]).Get(i), ray.o.Get(i)), invDir.Get(i)), Fin(RobustScale))
  }

  /**
   * One later axis of `intersect_p_with_inv`: give up when the interval and the slab's
   * `[lo, hi]` are separated, otherwise keep the later entry and the earlier exit.
   */
  function Narrow(iv: Interval, lo: Float, hi: Float): Option<Interval> {
    if Lt(hi, iv.t0) || Lt(iv.t1, lo) then None
    else Some(Interval(if Lt(iv.t0, lo) then lo else iv.t0, if Lt(hi, iv.t1) then hi else iv.t1))
  }

  /**
   * `intersect_p_with_inv`: the slab test with a precomputed reciprocal direction and
   * per-axis sign; the x slab starts the interval, y and z narrow it, and a hit needs the
   * final interval to start before `t_max` and end after 0.
   */
  function IntersectPWithInv(b: Bounds3f, ray: Ray, invDir: Vector3, dirIsNeg: seq<nat>): bool
    requires |dirIsNeg| == 3 && forall i | 0 <= i < 3 :: dirIsNeg[i] <= 1
  {
    var x := Interval(SlabEntry(b, ray, invDir, dirIsNeg, 0), SlabExit(b, ray, invDir, dirIsNeg, 0));
    match Narrow(x, SlabEntry(b, ray, invDir, dirIsNeg, 1), SlabExit(b, ray, invDir, dirIsNeg, 1))
    case None => false
    case Some(xy) =>
      match Narrow(xy, SlabEntry(b, ray, invDir, dirIsNeg, 2), SlabExit(b, ray, invDir, dirIsNeg, 2))
      case None => false
      case Some(xyz) => Lt(xyz.t0, ray.tMax) && Lt(Zero, xyz.t1)
  }

  /** Entry and exit distances of one axis, as `intersect_p_with_inv` computes them from the ray's direction */
  function AxisEntryExit(lo: Float, hi: Float, o: Float, d: Float): Interval {
    var inv := Div(One, d);
    var near := if Lt(inv, Zero) then hi else lo;
    var far := if Lt(inv, Zero) then lo else hi;
    Interval(Mul(Sub(near, o), inv), Mul(Mul(Sub(far, o), inv), Fin(RobustScale)))
  }

  /**
   * On an axis the ray moves along, or whose slab strictly contains the origin, the entry
   * distance is at most and the widened exit distance at least every parameter crossing it.
   */
  lemma AxisEntryExitBracket(lo: Float, hi: Float, o: Float, d: Float, t: real)
    requires lo.Fin? && hi.Fin? && o.Fin? && d.Fin? && 0.0 < t
    requires d.r != 0.0 || lo.r < o.r < hi.r
    requires InSlab(lo.r, hi.r, o.r, d.r, t)
    ensures var ee := AxisEntryExit(lo, hi, o, d);
      !ee.t0.NaN? && !ee.t1.NaN? && Le(ee.t0, Fin(t)) && Le(Fin(t), ee.t1)
  {
    RobustScaleAtLeastOne();
    if d.r == 0.0 {
      assert Div(One, d) == PosInf;
      assert Mul(PosInf, Fin(RobustScale)) == PosInf;
    } else {
      var a, c, k, m := lo.r - o.r, hi.r - o.r, 1.0 / d.r, d.r * t;
      assert Div(One, d) == Fin(k);
      assert lo.r <= o.r + m <= hi.r;
      DividedBounds(a, c, d.r, t, m);
      if d.r > 0.0 {
        assert Mul(Sub(lo, o), Fin(k)) == Fin(a * k);
        assert Mul(Sub(hi, o), Fin(k)) == Fin(c * k);
        MulMonotone(1.0, RobustScale, c * k);
      } else {
        assert Mul(Sub(lo, o), Fin(k)) == Fin(a * k);
        assert Mul(Sub(hi, o), Fin(k)) == Fin(c * k);
        MulMonotone(1.0, RobustScale, a * k);
      }
    }
  }

  lemma SlabEntryExitIsAxis(b: Bounds3f, ray: Ray, i: nat)
    requires i < 3
    ensures var inv, neg := InvDir(ray.d), DirIsNeg(InvDir(ray.d));
      Interval(SlabEntry(b, ray, inv, neg, i), SlabExit(b, ray, inv, neg, i)) ==
      AxisEntryExit(b.pMin.Get(i), b.pMax.Get(i), ray.o.Get(i), ray.d.Get(i))
  {
    var inv, neg := InvDir(ray.d), DirIsNeg(InvDir(ray.d));
    assert inv.Get(i) == Div(One, ray.d.Get(i));
    assert neg[i] == if Lt(inv.Get(i), Zero) then 1 else 0;
  }

  /** The converse of `DividedSlab`: a parameter crossing the slab lies between the divided face distances */
  lemma DividedBounds(a: real, c: real, d: real, t: real, m: real)
    requires d != 0.0 && m == d * t && a <= m <= c
    ensures d > 0.0 ==> a * (1.0 / d) <= t <= c * (1.0 / d)
    ensures d < 0.0 ==> c * (1.0 / d) <= t <= a * (1.0 / d)
  {
    var k := 1.0 / d;
    assert d * k == 1.0;
    assert m * k == t * (d * k);
    if d > 0.0 {
      MulMonotone(a, m, k);
      MulMonotone(m, c, k);
    } else {
      MulMonotone(a, m, -k);
      MulMonotone(m, c, -k);
    }
  }

  /** Narrowing an interval that brackets `t` by a slab that brackets `t` keeps it, still bracketing `t` */
  lemma NarrowKeeps(iv: Interval, lo: Float, hi: Float, t: Float)
    requires !iv.t0.NaN? && !iv.t1.NaN? && !lo.NaN? && !hi.NaN?
    requires Le(iv.t0, t) && Le(t, iv.t1) && Le(lo, t) && Le(t, hi)
    ensures Narrow(iv, lo, hi).Some?
    ensures var r := Narrow(iv, lo, hi).value;
      !r.t0.NaN? && !r.t1.NaN? && Le(r.t0, t) && Le(t, r.t1)
  {
    LeTrans(iv.t0, t, hi);
    LeTotal(iv.t0, hi);
    LeTrans(lo, t, iv.t1);
    LeTotal(lo, iv.t1);
  }

  /** A finite point of the ray inside the box crosses each of the three slabs */
  lemma InsideGivesSlabs(b: Bounds3f, ray: Ray, t: real)
    requires FiniteBox(b) && Finite3(ray.o) && Finite3(ray.d)
    requires Inside(b, At(ray, Fin(t)))
    ensures InSlab(b.pMin.x.r, b.pMax.x.r, ray.o.x.r, ray.d.x.r, t)
    ensures InSlab(b.pMin.y.r, b.pMax.y.r, ray.o.y.r, ray.d.y.r, t)
    ensures InSlab(b.pMin.z.r, b.pMax.z.r, ray.o.z.r, ray.d.z.r, t)
  {
    AtIsAffine(ray, t);
  }

  /** With all three axes bracketing a parameter strictly inside `(0, t_max)`, the test reports a hit */
  lemma WithInvHitsBracketed(b: Bounds3f, ray: Ray, t: real)
    requires 0.0 < t && Lt(Fin(t), ray.tMax)
    requires forall i | 0 <= i < 3 ::
      var ee := AxisEntryExit(b.pMin.Get(i), b.pMax.Get(i), ray.o.Get(i), ray.d.Get(i));
      !ee.t0.NaN? && !ee.t1.NaN? && Le(ee.t0, Fin(t)) && Le(Fin(t), ee.t1)
    ensures IntersectPWithInv(b, ray, InvDir(ray.d), DirIsNeg(InvDir(ray.d)))
  {
    var e0 := AxisEntryExit(b.pMin.Get(0), b.pMax.Get(0), ray.o.Get(0), ray.d.Get(0));
    var e1 := AxisEntryExit(b.pMin.Get(1), b.pMax.Get(1), ray.o.Get(1), ray.d.Get(1));
    var e2 := AxisEntryExit(b.pMin.Get(2), b.pMax.Get(2), ray.o.Get(2), ray.d.Get(2));
    SlabEntryExitIsAxis(b, ray, 0);
    SlabEntryExitIsAxis(b, ray, 1);
    SlabEntryExitIsAxis(b, ray, 2);
    NarrowKeeps(e0, e1.t0, e1.t1, Fin(t));
    var xy := Narrow(e0, e1.t0, e1.t1).value;
    NarrowKeeps(xy, e2.t0, e2.t1, Fin(t));
    var xyz := Narrow(xy, e2.t0, e2.t1).value;
    LeLtTrans(xyz.t0, Fin(t), ray.tMax);
    LtLeTrans(Zero, Fin(t), xyz.t1);
  }

  /**
   * The BVH's box test never culls a box the ray really crosses at some parameter strictly
   * between 0 and `t_max`, provided no axis makes a NaN: on every axis the ray moves, or the
   * origin lies strictly between that axis's faces.
   */
  lemma IntersectPWithInvConservative(b: Bounds3f, ray: Ray, t: real)
    requires FiniteBox(b) && Finite3(ray.o) && Finite3(ray.d)
    requires forall i | 0 <= i < 3 :: ray.d.Get(i).r != 0.0 || b.pMin.Get(i).r < ray.o.Get(i).r < b.pMax.Get(i).r
    requires 0.0 < t && Lt(Fin(t), ray.tMax)
    requires Inside(b, At(ray, Fin(t)))
    ensures IntersectPWithInv(b, ray, InvDir(ray.d), DirIsNeg(InvDir(ray.d)))
  {
    InsideGivesSlabs(b, ray, t);
    forall i | 0 <= i < 3
      ensures var ee := AxisEntryExit(b.pMin.Get(i), b.pMax.Get(i), ray.o.Get(i), ray.d.Get(i));
        !ee.t0.NaN? && !ee.t1.NaN? && Le(ee.t0, Fin(t)) && Le(Fin(t), ee.t1)
    {
      assert InSlab(b.pMin.Get(i).r, b.pMax.Get(i).r, ray.o.Get(i).r, ray.d.Get(i).r, t);
      AxisEntryExitBracket(b.pMin.Get(i), b.pMax.Get(i), ray.o.Get(i), ray.d.Get(i), t);
    }
    WithInvHitsBracketed(b, ray, t);
  }

  /**
   * The NaN the proviso above excludes is real: a ray running inside the face x = 0 of the
   * unit box is culled by the BVH's test although `intersect_p` reports the crossing.
   */
  lemma GrazingRayCulled()
    ensures var b := Bounds3f(V3(Zero, Zero, Zero), V3(One, One, One));
      var ray := Ray(V3(Zero, Half, Half), V3(Zero, One, Zero), PosInf, Zero, None);
      Inside(b, At(ray, Fin(0.25))) && Slabs(b, ray, 3).Some? &&
      !IntersectPWithInv(b, ray, InvDir(ray.d), DirIsNeg(InvDir(ray.d)))
  {
    var b := Bounds3f(V3(Zero, Zero, Zero), V3(One, One, One));
    var ray := Ray(V3(Zero, Half, Half), V3(Zero, One, Zero), PosInf, Zero, None);
    assert At(ray, Fin(0.25)) == V3(Zero, Fin(0.75), Half);
    var inv, neg := InvDir(ray.d), DirIsNeg(InvDir(ray.d));
    assert inv == V3(PosInf, One, PosInf) && neg == [0, 0, 0];
    assert SlabEntry(b, ray, inv, neg, 0) == NaN;
    assert NearFar(b.pMin.x, b.pMax.x, ray.o.x, ray.d.x) == Interval(NaN, PosInf);
    assert NearFar(b.pMin.y, b.pMax.y, ray.o.y, ray.d.y) == Interval(Fin(-0.5), Half);
    assert NearFar(b.pMin.z, b.pMax.z, ray.o.z, ray.d.z) == Interval(NegInf, PosInf);
    assert Slabs(b, ray, 3) == Some(Interval(Zero, Half));
  }
}
