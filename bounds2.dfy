/**
 * Axis-aligned rectangles in the plane (src/geometry/bounding_box_2.rs). Unlike the
 * three-dimensional box, `new` here is the whole plane, not the empty rectangle.
 */
module Bounds2 {
  import opened Floats
  import opened Vectors

  datatype Bounds2f = Bounds2f(pMin: Point2, pMax: Point2)

  predicate NoNaNRect(b: Bounds2f) { NoNaN2(b.pMin) && NoNaN2(b.pMax) }

  predicate FiniteRect(b: Bounds2f) { Finite2(b.pMin) && Finite2(b.pMax) }

  predicate NonEmpty(b: Bounds2f) { Le(b.pMin.x, b.pMax.x) && Le(b.pMin.y, b.pMax.y) }

  /** `inside`: closed on all four edges */
  predicate Inside(b: Bounds2f, c: Point2) {
    Le(b.pMin.x, c.x) && Le(c.x, b.pMax.x) && Le(b.pMin.y, c.y) && Le(c.y, b.pMax.y)
  }

  /** `new`: the whole plane, lower corner at -infinity and upper corner at +infinity */
  function New(): (b: Bounds2f)
    ensures NoNaNRect(b) && NonEmpty(b)
    ensures forall p :: NoNaN2(p) ==> Inside(b, p)
  {
    Bounds2f(V2(NegInf, NegInf), V2(PosInf, PosInf))
  }

  /** `init`: the smallest rectangle holding both points, whatever their order */
  function Init(p1: Point2, p2: Point2): (b: Bounds2f)
    ensures NoNaN2(p1) && NoNaN2(p2) ==> NonEmpty(b) && Inside(b, p1) && Inside(b, p2)
    ensures NoNaN2(p1) && NoNaN2(p2) ==>
      forall c :: NoNaNRect(c) && Inside(c, p1) && Inside(c, p2) ==>
        Le(c.pMin.x, b.pMin.x) && Le(c.pMin.y, b.pMin.y) && Le(b.pMax.x, c.pMax.x) && Le(b.pMax.y, c.pMax.y)
  {
    MinMaxBracket2(p1, p2);
    Bounds2f(V2(Min(p1.x, p2.x), Min(p1.y, p2.y)), V2(Max(p1.x, p2.x), Max(p1.y, p2.y)))
  }

  /** The order of the two corner points does not matter, NaN components included */
  lemma InitSymmetric(p1: Point2, p2: Point2)
    ensures Init(p1, p2) == Init(p2, p1)
  {
  }

  lemma MinMaxBracket2(p1: Point2, p2: Point2)
    ensures NoNaN2(p1) && NoNaN2(p2) ==>
      Le(Min(p1.x, p2.x), p1.x) && Le(p1.x, Max(p1.x, p2.x)) && Le(Min(p1.x, p2.x), p2.x) && Le(p2.x, Max(p1.x, p2.x)) &&
      Le(Min(p1.y, p2.y), p1.y) && Le(p1.y, Max(p1.y, p2.y)) && Le(Min(p1.y, p2.y), p2.y) && Le(p2.y, Max(p1.y, p2.y)) &&
      Le(Min(p1.x, p2.x), Max(p1.x, p2.x)) && Le(Min(p1.y, p2.y), Max(p1.y, p2.y))
  {
    if NoNaN2(p1) && NoNaN2(p2) {
      MinMaxBracket(p1.x, p2.x);
      MinMaxBracket(p1.y, p2.y);
      LeTrans(Min(p1.x, p2.x), p1.x, Max(p1.x, p2.x));
      LeTrans(Min(p1.y, p2.y), p1.y, Max(p1.y, p2.y));
    }
  }

  /** `init_one`: the degenerate rectangle holding exactly one point */
  function InitOne(p: Point2): (b: Bounds2f)
    ensures NoNaN2(p) ==> NonEmpty(b) && forall q :: Inside(b, q) <==> PointEq2(q, p)
    ensures b == Init(p, p)
  {
    Bounds2f(p, p)
  }

  function Diagonal(b: Bounds2f): Vector2 {
    Sub2(b.pMax, b.pMin)
  }

  /** `area`: width times height, negative for a rectangle inverted along one axis */
  function Area(b: Bounds2f): (a: Float)
    ensures FiniteRect(b) && NonEmpty(b) ==> a.Fin? && a.r >= 0.0
    ensures FiniteRect(b) && Lt(b.pMax.x, b.pMin.x) && Lt(b.pMin.y, b.pMax.y) ==> a.Fin? && a.r < 0.0
  {
    var d := Diagonal(b);
    assert FiniteRect(b) ==> d == V2(Fin(b.pMax.x.r - b.pMin.x.r), Fin(b.pMax.y.r - b.pMin.y.r));
    Mul(d.x, d.y)
  }

  /** `max_extent`: 0 when strictly wider than tall, else 1 */
  function MaxExtent(b: Bounds2f): (axis: nat)
    ensures axis < 2
    ensures axis == 0 <==> Lt(Diagonal(b).y, Diagonal(b).x)
    ensures NoNaN2(Diagonal(b)) ==> Le(Diagonal(b).x, Diagonal(b).Get(axis)) && Le(Diagonal(b).y, Diagonal(b).Get(axis))
  {
    var d := Diagonal(b);
    LeTotal(d.x, d.y);
    if Lt(d.y, d.x) then 0 else 1
  }

  /** One axis of `offset`: the distance from the lower edge, divided by the extent when positive */
  function OffsetAxis(lo: Float, hi: Float, p: Float): Float {
    var o := Sub(p, lo);
    if Lt(lo, hi) then Div(o, Sub(hi, lo)) else o
  }

  lemma OffsetAxisFacts(lo: Float, hi: Float, p: Float)
    ensures lo.Fin? && hi.Fin? && p.Fin? && Le(lo, p) && Le(p, hi) ==>
      var o := OffsetAxis(lo, hi, p); o.Fin? && 0.0 <= o.r <= 1.0
    ensures lo.Fin? && hi.Fin? && p == lo ==> OffsetAxis(lo, hi, p) == Zero
    ensures lo.Fin? && hi.Fin? && Lt(lo, hi) && p == hi ==> OffsetAxis(lo, hi, p) == One
  {
    if lo.Fin? && hi.Fin? && p.Fin? && Lt(lo, hi) && Le(lo, p) && Le(p, hi) {
      var e := hi.r - lo.r;
      assert 0.0 <= (p.r - lo.r) / e <= e / e;
    }
  }

  /** `offset(p)`: 0 at the lower edge and 1 at the upper edge of each axis with positive extent */
  function Offset(b: Bounds2f, p: Point2): (o: Vector2)
    ensures FiniteRect(b) && Finite2(p) && Inside(b, p) ==>
      Finite2(o) && 0.0 <= o.x.r <= 1.0 && 0.0 <= o.y.r <= 1.0
    ensures FiniteRect(b) && Finite2(p) ==>
      (p.x == b.pMin.x ==> o.x == Zero) && (p.y == b.pMin.y ==> o.y == Zero)
    ensures FiniteRect(b) && Finite2(p) ==>
      (Lt(b.pMin.x, b.pMax.x) && p.x == b.pMax.x ==> o.x == One) &&
      (Lt(b.pMin.y, b.pMax.y) && p.y == b.pMax.y ==> o.y == One)
  {
    OffsetAxisFacts(b.pMin.x, b.pMax.x, p.x);
    OffsetAxisFacts(b.pMin.y, b.pMax.y, p.y);
    V2(OffsetAxis(b.pMin.x, b.pMax.x, p.x), OffsetAxis(b.pMin.y, b.pMax.y, p.y))
  }

  /** `self[i]`: index 0 is the lower corner, every other index the upper one */
  function Index(b: Bounds2f, i: nat): (p: Point2)
    ensures i == 0 ==> p == b.pMin
    ensures i != 0 ==> p == b.pMax
  {
    if i == 0 then b.pMin else b.pMax
  }

  predicate Eq(b1: Bounds2f, b2: Bounds2f) {
    PointEq2(b1.pMax, b2.pMax) && PointEq2(b1.pMin, b2.pMin)
  }

  predicate Ne(b1: Bounds2f, b2: Bounds2f) {
    !PointEq2(b1.pMax, b2.pMax) || !PointEq2(b1.pMin, b2.pMin)
  }

  /** `!=` is the negation of `==`; a rectangle holding NaN is not equal to itself */
  lemma NeIsNotEq(b1: Bounds2f, b2: Bounds2f)
    ensures Ne(b1, b2) <==> !Eq(b1, b2)
    ensures Eq(b1, b1) <==> NoNaNRect(b1)
  {
  }

  /** The whole plane has infinite area along both axes, and its longest axis is y */
  lemma WholePlane()
    ensures Diagonal(New()) == V2(PosInf, PosInf)
    ensures Area(New()) == PosInf
    ensures MaxExtent(New()) == 1
  {
    assert Mul(PosInf, PosInf) == PosInf;
  }
}
