/**
 * The `Float` (f32) scalar of the renderer.
 *
 * A value is finite (an exact real, no rounding and no range limit), one of the
 * two infinities, or NaN. Arithmetic follows the IEEE rules for the special
 * values; Rust's `f32::min`/`f32::max` ignore a NaN operand; the `as usize`
 * cast truncates towards zero and saturates.
 */
module Floats {
  datatype Float = Fin(r: real) | PosInf | NegInf | NaN

  const Zero: Float := Fin(0.0)
  const One: Float := Fin(1.0)
  const Half: Float := Fin(0.5)
  const UsizeMax: nat := 0xFFFF_FFFF_FFFF_FFFF

  /** The renderer's EPSILON constant (src/common.rs), which its `gamma` uses */
  const Epsilon: real := 0.0001

  /** `gamma(n) = n*EPSILON / (1 - n*EPSILON)` (src/math.rs) */
  function Gamma(n: real): real
    requires n * Epsilon != 1.0
  {
    (n * Epsilon) / (1.0 - n * Epsilon)
  }

  /** The inflation `1 + 2*gamma(3)` applied to the far slab distances of the box test */
  const RobustScale: real := 1.0 + 2.0 * Gamma(3.0)

  lemma RobustScaleAtLeastOne()
    ensures RobustScale >= 1.0
  {
    assert Gamma(3.0) == 0.0003 / 0.9997;
  }

  /** `n as Float` */
  function FromNat(n: nat): Float { Fin(n as real) }

  /** -1, 0 or 1 for a value that is not NaN */
  function Sign(a: Float): int
    requires !a.NaN?
  {
    match a
    case PosInf => 1
    case NegInf => -1
    case Fin(x) => if x > 0.0 then 1 else if x < 0.0 then -1 else 0
  }

  function InfOfSign(s: int): Float
    requires s != 0
  {
    if s > 0 then PosInf else NegInf
  }

  function Neg(a: Float): Float {
    match a
    case Fin(x) => Fin(-x)
    case PosInf => NegInf
    case NegInf => PosInf
    case NaN => NaN
  }

  function Add(a: Float, b: Float): Float {
    if a.NaN? || b.NaN? then NaN
    else if (a.PosInf? && b.NegInf?) || (a.NegInf? && b.PosInf?) then NaN
    else if a.PosInf? || b.PosInf? then PosInf
    else if a.NegInf? || b.NegInf? then NegInf
    else Fin(a.r + b.r)
  }

  function Sub(a: Float, b: Float): Float { Add(a, Neg(b)) }

  function Mul(a: Float, b: Float): Float {
    if a.NaN? || b.NaN? then NaN
    else if a.Fin? && b.Fin? then Fin(a.r * b.r)
    else if Sign(a) * Sign(b) == 0 then NaN
    else InfOfSign(Sign(a) * Sign(b))
  }

  /** Division; a zero divisor is taken as +0 (signed zeros are not modelled). */
  function Div(a: Float, b: Float): Float {
    if a.NaN? || b.NaN? then NaN
    else if !a.Fin? && !b.Fin? then NaN
    else if !b.Fin? then Zero
    else if b.r == 0.0 then (if Sign(a) == 0 then NaN else InfOfSign(Sign(a)))
    else if !a.Fin? then InfOfSign(Sign(a) * Sign(b))
    else Fin(a.r / b.r)
  }

  /** IEEE `<`: false whenever NaN is involved */
  predicate Lt(a: Float, b: Float) {
    match (a, b)
    case (Fin(x), Fin(y)) => x < y
    case (NegInf, Fin(_)) => true
    case (NegInf, PosInf) => true
    case (Fin(_), PosInf) => true
    case _ => false
  }

  /** IEEE `==`: NaN equals nothing, not even itself */
  predicate FEq(a: Float, b: Float) { !a.NaN? && a == b }

  predicate Le(a: Float, b: Float) { Lt(a, b) || FEq(a, b) }

  /** Rust's `f32::min`: a NaN operand is ignored */
  function Min(a: Float, b: Float): Float {
    if a.NaN? then b else if b.NaN? then a else if Lt(b, a) then b else a
  }

  /** Rust's `f32::max`: a NaN operand is ignored */
  function Max(a: Float, b: Float): Float {
    if a.NaN? then b else if b.NaN? then a else if Lt(a, b) then b else a
  }

  function Floor(a: Float): Float {
    if a.Fin? then Fin(a.r.Floor as real) else a
  }

  function Ceil(a: Float): Float {
    if a.Fin? then Fin(-((-a.r).Floor as real)) else a
  }

  /** `a as usize`: NaN and negatives give 0, too large values give usize::MAX */
  function ToUsize(a: Float): nat {
    match a
    case NaN => 0
    case NegInf => 0
    case PosInf => UsizeMax
    case Fin(x) =>
      if x < 1.0 then 0
      else if x >= UsizeMax as real then UsizeMax
      else x.Floor
  }

  /** A finite value rounded down is an integer at most 1 below it */
  lemma FloorFacts(x: real)
    ensures (x.Floor as real).Floor as real == x.Floor as real
    ensures x.Floor as real <= x < x.Floor as real + 1.0
  {
  }

  /** A finite value rounded up is an integer at most 1 above it */
  lemma CeilFacts(x: real)
    ensures var c := -((-x).Floor as real); c.Floor as real == c && x <= c < x + 1.0
  {
    FloorFacts(-x);
    var f := (-x).Floor;
    assert (-(f as real)).Floor == -f;
  }

  lemma LeTrans(a: Float, b: Float, c: Float)
    requires Le(a, b) && Le(b, c)
    ensures Le(a, c)
  {
  }

  lemma LtLeTrans(a: Float, b: Float, c: Float)
    requires Lt(a, b) && Le(b, c)
    ensures Lt(a, c)
  {
  }

  lemma LeLtTrans(a: Float, b: Float, c: Float)
    requires Le(a, b) && Lt(b, c)
    ensures Lt(a, c)
  {
  }

  /** On values that are not NaN, `<=` is total */
  lemma LeTotal(a: Float, b: Float)
    ensures !a.NaN? && !b.NaN? ==> Le(a, b) || Le(b, a)
    ensures !a.NaN? && !b.NaN? ==> (Le(a, b) <==> !Lt(b, a))
  {
  }

  /** Min and max bracket each of two numbers */
  lemma MinMaxBracket(a: Float, b: Float)
    requires !a.NaN? && !b.NaN?
    ensures Le(Min(a, b), a) && Le(Min(a, b), b)
    ensures Le(a, Max(a, b)) && Le(b, Max(a, b))
    ensures Min(a, b) == a || Min(a, b) == b
    ensures Max(a, b) == a || Max(a, b) == b
  {
  }

  lemma MulNeg(a: Float, b: Float)
    ensures Mul(Neg(a), b) == Neg(Mul(a, b))
  {
    if a.Fin? && b.Fin? {
      assert (-a.r) * b.r == -(a.r * b.r);
    } else if !a.NaN? && !b.NaN? {
      assert Sign(Neg(a)) == -Sign(a);
      assert Sign(Neg(a)) * Sign(b) == -(Sign(a) * Sign(b));
    }
  }

  lemma AddNeg(a: Float, b: Float)
    ensures Add(Neg(a), Neg(b)) == Neg(Add(a, b))
  {
  }
}
