/** Two- and three-component points and vectors (nalgebra's Point2/3, Vector2/3). */
module Vectors {
  import opened Floats

  datatype V3 = V3(x: Float, y: Float, z: Float)
  {
    /** `v[i]`; nalgebra panics for an index of 3 or more, and every caller passes an axis */
    function Get(i: nat): Float
      requires i < 3
    {
      if i == 0 then x else if i == 1 then y else z
    }
  }

  type Point3 = V3
  type Vector3 = V3

  datatype V2 = V2(x: Float, y: Float)
  {
    function Get(i: nat): Float
      requires i < 2
    {
      if i == 0 then x else y
    }
  }

  type Point2 = V2
  type Vector2 = V2

  const Origin3: V3 := V3(Zero, Zero, Zero)
  const Origin2: V2 := V2(Zero, Zero)

  predicate NoNaN3(v: V3) { !v.x.NaN? && !v.y.NaN? && !v.z.NaN? }
  predicate Finite3(v: V3) { v.x.Fin? && v.y.Fin? && v.z.Fin? }
  predicate NoNaN2(v: V2) { !v.x.NaN? && !v.y.NaN? }
  predicate Finite2(v: V2) { v.x.Fin? && v.y.Fin? }

  function Add3(a: V3, b: V3): V3 { V3(Add(a.x, b.x), Add(a.y, b.y), Add(a.z, b.z)) }
  function Sub3(a: V3, b: V3): V3 { V3(Sub(a.x, b.x), Sub(a.y, b.y), Sub(a.z, b.z)) }
  function Neg3(a: V3): V3 { V3(Neg(a.x), Neg(a.y), Neg(a.z)) }
  function Scale3(a: V3, s: Float): V3 { V3(Mul(a.x, s), Mul(a.y, s), Mul(a.z, s)) }
  function Dot3(a: V3, b: V3): Float { Add(Add(Mul(a.x, b.x), Mul(a.y, b.y)), Mul(a.z, b.z)) }

  function Add2(a: V2, b: V2): V2 { V2(Add(a.x, b.x), Add(a.y, b.y)) }
  function Sub2(a: V2, b: V2): V2 { V2(Sub(a.x, b.x), Sub(a.y, b.y)) }

  /** IEEE equality of points (`==` on nalgebra points compares every component) */
  predicate PointEq3(a: V3, b: V3) { FEq(a.x, b.x) && FEq(a.y, b.y) && FEq(a.z, b.z) }
  predicate PointEq2(a: V2, b: V2) { FEq(a.x, b.x) && FEq(a.y, b.y) }

  /** nalgebra's `center(p, q)`: the midpoint `(p + q) * 0.5` */
  function Center3(a: V3, b: V3): V3 { Scale3(Add3(a, b), Half) }
}
