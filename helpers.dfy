/**
 * Componentwise helpers over coordinate arrays of any dimension N
 * (src/geometry/helpers.rs); an N-dimensional point is a sequence of N floats.
 */
module Helpers {
  import opened Floats

  /** Each component rounded up; the dimension is kept */
  function CeilN(v: seq<Float>): (r: seq<Float>)
    ensures |r| == |v|
    ensures forall i :: 0 <= i < |v| && v[i].Fin? ==>
      r[i].Fin? && r[i].r.Floor as real == r[i].r && v[i].r <= r[i].r < v[i].r + 1.0
    ensures forall i :: 0 <= i < |v| && !v[i].Fin? ==> r[i] == v[i]
  {
    CeilAll(v);
    seq(|v|, i requires 0 <= i < |v| => Ceil(v[i]))
  }

  /** Each component rounded down; the dimension is kept */
  function FloorN(v: seq<Float>): (r: seq<Float>)
    ensures |r| == |v|
    ensures forall i :: 0 <= i < |v| && v[i].Fin? ==>
      r[i].Fin? && r[i].r.Floor as real == r[i].r && r[i].r <= v[i].r < r[i].r + 1.0
    ensures forall i :: 0 <= i < |v| && !v[i].Fin? ==> r[i] == v[i]
  {
    FloorAll(v);
    seq(|v|, i requires 0 <= i < |v| => Floor(v[i]))
  }

  lemma CeilAll(v: seq<Float>)
    ensures forall i :: 0 <= i < |v| && v[i].Fin? ==> var c := Ceil(v[i]).r;
      c.Floor as real == c && v[i].r <= c < v[i].r + 1.0
  {
    forall i | 0 <= i < |v| && v[i].Fin? { CeilFacts(v[i].r); }
  }

  lemma FloorAll(v: seq<Float>)
    ensures forall i :: 0 <= i < |v| && v[i].Fin? ==> var f := Floor(v[i]).r;
      f.Floor as real == f && f <= v[i].r < f + 1.0
  {
    forall i | 0 <= i < |v| && v[i].Fin? { FloorFacts(v[i].r); }
  }

  /** Componentwise minimum: every component is one of the two inputs' and below both */
  function MinN(a: seq<Float>, b: seq<Float>): (r: seq<Float>)
    requires |a| == |b|
    ensures |r| == |a|
    ensures forall i :: 0 <= i < |a| ==> r[i] == a[i] || r[i] == b[i]
    ensures forall i :: 0 <= i < |a| && !a[i].NaN? && !b[i].NaN? ==> Le(r[i], a[i]) && Le(r[i], b[i])
  {
    seq(|a|, i requires 0 <= i < |a| => Min(a[i], b[i]))
  }

  /** Componentwise maximum: every component is one of the two inputs' and above both */
  function MaxN(a: seq<Float>, b: seq<Float>): (r: seq<Float>)
    requires |a| == |b|
    ensures |r| == |a|
    ensures forall i :: 0 <= i < |a| ==> r[i] == a[i] || r[i] == b[i]
    ensures forall i :: 0 <= i < |a| && !a[i].NaN? && !b[i].NaN? ==> Le(a[i], r[i]) && Le(b[i], r[i])
  {
    seq(|a|, i requires 0 <= i < |a| => Max(a[i], b[i]))
  }

  /** `min(a, b) <= max(a, b)` componentwise, for points without NaN */
  lemma MinBelowMax(a: seq<Float>, b: seq<Float>)
    requires |a| == |b|
    requires forall i :: 0 <= i < |a| ==> !a[i].NaN? && !b[i].NaN?
    ensures forall i :: 0 <= i < |a| ==> Le(MinN(a, b)[i], MaxN(a, b)[i])
  {
    forall i | 0 <= i < |a|
      ensures Le(MinN(a, b)[i], MaxN(a, b)[i])
    {
      LeTrans(MinN(a, b)[i], a[i], MaxN(a, b)[i]);
    }
  }

  /** `min(a, a) == max(a, a) == a`, whatever the components (NaN included) */
  lemma MinMaxSelf(a: seq<Float>)
    ensures MinN(a, a) == a && MaxN(a, a) == a
  {
  }

  /** `min` and `max` do not depend on the order of their arguments */
  lemma MinMaxCommute(a: seq<Float>, b: seq<Float>)
    requires |a| == |b|
    ensures MinN(a, b) == MinN(b, a) && MaxN(a, b) == MaxN(b, a)
  {
    assert forall i :: 0 <= i < |a| ==> MinN(a, b)[i] == MinN(b, a)[i];
    assert forall i :: 0 <= i < |a| ==> MaxN(a, b)[i] == MaxN(b, a)[i];
  }
}
