/**
 * The pieces of `recursively_build` (src/shape/bounding_volume_heirarchy.rs) that
 * choose where to split a run of primitive records: the bounds of the run, the
 * surface-area-heuristic buckets and costs, the median selection for small runs
 * and the in-place two-index partition for large ones.
 */
module BvhSplit {
  import opened Options
  import opened Floats
  import opened Vectors
  import opened Bounds3
  import opened BvhNodes

  /** `b` is `a` with only the entries in [lo, hi) rearranged among themselves */
  ghost predicate PermutedIn(a: seq<PrimInfo>, b: seq<PrimInfo>, lo: nat, hi: nat) {
    |a| == |b| && lo <= hi <= |a| &&
    a[..lo] == b[..lo] && a[hi..] == b[hi..] && multiset(a[lo..hi]) == multiset(b[lo..hi])
  }

  lemma PermutedRefl(a: seq<PrimInfo>, lo: nat, hi: nat)
    requires lo <= hi <= |a|
    ensures PermutedIn(a, a, lo, hi)
  {
  }

  lemma PermutedTrans(a: seq<PrimInfo>, b: seq<PrimInfo>, c: seq<PrimInfo>, lo: nat, hi: nat)
    requires PermutedIn(a, b, lo, hi) && PermutedIn(b, c, lo, hi)
    ensures PermutedIn(a, c, lo, hi)
  {
  }

  /** Exchanging two entries of the range rearranges the range */
  lemma PermutedSwap(a: seq<PrimInfo>, i: nat, j: nat, lo: nat, hi: nat)
    requires lo <= i < hi && lo <= j < hi && hi <= |a|
    ensures PermutedIn(a, a[i := a[j]][j := a[i]], lo, hi)
  {
    var b := a[i := a[j]][j := a[i]];
    assert b[lo..hi] == a[lo..hi][i - lo := a[j]][j - lo := a[i]];
    assert a[..lo] == b[..lo];
    assert a[hi..] == b[hi..];
  }

  /** Rearranging a sub-range rearranges every range around it */
  lemma PermutedWiden(a: seq<PrimInfo>, b: seq<PrimInfo>, lo: nat, lo': nat, hi': nat, hi: nat)
    requires lo <= lo' && hi' <= hi <= |a| && PermutedIn(a, b, lo', hi')
    ensures PermutedIn(a, b, lo, hi)
  {
    assert a[lo..hi] == a[lo..lo'] + a[lo'..hi'] + a[hi'..hi];
    assert b[lo..hi] == b[lo..lo'] + b[lo'..hi'] + b[hi'..hi];
    assert a[lo..lo'] == a[..lo'][lo..] && b[lo..lo'] == b[..lo'][lo..];
    assert a[hi'..hi] == a[hi'..][..hi - hi'] && b[hi'..hi] == b[hi'..][..hi - hi'];
    assert a[..lo] == a[..lo'][..lo] && b[..lo] == b[..lo'][..lo];
    assert a[hi..] == a[hi'..][hi - hi'..] && b[hi..] == b[hi'..][hi - hi'..];
  }

  /** A property of every record of a range survives its rearrangement */
  lemma PermutedKeepsGood(a: seq<PrimInfo>, b: seq<PrimInfo>, lo: nat, hi: nat, n: nat)
    requires PermutedIn(a, b, lo, hi) && AllGood(a[lo..hi], n)
    ensures AllGood(b[lo..hi], n)
  {
    forall x | x in b[lo..hi] ensures GoodInfo(x, n) {
      assert x in multiset(b[lo..hi]);
    }
  }

  /** The bound of the whole run (the loop at lines 152-156) */
  method RangeBounds(infos: array<PrimInfo>, start: nat, end: nat) returns (b: Bounds3f)
    requires start <= end <= infos.Length
    ensures b == InfoBounds(infos[start..end])
  {
    b := New();
    for i := start to end
      invariant b == InfoBounds(infos[start..i])
    {
      assert infos[start..i + 1][..i - start] == infos[start..i];
      b := Union(b, infos[i].bounds);
    }
  }

  /** The bound of the run's centroids (the loop at lines 169-172) */
  method RangeCentroidBounds(infos: array<PrimInfo>, start: nat, end: nat) returns (b: Bounds3f)
    requires start <= end <= infos.Length
    ensures b == CentroidBounds(infos[start..end])
  {
    b := New();
    for i := start to end
      invariant b == CentroidBounds(infos[start..i])
    {
      assert infos[start..i + 1][..i - start] == infos[start..i];
      b := UnionPt(b, infos[i].centroid);
    }
  }

  lemma UnionPtGet(b: Bounds3f, p: Point3, dim: nat)
    requires dim < 3
    ensures UnionPt(b, p).pMin.Get(dim) == Min(b.pMin.Get(dim), p.Get(dim))
    ensures UnionPt(b, p).pMax.Get(dim) == Max(b.pMax.Get(dim), p.Get(dim))
  {
  }

  /** Growing a finite, non-empty box by a finite point keeps it finite and non-empty */
  lemma UnionPtFinite(b: Bounds3f, p: Point3)
    requires FiniteBox(b) && NonEmpty(b) && Finite3(p)
    ensures FiniteBox(UnionPt(b, p)) && NonEmpty(UnionPt(b, p))
  {
    var r := UnionPt(b, p);
    MinMaxBracket3(b.pMin, p);
    MinMaxBracket3(b.pMax, p);
    LeTrans(r.pMin.x, b.pMin.x, b.pMax.x);
    LeTrans(r.pMin.y, b.pMin.y, b.pMax.y);
    LeTrans(r.pMin.z, b.pMin.z, b.pMax.z);
    LeTrans(r.pMin.x, b.pMax.x, r.pMax.x);
    LeTrans(r.pMin.y, b.pMax.y, r.pMax.y);
    LeTrans(r.pMin.z, b.pMax.z, r.pMax.z);
  }

  /** The centroid bound of a non-empty run of finite centroids is a finite box holding every centroid */
  lemma {:induction false} CentroidBoxFacts(s: seq<PrimInfo>, n: nat)
    requires |s| > 0 && AllGood(s, n)
    ensures FiniteBox(CentroidBounds(s)) && NonEmpty(CentroidBounds(s))
    ensures forall x :: x in s ==> Inside(CentroidBounds(s), x.centroid)
  {
    var init, c := s[..|s| - 1], s[|s| - 1].centroid;
    assert s[|s| - 1] in s;
    var cb := CentroidBounds(s);
    assert GoodInfo(s[|s| - 1], n);
    assert cb == UnionPt(CentroidBounds(init), c);
    if init == [] {
      assert cb == Bounds3f(c, c);
      assert forall x :: x in s ==> x == s[0];
    } else {
      assert forall x :: x in init ==> x in s;
      CentroidBoxFacts(init, n);
      var ib := CentroidBounds(init);
      UnionPtFinite(ib, c);
      forall x | x in s ensures Inside(cb, x.centroid) {
        if x in init {
          InsideEnclosed(cb, ib, x.centroid);
        } else {
          assert x == s[|s| - 1];
        }
      }
    }
  }

  /** Along each axis the faces of a run's centroid bound are attained by centroids of the run */
  lemma CentroidFaceWitness(s: seq<PrimInfo>, n: nat, dim: nat)
    requires |s| > 0 && AllGood(s, n) && dim < 3
    ensures exists i :: 0 <= i < |s| && s[i].centroid.Get(dim) == CentroidBounds(s).pMin.Get(dim)
    ensures exists i :: 0 <= i < |s| && s[i].centroid.Get(dim) == CentroidBounds(s).pMax.Get(dim)
  {
    var i0 := CentroidLowWitness(s, n, dim);
    var i1 := CentroidHighWitness(s, n, dim);
  }

  lemma {:induction false} CentroidLowWitness(s: seq<PrimInfo>, n: nat, dim: nat) returns (i: nat)
    requires |s| > 0 && AllGood(s, n) && dim < 3
    ensures i < |s| && s[i].centroid.Get(dim) == CentroidBounds(s).pMin.Get(dim)
  {
    var init, c := s[..|s| - 1], s[|s| - 1].centroid;
    assert s[|s| - 1] in s && GoodInfo(s[|s| - 1], n);
    var cb := CentroidBounds(s);
    assert cb == UnionPt(CentroidBounds(init), c);
    UnionPtGet(CentroidBounds(init), c, dim);
    if init == [] {
      i := 0;
    } else {
      assert forall x :: x in init ==> x in s;
      var i0 := CentroidLowWitness(init, n, dim);
      assert init[i0] == s[i0];
      i := if cb.pMin.Get(dim) == c.Get(dim) then |s| - 1 else i0;
    }
  }

  lemma {:induction false} CentroidHighWitness(s: seq<PrimInfo>, n: nat, dim: nat) returns (i: nat)
    requires |s| > 0 && AllGood(s, n) && dim < 3
    ensures i < |s| && s[i].centroid.Get(dim) == CentroidBounds(s).pMax.Get(dim)
  {
    var init, c := s[..|s| - 1], s[|s| - 1].centroid;
    assert s[|s| - 1] in s && GoodInfo(s[|s| - 1], n);
    var cb := CentroidBounds(s);
    assert cb == UnionPt(CentroidBounds(init), c);
    UnionPtGet(CentroidBounds(init), c, dim);
    if init == [] {
      i := 0;
    } else {
      assert forall x :: x in init ==> x in s;
      var i1 := CentroidHighWitness(init, n, dim);
      assert init[i1] == s[i1];
      i := if cb.pMax.Get(dim) == c.Get(dim) then |s| - 1 else i1;
    }
  }

  /** `offset(p)[dim]` for a point of a finite box: in [0, 1], 0 on the lower face, 1 on the upper */
  lemma OffsetGet(b: Bounds3f, p: Point3, dim: nat)
    requires dim < 3 && FiniteBox(b) && Finite3(p)
    ensures Inside(b, p) ==> Offset(b, p).Get(dim).Fin? && 0.0 <= Offset(b, p).Get(dim).r <= 1.0
    ensures p.Get(dim) == b.pMin.Get(dim) ==> Offset(b, p).Get(dim) == Zero
    ensures Lt(b.pMin.Get(dim), b.pMax.Get(dim)) && p.Get(dim) == b.pMax.Get(dim) ==> Offset(b, p).Get(dim) == One
  {
  }

  /** One of the surface-area-heuristic buckets: how many records fell in it and the box around them */
  datatype Bucket = Bucket(count: nat, bounds: Bounds3f)

  const NBuckets: nat := 12

  function EmptyBuckets(): (bs: seq<Bucket>)
    ensures |bs| == NBuckets && forall b :: 0 <= b < NBuckets ==> bs[b] == Bucket(0, New())
  {
    seq(NBuckets, _ => Bucket(0, New()))
  }

  /**
   * The bucket a record is counted in (line 212). The cast to an integer binds
   * tighter than the product, so the offset is truncated first and then scaled:
   * the bucket is 12 times 0 or 1, and 12 is then moved down to 11.
   */
  function BucketAsWritten(cb: Bounds3f, c: Point3, dim: nat): nat
    requires dim < 3
  {
    var b := NBuckets * ToUsize(Offset(cb, c).Get(dim));
    if b == NBuckets then NBuckets - 1 else b
  }

  /** The bucket the partition sends a record to (line 258): the scaled offset, truncated */
  function PartitionBucket(cb: Bounds3f, c: Point3, dim: nat): nat
    requires dim < 3
  {
    var b := ToUsize(Mul(FromNat(NBuckets), Offset(cb, c).Get(dim)));
    if b == NBuckets then NBuckets - 1 else b
  }

  /** A centroid inside a finite centroid bound only ever lands in the first or the last bucket */
  lemma BucketAsWrittenEnds(cb: Bounds3f, c: Point3, dim: nat)
    requires dim < 3 && FiniteBox(cb) && Finite3(c) && Inside(cb, c)
    ensures BucketAsWritten(cb, c, dim) == 0 || BucketAsWritten(cb, c, dim) == NBuckets - 1
  {
    OffsetGet(cb, c, dim);
  }

  /** The centroid on the lower face goes left of every split, the one on the upper face right of every split */
  lemma PartitionBucketFaces(cb: Bounds3f, c: Point3, dim: nat)
    requires dim < 3 && FiniteBox(cb) && Finite3(c)
    ensures c.Get(dim) == cb.pMin.Get(dim) ==> PartitionBucket(cb, c, dim) == 0
    ensures Lt(cb.pMin.Get(dim), cb.pMax.Get(dim)) && c.Get(dim) == cb.pMax.Get(dim) ==>
      PartitionBucket(cb, c, dim) == NBuckets - 1
  {
    OffsetGet(cb, c, dim);
    assert Mul(FromNat(NBuckets), Zero) == Zero;
    assert Mul(FromNat(NBuckets), One) == Fin(12.0);
    assert (12.0).Floor == 12;
  }

  predicate BucketsInRange(s: seq<PrimInfo>, cb: Bounds3f, dim: nat)
    requires dim < 3
  {
    forall x :: x in s ==> BucketAsWritten(cb, x.centroid, dim) < NBuckets
  }

  /** The buckets after counting a run of records in order (lines 207-218) */
  function BucketsOf(s: seq<PrimInfo>, cb: Bounds3f, dim: nat): (bs: seq<Bucket>)
    requires dim < 3 && BucketsInRange(s, cb, dim)
    ensures |bs| == NBuckets
  {
    if s == [] then EmptyBuckets()
    else
      var bs := BucketsOf(s[..|s| - 1], cb, dim);
      var x := s[|s| - 1];
      var b := BucketAsWritten(cb, x.centroid, dim);
      bs[b := Bucket(bs[b].count + 1, Union(bs[b].bounds, x.bounds))]
  }

  /** As written, buckets 1 to 10 are never counted into: they stay empty */
  lemma {:induction false} MiddleBucketsStayEmpty(s: seq<PrimInfo>, cb: Bounds3f, dim: nat)
    requires dim < 3 && FiniteBox(cb)
    requires forall x :: x in s ==> Finite3(x.centroid) && Inside(cb, x.centroid)
    ensures BucketsInRange(s, cb, dim)
    ensures forall b :: 0 < b < NBuckets - 1 ==> BucketsOf(s, cb, dim)[b] == Bucket(0, New())
  {
    forall x | x in s ensures BucketAsWritten(cb, x.centroid, dim) < NBuckets {
      BucketAsWrittenEnds(cb, x.centroid, dim);
    }
    if s != [] {
      assert forall x :: x in s[..|s| - 1] ==> x in s;
      MiddleBucketsStayEmpty(s[..|s| - 1], cb, dim);
      assert s[|s| - 1] in s;
      BucketAsWrittenEnds(cb, s[|s| - 1].centroid, dim);
    }
  }

  /** Counting the run's records into the buckets, one at a time */
  method CountBuckets(infos: array<PrimInfo>, start: nat, end: nat, cb: Bounds3f, dim: nat)
    returns (buckets: seq<Bucket>)
    requires start <= end <= infos.Length && dim < 3
    requires BucketsInRange(infos[start..end], cb, dim)
    ensures buckets == BucketsOf(infos[start..end], cb, dim)
  {
    buckets := EmptyBuckets();
    for i := start to end
      invariant BucketsInRange(infos[start..i], cb, dim)
      invariant buckets == BucketsOf(infos[start..i], cb, dim)
    {
      assert infos[start..i + 1][..i - start] == infos[start..i];
      assert infos[i] in infos[start..end];
      var b := BucketAsWritten(cb, infos[i].centroid, dim);
      buckets := buckets[b := Bucket(buckets[b].count + 1, Union(buckets[b].bounds, infos[i].bounds))];
    }
  }

  /** The box around a run of buckets, folded from the empty box in order */
  function BucketsUnion(bs: seq<Bucket>): Bounds3f {
    if bs == [] then New() else Union(BucketsUnion(bs[..|bs| - 1]), bs[|bs| - 1].bounds)
  }

  function BucketsCount(bs: seq<Bucket>): nat {
    if bs == [] then 0 else BucketsCount(bs[..|bs| - 1]) + bs[|bs| - 1].count
  }

  /**
   * The estimated cost of splitting after bucket `i` (line 238): a traversal step
   * of 1/8 plus each side's count times its surface area, relative to the surface
   * area of the whole run.
   */
  function Cost(bs: seq<Bucket>, i: nat, total: Bounds3f): Float
    requires |bs| == NBuckets && i < NBuckets - 1
  {
    var below, above := bs[..i + 1], bs[i + 1..];
    Add(Fin(0.125),
        Div(Add(Mul(FromNat(BucketsCount(below)), SurfaceArea(BucketsUnion(below))),
                Mul(FromNat(BucketsCount(above)), SurfaceArea(BucketsUnion(above)))),
            SurfaceArea(total)))
  }

  /** The costs of the eleven possible splits (lines 221-239) */
  method ComputeCosts(buckets: seq<Bucket>, total: Bounds3f) returns (cost: seq<Float>)
    requires |buckets| == NBuckets
    ensures |cost| == NBuckets - 1
    ensures forall i :: 0 <= i < NBuckets - 1 ==> cost[i] == Cost(buckets, i, total)
  {
    cost := seq(NBuckets - 1, _ => Zero);
    for i := 0 to NBuckets - 1
      invariant |cost| == NBuckets - 1
      invariant forall k :: 0 <= k < i ==> cost[k] == Cost(buckets, k, total)
    {
      var b0, count0 := FoldBuckets(buckets, 0, i + 1);
      var b1, count1 := FoldBuckets(buckets, i + 1, NBuckets);
      assert buckets[0..i + 1] == buckets[..i + 1] && buckets[i + 1..NBuckets] == buckets[i + 1..];
      cost := cost[i := Add(Fin(0.125),
        Div(Add(Mul(FromNat(count0), SurfaceArea(b0)), Mul(FromNat(count1), SurfaceArea(b1))), SurfaceArea(total)))];
    }
  }

  /** One of the two inner loops of the cost computation: the box and count of buckets `[from, to)` */
  method FoldBuckets(buckets: seq<Bucket>, from: nat, to: nat) returns (b: Bounds3f, count: nat)
    requires from <= to <= |buckets|
    ensures b == BucketsUnion(buckets[from..to]) && count == BucketsCount(buckets[from..to])
  {
    b, count := New(), 0;
    for j := from to to
      invariant b == BucketsUnion(buckets[from..j]) && count == BucketsCount(buckets[from..j])
    {
      assert buckets[from..j + 1][..j - from] == buckets[from..j];
      b := Union(b, buckets[j].bounds);
      count := count + buckets[j].count;
    }
  }

  /** The index the scan for the cheapest split keeps after looking at the first `k` costs */
  function ScanMin(cost: seq<Float>, k: nat): (m: nat)
    requires 1 <= k <= |cost|
    ensures m < k
  {
    if k == 1 then 0
    else
      var m := ScanMin(cost, k - 1);
      if Lt(cost[k - 1], cost[m]) then k - 1 else m
  }

  /**
   * The scan keeps a cost that no other cost is strictly below, and every cost
   * before it is neither below nor equal to it: the first minimum, where a NaN
   * in front is never replaced.
   */
  lemma {:induction false} ScanMinIsFirstMinimum(cost: seq<Float>, k: nat)
    requires 1 <= k <= |cost|
    ensures forall j :: 0 <= j < k ==> !Lt(cost[j], cost[ScanMin(cost, k)])
    ensures forall j :: 0 <= j < ScanMin(cost, k) ==> !Le(cost[j], cost[ScanMin(cost, k)])
  {
    if k > 1 {
      ScanMinIsFirstMinimum(cost, k - 1);
      var m := ScanMin(cost, k - 1);
      if Lt(cost[k - 1], cost[m]) {
        forall j | 0 <= j < k - 1 ensures !Lt(cost[j], cost[k - 1]) && !Le(cost[j], cost[k - 1]) {
          if Le(cost[j], cost[k - 1]) {
            LeLtTrans(cost[j], cost[k - 1], cost[m]);
          }
        }
      }
    }
  }

  /** The cheapest split (lines 242-249): the first strict minimum of the costs */
  method MinCostBucket(cost: seq<Float>) returns (minCost: Float, minCostBucket: nat)
    requires |cost| == NBuckets - 1
    ensures minCostBucket == ScanMin(cost, NBuckets - 1) && minCost == cost[minCostBucket]
  {
    minCost := cost[0];
    minCostBucket := 0;
    for i := 1 to NBuckets - 1
      invariant minCostBucket == ScanMin(cost, i) && minCost == cost[minCostBucket]
    {
      if Lt(cost[i], minCost) {
        minCost := cost[i];
        minCostBucket := i;
      }
    }
  }

  /** The sort key of the median split: the centroid's coordinate along the split axis */
  function Key(x: PrimInfo, dim: nat): Float
    requires dim < 3
  {
    x.centroid.Get(dim)
  }

  predicate FiniteKeys(a: seq<PrimInfo>, lo: nat, hi: nat)
    requires lo <= hi <= |a|
  {
    forall i :: lo <= i < hi ==> Finite3(a[i].centroid)
  }

  /** `slice.swap(i, j)`: exchange two entries of the range [lo, hi) */
  method Swap(infos: array<PrimInfo>, i: nat, j: nat, ghost lo: nat, ghost hi: nat)
    requires lo <= i < hi && lo <= j < hi && hi <= infos.Length
    modifies infos
    ensures infos[..] == old(infos[..])[i := old(infos[j])][j := old(infos[i])]
    ensures infos[i] == old(infos[j]) && infos[j] == old(infos[i])
    ensures forall k :: 0 <= k < infos.Length && k != i && k != j ==> infos[k] == old(infos[k])
    ensures PermutedIn(old(infos[..]), infos[..], lo, hi)
  {
    infos[i], infos[j] := infos[j], infos[i];
    PermutedSwap(old(infos[..]), i, j, lo, hi);
  }

  /** The first entry of [from, end) with the smallest key */
  method ArgMinKey(infos: array<PrimInfo>, from: nat, end: nat, dim: nat) returns (m: nat)
    requires from < end <= infos.Length && dim < 3
    requires FiniteKeys(infos[..], from, end)
    ensures from <= m < end
    ensures forall r :: from <= r < end ==> Le(Key(infos[m], dim), Key(infos[r], dim))
  {
    m := from;
    for q := from + 1 to end
      invariant from <= m < q
      invariant forall r :: from <= r < q ==> Le(Key(infos[m], dim), Key(infos[r], dim))
    {
      assert infos[..][q] == infos[q] && infos[..][m] == infos[m];
      LeTotal(Key(infos[q], dim), Key(infos[m], dim));
      if Lt(Key(infos[q], dim), Key(infos[m], dim)) {
        forall r | from <= r < q ensures Le(Key(infos[q], dim), Key(infos[r], dim)) {
          LeTrans(Key(infos[q], dim), Key(infos[m], dim), Key(infos[r], dim));
        }
        m := q;
      }
    }
  }

  /**
   * `select_nth_unstable_by` on [start, end) (line 194): some rearrangement of the
   * range that puts at `k` an entry no smaller than any before it and no larger
   * than any after it, by centroid along `dim`.
   */
  method SelectNth(infos: array<PrimInfo>, start: nat, end: nat, k: nat, dim: nat)
    requires start <= k < end <= infos.Length && dim < 3
    requires FiniteKeys(infos[..], start, end)
    modifies infos
    ensures PermutedIn(old(infos[..]), infos[..], start, end)
    ensures forall i :: start <= i < k ==> Le(Key(infos[i], dim), Key(infos[k], dim))
    ensures forall j :: k < j < end ==> Le(Key(infos[k], dim), Key(infos[j], dim))
  {
    PermutedRefl(infos[..], start, end);
    for p := start to k + 1
      invariant PermutedIn(old(infos[..]), infos[..], start, end)
      invariant FiniteKeys(infos[..], start, end)
      invariant forall i, j :: start <= i < p <= j < end ==> Le(Key(infos[i], dim), Key(infos[j], dim))
      invariant forall i, j :: start <= i < j < p ==> Le(Key(infos[i], dim), Key(infos[j], dim))
    {
      ghost var before := infos[..];
      PlaceMin(infos, start, end, p, dim);
      PermutedTrans(old(infos[..]), before, infos[..], start, end);
    }
  }

  /** One round of the selection: the smallest key of [p, end) is swapped into position `p` */
  method PlaceMin(infos: array<PrimInfo>, start: nat, end: nat, p: nat, dim: nat)
    requires start <= p < end <= infos.Length && dim < 3
    requires FiniteKeys(infos[..], start, end)
    requires forall i, j :: start <= i < p <= j < end ==> Le(Key(infos[i], dim), Key(infos[j], dim))
    requires forall i, j :: start <= i < j < p ==> Le(Key(infos[i], dim), Key(infos[j], dim))
    modifies infos
    ensures PermutedIn(old(infos[..]), infos[..], start, end)
    ensures FiniteKeys(infos[..], start, end)
    ensures forall i, j :: start <= i < p + 1 <= j < end ==> Le(Key(infos[i], dim), Key(infos[j], dim))
    ensures forall i, j :: start <= i < j < p + 1 ==> Le(Key(infos[i], dim), Key(infos[j], dim))
  {
    var m := ArgMinKey(infos, p, end, dim);
    Swap(infos, p, m, start, end);
  }

  /**
   * The two-index partition of lines 254-270: entries for which `goesLeft` holds
   * (a partition bucket at most the cheapest split's) end up before `mid`, the others
   * from `mid` on. An entry of each kind in the range (the ghost indices `lo` and
   * `hi`) keeps `right` from dropping below `start`, so it never wraps around, and
   * makes both sides non-empty.
   */
  method Partition(infos: array<PrimInfo>, start: nat, end: nat, goesLeft: PrimInfo -> bool,
                   ghost lo: nat, ghost hi: nat)
    returns (mid: nat)
    requires start < end <= infos.Length
    requires start <= lo < end && goesLeft(infos[lo])
    requires start <= hi < end && !goesLeft(infos[hi])
    modifies infos
    ensures start < mid < end
    ensures PermutedIn(old(infos[..]), infos[..], start, end)
    ensures forall i :: start <= i < mid ==> goesLeft(infos[i])
    ensures forall i :: mid <= i < end ==> !goesLeft(infos[i])
  {
    PermutedRefl(infos[..], start, end);
    var left: nat := start;
    var right: nat := end - 1;
    ghost var low, high := lo, hi;
    while left <= right
      invariant start <= left <= right + 1 <= end
      invariant PermutedIn(old(infos[..]), infos[..], start, end)
      invariant forall i :: start <= i < left ==> goesLeft(infos[i])
      invariant forall i :: right < i < end ==> !goesLeft(infos[i])
      invariant start <= low <= right && goesLeft(infos[low])
      invariant left <= high < end && !goesLeft(infos[high])
      decreases right + 1 - left
    {
      if goesLeft(infos[left]) {
        left := left + 1;
      } else {
        ghost var before := infos[..];
        Swap(infos, left, right, start, end);
        PermutedTrans(old(infos[..]), before, infos[..], start, end);
        if low == right { low := left; }
        if high == right { high := left; } else if high == left { high := right; }
        right := right - 1;
      }
    }
    mid := left;
  }

  /** `Le` along one axis of a non-empty box */
  lemma NonEmptyGet(b: Bounds3f, dim: nat)
    requires NonEmpty(b) && dim < 3
    ensures Le(b.pMin.Get(dim), b.pMax.Get(dim))
  {
  }

  /** The records of a range, when all good, have finite keys */
  lemma AllGoodFiniteKeys(a: seq<PrimInfo>, lo: nat, hi: nat, n: nat)
    requires lo <= hi <= |a| && AllGood(a[lo..hi], n)
    ensures FiniteKeys(a, lo, hi)
  {
    forall i | lo <= i < hi ensures Finite3(a[i].centroid) {
      assert a[i] == a[lo..hi][i - lo];
      assert a[i] in a[lo..hi];
    }
  }

  /** The split costs of a run of records, in the order the build computes them */
  function Costs(s: seq<PrimInfo>, n: nat): (cost: seq<Float>)
    requires |s| > 0 && AllGood(s, n)
    ensures |cost| == NBuckets - 1
  {
    CentroidBoxFacts(s, n);
    var cb := CentroidBounds(s);
    var dim := MaxExtent(cb);
    MiddleBucketsStayEmpty(s, cb, dim);
    var bs := BucketsOf(s, cb, dim);
    seq(NBuckets - 1, i requires 0 <= i < NBuckets - 1 => Cost(bs, i, InfoBounds(s)))
  }

  /** The bucket the heuristic splits after: the first cheapest one */
  function MinCostBucketOf(s: seq<PrimInfo>, n: nat): nat
    requires |s| > 0 && AllGood(s, n)
  {
    ScanMin(Costs(s, n), NBuckets - 1)
  }

  /**
   * Whether `recursively_build` makes a leaf of the run `s` (lines 159, 177 and
   * 253): a single record; centroids that all share the coordinate along the
   * widest axis; or, for more than four records, at most `maxPrims` of them and
   * no split cheaper than the leaf's cost of one per record.
   */
  predicate MakesLeaf(s: seq<PrimInfo>, n: nat, maxPrims: nat)
    requires |s| > 0 && AllGood(s, n)
  {
    var cb := CentroidBounds(s);
    var dim := MaxExtent(cb);
    |s| == 1 || FEq(cb.pMax.Get(dim), cb.pMin.Get(dim)) ||
    (|s| > 4 && !(|s| > maxPrims || Lt(Costs(s, n)[MinCostBucketOf(s, n)], FromNat(|s|))))
  }

  /** Runs of at most four records are split at the median along `dim` (lines 191-196) */
  method MedianSplit(infos: array<PrimInfo>, start: nat, end: nat, dim: nat, ghost n: nat) returns (mid: nat)
    requires start + 1 < end <= infos.Length && dim < 3 && AllGood(infos[start..end], n)
    modifies infos
    ensures mid == (start + end) / 2 && start < mid < end
    ensures PermutedIn(old(infos[..]), infos[..], start, end)
    ensures forall i, j :: start <= i < mid <= j < end ==> Le(Key(infos[i], dim), Key(infos[j], dim))
  {
    mid := (start + end) / 2;
    AllGoodFiniteKeys(infos[..], start, end, n);
    SelectNth(infos, start, end, mid, dim);
    forall i, j | start <= i < mid <= j < end ensures Le(Key(infos[i], dim), Key(infos[j], dim)) {
      if j > mid {
        LeTrans(Key(infos[i], dim), Key(infos[mid], dim), Key(infos[j], dim));
      }
    }
  }

  /** The costs of a run's splits as the build computes them */
  lemma CostsAre(s: seq<PrimInfo>, n: nat, cost: seq<Float>)
    requires |s| > 0 && AllGood(s, n)
    requires var cb := CentroidBounds(s); var dim := MaxExtent(cb);
      BucketsInRange(s, cb, dim) && |cost| == NBuckets - 1 &&
      forall i :: 0 <= i < NBuckets - 1 ==> cost[i] == Cost(BucketsOf(s, cb, dim), i, InfoBounds(s))
    ensures cost == Costs(s, n)
  {
  }

  /** The cheapest split of a run and its cost (lines 205-249) */
  method CheapestSplit(infos: array<PrimInfo>, start: nat, end: nat,
                       bounds: Bounds3f, cb: Bounds3f, dim: nat, ghost n: nat)
    returns (minCost: Float, minCostBucket: nat)
    requires start < end <= infos.Length && AllGood(infos[start..end], n)
    requires bounds == InfoBounds(infos[start..end]) && cb == CentroidBounds(infos[start..end])
    requires dim == MaxExtent(cb)
    ensures minCostBucket == MinCostBucketOf(infos[start..end], n) && minCostBucket < NBuckets - 1
    ensures minCost == Costs(infos[start..end], n)[minCostBucket]
  {
    ghost var s := infos[start..end];
    CentroidBoxFacts(s, n);
    MiddleBucketsStayEmpty(s, cb, dim);
    var buckets := CountBuckets(infos, start, end, cb, dim);
    var cost := ComputeCosts(buckets, bounds);
    CostsAre(s, n, cost);
    minCost, minCostBucket := MinCostBucket(cost);
  }

  /**
   * Runs of more than four records (lines 197-281): the buckets, their costs and
   * the cheapest split; `None` when the run fits in a leaf and no split is cheaper
   * than the leaf, otherwise the partition after the cheapest bucket.
   */
  method SAHSplit(infos: array<PrimInfo>, start: nat, end: nat, maxPrims: nat,
                  bounds: Bounds3f, cb: Bounds3f, dim: nat, ghost n: nat)
    returns (mid: Option<nat>)
    requires start + 4 < end <= infos.Length && AllGood(infos[start..end], n)
    requires bounds == InfoBounds(infos[start..end]) && cb == CentroidBounds(infos[start..end])
    requires dim == MaxExtent(cb) && !FEq(cb.pMax.Get(dim), cb.pMin.Get(dim))
    modifies infos
    ensures var s := old(infos[start..end]);
      mid.None? <==> !(end - start > maxPrims || Lt(Costs(s, n)[MinCostBucketOf(s, n)], FromNat(end - start)))
    ensures mid.None? ==> infos[..] == old(infos[..])
    ensures mid.Some? ==> start < mid.value < end && PermutedIn(old(infos[..]), infos[..], start, end)
    ensures mid.Some? ==>
      var m := MinCostBucketOf(old(infos[start..end]), n);
      (forall i :: start <= i < mid.value ==> PartitionBucket(cb, infos[i].centroid, dim) <= m) &&
      (forall i :: mid.value <= i < end ==> PartitionBucket(cb, infos[i].centroid, dim) > m)
  {
    var minCost, minCostBucket := CheapestSplit(infos, start, end, bounds, cb, dim, n);
    var leafCost := FromNat(end - start);
    if end - start > maxPrims || Lt(minCost, leafCost) {
      var m := SplitAfter(infos, start, end, cb, dim, minCostBucket, n);
      mid := Some(m);
    } else {
      mid := None;
    }
  }

  /** The partition after a bucket below the last one, in a run with spread-out centroids */
  method SplitAfter(infos: array<PrimInfo>, start: nat, end: nat, cb: Bounds3f, dim: nat,
                    minCostBucket: nat, ghost n: nat)
    returns (mid: nat)
    requires start < end <= infos.Length && AllGood(infos[start..end], n)
    requires cb == CentroidBounds(infos[start..end]) && dim < 3
    requires !FEq(cb.pMax.Get(dim), cb.pMin.Get(dim)) && minCostBucket < NBuckets - 1
    modifies infos
    ensures start < mid < end && PermutedIn(old(infos[..]), infos[..], start, end)
    ensures forall i :: start <= i < mid ==> PartitionBucket(cb, infos[i].centroid, dim) <= minCostBucket
    ensures forall i :: mid <= i < end ==> PartitionBucket(cb, infos[i].centroid, dim) > minCostBucket
  {
    ghost var s := infos[start..end];
    ghost var lo, hi := SplitWitnesses(s, n, cb, dim, minCostBucket);
    assert s[lo] == infos[start + lo] && s[hi] == infos[start + hi];
    mid := Partition(infos, start, end, (x: PrimInfo) => PartitionBucket(cb, x.centroid, dim) <= minCostBucket,
                     start + lo, start + hi);
  }

  /**
   * In a run whose centroids spread along `dim`, the centroid on the lower face
   * goes left of any split bucket below 11 and the one on the upper face goes right.
   */
  lemma SplitWitnesses(s: seq<PrimInfo>, n: nat, cb: Bounds3f, dim: nat, minCostBucket: nat)
    returns (lo: nat, hi: nat)
    requires |s| > 0 && AllGood(s, n) && cb == CentroidBounds(s) && dim < 3
    requires !FEq(cb.pMax.Get(dim), cb.pMin.Get(dim)) && minCostBucket < NBuckets - 1
    ensures lo < |s| && PartitionBucket(cb, s[lo].centroid, dim) <= minCostBucket
    ensures hi < |s| && PartitionBucket(cb, s[hi].centroid, dim) > minCostBucket
  {
    CentroidBoxFacts(s, n);
    CentroidFaceWitness(s, n, dim);
    lo :| 0 <= lo < |s| && s[lo].centroid.Get(dim) == cb.pMin.Get(dim);
    hi :| 0 <= hi < |s| && s[hi].centroid.Get(dim) == cb.pMax.Get(dim);
    assert s[lo] in s && s[hi] in s;
    NonEmptyGet(cb, dim);
    PartitionBucketFaces(cb, s[lo].centroid, dim);
    PartitionBucketFaces(cb, s[hi].centroid, dim);
  }

  /**
   * How a run of two or more records with spread-out centroids is split (lines
   * 189-283): small runs at the median along `dim`, larger ones after the cheapest
   * bucket, or not at all (`None`) when a leaf is cheaper. Both halves of a split
   * are non-empty.
   */
  method ChooseSplit(infos: array<PrimInfo>, start: nat, end: nat, maxPrims: nat,
                     bounds: Bounds3f, cb: Bounds3f, dim: nat, ghost n: nat)
    returns (mid: Option<nat>)
    requires start + 1 < end <= infos.Length && AllGood(infos[start..end], n)
    requires bounds == InfoBounds(infos[start..end]) && cb == CentroidBounds(infos[start..end])
    requires dim == MaxExtent(cb) && !FEq(cb.pMax.Get(dim), cb.pMin.Get(dim))
    modifies infos
    ensures mid.None? <==> MakesLeaf(old(infos[start..end]), n, maxPrims)
    ensures mid.None? ==> infos[..] == old(infos[..])
    ensures mid.Some? ==> start < mid.value < end && PermutedIn(old(infos[..]), infos[..], start, end)
  {
    if end - start <= 4 {
      var m := MedianSplit(infos, start, end, dim, n);
      mid := Some(m);
    } else {
      mid := SAHSplit(infos, start, end, maxPrims, bounds, cb, dim, n);
    }
  }
}
