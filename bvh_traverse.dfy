/**
 * What `BVHAccel::intersect` (src/shape/bounding_volume_heirarchy.rs) computes,
 * stated as a depth-first walk of the build tree: a node whose box the ray misses
 * is skipped, a leaf tests all of its primitives in turn, and an interior node
 * visits first the child on the near side along its split axis.
 */
module BvhTraversal {
  import opened Options
  import opened Floats
  import opened Vectors
  import opened Rays
  import opened Bounds3
  import opened Primitives
  import opened BvhNodes

  /** One primitive test: the index of the primitive and whether it reported a hit */
  datatype Call = Call(prim: nat, hit: bool)

  /**
   * The traversal's state: the flag it returns, the ray and the record as the tests
   * so far have left them, and the log of the tests made so far.
   */
  datatype TState = TState(hit: bool, ray: Ray, isect: SurfaceInteraction, log: seq<Call>)

  /** The state before any node is visited */
  function Begin(ray: Ray, isect: SurfaceInteraction): TState {
    TState(false, ray, isect, [])
  }

  predicate GoodSigns(dirIsNeg: seq<nat>) {
    |dirIsNeg| == 3 && forall i | 0 <= i < 3 :: dirIsNeg[i] <= 1
  }

  /** Testing primitive `i` against the current ray and record; a hit sets the flag */
  function Test(prims: seq<Primitive>, i: nat, st: TState): TState
    requires i < |prims|
  {
    var h := prims[i].intersect(st.ray, st.isect);
    TState(st.hit || h.hit, h.ray, h.isect, st.log + [Call(i, h.hit)])
  }

  /** The first `k` tests of a leaf whose primitives start at `off`, with no early exit */
  function LeafScan(prims: seq<Primitive>, off: nat, k: nat, st: TState): TState
    requires off + k <= |prims|
  {
    if k == 0 then st else Test(prims, off + k - 1, LeafScan(prims, off, k - 1, st))
  }

  /**
   * The visit of the subtree `t`: skipped when the box test fails against the current
   * ray; a leaf tests its primitives; an interior node visits its second child first
   * when the ray runs towards negative coordinates along the split axis.
   */
  function VisitTree(t: BuildNode, prims: seq<Primitive>, invDir: Vector3, dirIsNeg: seq<nat>, st: TState): TState
    requires Sound(t, |prims|) && GoodSigns(dirIsNeg)
    decreases t
  {
    if !IntersectPWithInv(t.bounds, st.ray, invDir, dirIsNeg) then st
    else if t.nPrimitives > 0 then LeafScan(prims, t.firstPrimOffset, t.nPrimitives, st)
    else if dirIsNeg[t.splitAxis] == 1 then
      VisitTree(t.left.value, prims, invDir, dirIsNeg, VisitTree(t.right.value, prims, invDir, dirIsNeg, st))
    else
      VisitTree(t.right.value, prims, invDir, dirIsNeg, VisitTree(t.left.value, prims, invDir, dirIsNeg, st))
  }

  predicate AllSound(ts: seq<BuildNode>, n: nat) {
    forall k :: 0 <= k < |ts| ==> Sound(ts[k], n)
  }

  /** The subtrees still on the stack, visited from the top (the end of `ts`) down */
  function RunStack(ts: seq<BuildNode>, prims: seq<Primitive>, invDir: Vector3, dirIsNeg: seq<nat>, st: TState): TState
    requires AllSound(ts, |prims|) && GoodSigns(dirIsNeg)
    decreases |ts|
  {
    if ts == [] then st
    else RunStack(ts[..|ts| - 1], prims, invDir, dirIsNeg, VisitTree(ts[|ts| - 1], prims, invDir, dirIsNeg, st))
  }

  /** The number of nodes in the subtrees on the stack, which bounds the work left */
  function SizeSum(ts: seq<BuildNode>): nat {
    if ts == [] then 0 else SizeSum(ts[..|ts| - 1]) + Size(ts[|ts| - 1])
  }

  /** The whole traversal from the root, with the reciprocal direction and signs of the ray */
  function Traverse(t: BuildNode, prims: seq<Primitive>, ray: Ray, isect: SurfaceInteraction): TState
    requires Sound(t, |prims|)
  {
    var invDir := InvDir(ray.d);
    VisitTree(t, prims, invDir, DirIsNeg(invDir), Begin(ray, isect))
  }

  /** The returned flag is set exactly when some logged test reported a hit */
  predicate FlagMatchesLog(st: TState) {
    st.hit <==> exists k :: 0 <= k < |st.log| && st.log[k].hit
  }

  lemma TestKeepsFlag(prims: seq<Primitive>, i: nat, st: TState)
    requires i < |prims| && FlagMatchesLog(st)
    ensures FlagMatchesLog(Test(prims, i, st))
  {
    var r := Test(prims, i, st);
    assert r.log[|st.log|] == Call(i, r.log[|st.log|].hit);
    if st.hit {
      var k :| 0 <= k < |st.log| && st.log[k].hit;
      assert r.log[k] == st.log[k];
    }
    if r.hit && !st.hit {
      assert r.log[|st.log|].hit;
    }
  }

  lemma {:induction false} LeafScanKeepsFlag(prims: seq<Primitive>, off: nat, k: nat, st: TState)
    requires off + k <= |prims| && FlagMatchesLog(st)
    ensures FlagMatchesLog(LeafScan(prims, off, k, st))
  {
    if k > 0 {
      LeafScanKeepsFlag(prims, off, k - 1, st);
      TestKeepsFlag(prims, off + k - 1, LeafScan(prims, off, k - 1, st));
    }
  }

  lemma {:induction false} VisitKeepsFlag(t: BuildNode, prims: seq<Primitive>, invDir: Vector3, dirIsNeg: seq<nat>, st: TState)
    requires Sound(t, |prims|) && GoodSigns(dirIsNeg) && FlagMatchesLog(st)
    ensures FlagMatchesLog(VisitTree(t, prims, invDir, dirIsNeg, st))
    decreases t
  {
    if IntersectPWithInv(t.bounds, st.ray, invDir, dirIsNeg) {
      if t.nPrimitives > 0 {
        LeafScanKeepsFlag(prims, t.firstPrimOffset, t.nPrimitives, st);
      } else if dirIsNeg[t.splitAxis] == 1 {
        VisitKeepsFlag(t.right.value, prims, invDir, dirIsNeg, st);
        VisitKeepsFlag(t.left.value, prims, invDir, dirIsNeg, VisitTree(t.right.value, prims, invDir, dirIsNeg, st));
      } else {
        VisitKeepsFlag(t.left.value, prims, invDir, dirIsNeg, st);
        VisitKeepsFlag(t.right.value, prims, invDir, dirIsNeg, VisitTree(t.left.value, prims, invDir, dirIsNeg, st));
      }
    }
  }

  /** `intersect` returns true exactly when one of the primitive tests it made returned true */
  lemma TraverseHitIff(t: BuildNode, prims: seq<Primitive>, ray: Ray, isect: SurfaceInteraction)
    requires Sound(t, |prims|)
    ensures var r := Traverse(t, prims, ray, isect);
      r.hit <==> exists k :: 0 <= k < |r.log| && r.log[k].hit
  {
    var invDir := InvDir(ray.d);
    VisitKeepsFlag(t, prims, invDir, DirIsNeg(invDir), Begin(ray, isect));
  }

  /**
   * A leaf reached by the traversal tests every one of its primitives, in order and
   * with no early exit, whatever the tests report.
   */
  lemma {:induction false} LeafScanTestsAll(prims: seq<Primitive>, off: nat, k: nat, st: TState)
    requires off + k <= |prims|
    ensures var r := LeafScan(prims, off, k, st);
      |r.log| == |st.log| + k && r.log[..|st.log|] == st.log &&
      forall j :: |st.log| <= j < |r.log| ==> r.log[j].prim == off + (j - |st.log|)
  {
    if k > 0 {
      LeafScanTestsAll(prims, off, k - 1, st);
      var prev := LeafScan(prims, off, k - 1, st);
      var r := LeafScan(prims, off, k, st);
      assert r.log == prev.log + [Call(off + k - 1, r.log[|prev.log|].hit)];
      assert r.log[..|st.log|] == prev.log[..|st.log|];
    }
  }

  /**
   * The state after a visit follows from the state before it: the flag is never
   * cleared, without a hit the ray and record are untouched, and the ray only ever
   * has its `tMax` lowered.
   */
  predicate Follows(st: TState, r: TState) {
    (st.hit ==> r.hit) &&
    (!r.hit ==> r.ray == st.ray && r.isect == st.isect) &&
    r.ray == st.ray.(tMax := r.ray.tMax) && (r.ray == st.ray || Le(r.ray.tMax, st.ray.tMax))
  }

  lemma FollowsTrans(a: TState, b: TState, c: TState)
    requires Follows(a, b) && Follows(b, c)
    ensures Follows(a, c)
  {
    RespectsChain(a.ray, b.ray, c.ray);
  }

  lemma {:induction false} LeafScanFollows(prims: seq<Primitive>, off: nat, k: nat, st: TState)
    requires off + k <= |prims| && forall j :: 0 <= j < |prims| ==> Respects(prims[j])
    ensures Follows(st, LeafScan(prims, off, k, st))
  {
    if k > 0 {
      var prev := LeafScan(prims, off, k - 1, st);
      LeafScanFollows(prims, off, k - 1, st);
      assert Respects(prims[off + k - 1]);
      assert HitRespects(prev.ray, prev.isect, prims[off + k - 1].intersect(prev.ray, prev.isect));
      FollowsTrans(st, prev, Test(prims, off + k - 1, prev));
    }
  }

  lemma {:induction false} VisitFollows(t: BuildNode, prims: seq<Primitive>, invDir: Vector3, dirIsNeg: seq<nat>, st: TState)
    requires Sound(t, |prims|) && GoodSigns(dirIsNeg)
    requires forall j :: 0 <= j < |prims| ==> Respects(prims[j])
    ensures Follows(st, VisitTree(t, prims, invDir, dirIsNeg, st))
    decreases t
  {
    if IntersectPWithInv(t.bounds, st.ray, invDir, dirIsNeg) {
      if t.nPrimitives > 0 {
        LeafScanFollows(prims, t.firstPrimOffset, t.nPrimitives, st);
      } else {
        var (first, second) := if dirIsNeg[t.splitAxis] == 1 then (t.right.value, t.left.value)
                               else (t.left.value, t.right.value);
        var mid := VisitTree(first, prims, invDir, dirIsNeg, st);
        VisitFollows(first, prims, invDir, dirIsNeg, st);
        VisitFollows(second, prims, invDir, dirIsNeg, mid);
        FollowsTrans(st, mid, VisitTree(second, prims, invDir, dirIsNeg, mid));
      }
    }
  }

  /** The hierarchy over a list of primitives, as a primitive in its own right */
  function AsPrimitive(t: BuildNode, prims: seq<Primitive>, id: nat): Primitive
    requires Sound(t, |prims|)
  {
    Primitive(id, t.bounds, (r, si) =>
      var st := Traverse(t, prims, r, si); PrimHit(st.hit, st.ray, st.isect))
  }

  /** A hierarchy over primitives that keep the primitive contract keeps it too */
  lemma AccelRespects(t: BuildNode, prims: seq<Primitive>, id: nat)
    requires Sound(t, |prims|)
    requires forall j :: 0 <= j < |prims| ==> Respects(prims[j])
    ensures Respects(AsPrimitive(t, prims, id))
  {
    forall r, si ensures HitRespects(r, si, AsPrimitive(t, prims, id).intersect(r, si)) {
      var invDir := InvDir(r.d);
      VisitFollows(t, prims, invDir, DirIsNeg(invDir), Begin(r, si));
    }
  }

  /** The stack of the flattened walk: entry `k` is the index at which subtree `pending[k]` lies */
  ghost predicate StackLaid(ns: seq<LinearNode>, pending: seq<BuildNode>, idxs: seq<nat>) {
    |idxs| == |pending| && forall k :: 0 <= k < |pending| ==> Laid(ns, pending[k], idxs[k])
  }

  /** Each stacked subtree, and the current one, fits in the levels the tree has left at its depth */
  predicate HeightsFit(pending: seq<BuildNode>, cur: BuildNode, h: nat) {
    (forall k :: 0 <= k < |pending| ==> k + Height(pending[k]) <= h) && |pending| + Height(cur) <= h
  }

  /**
   * The state of the explicit-stack walk of `intersect` matches subtrees of the build
   * tree: the current node `idx` lies out `cur`, each stack entry the subtree it stands for.
   */
  ghost predicate Machine(ns: seq<LinearNode>, n: nat, pending: seq<BuildNode>, idxs: seq<nat>,
                          cur: BuildNode, idx: nat, h: nat) {
    Sound(cur, n) && Laid(ns, cur, idx) && AllSound(pending, n) && StackLaid(ns, pending, idxs) &&
    HeightsFit(pending, cur, h)
  }

  /** The node at `idx` is the root of `cur`, read straight from the array */
  lemma MachineNode(ns: seq<LinearNode>, n: nat, pending: seq<BuildNode>, idxs: seq<nat>,
                    cur: BuildNode, idx: nat, h: nat)
    requires Machine(ns, n, pending, idxs, cur, idx, h)
    ensures idx < |ns| && ns[idx].bounds == cur.bounds && ns[idx].nPrimitives == cur.nPrimitives
    ensures cur.nPrimitives > 0 ==> ns[idx].primitivesOffset == Some(cur.firstPrimOffset)
    ensures cur.nPrimitives > 0 ==> cur.firstPrimOffset + cur.nPrimitives <= n
    ensures cur.nPrimitives == 0 ==> ns[idx].axis == cur.splitAxis < 3
    ensures cur.nPrimitives == 0 ==> ns[idx].secondChildOffset == Some(idx + 1 + Size(cur.left.value))
    ensures cur.nPrimitives == 0 ==> |pending| + 2 <= h
  {
    if cur.nPrimitives == 0 {
      assert HeightOpt(cur.left) == Height(cur.left.value);
    }
  }

  /** Popping the stack: the top entry becomes the current subtree */
  lemma MachinePop(ns: seq<LinearNode>, n: nat, pending: seq<BuildNode>, idxs: seq<nat>,
                   cur: BuildNode, idx: nat, h: nat)
    requires Machine(ns, n, pending, idxs, cur, idx, h) && |pending| > 0
    ensures var m := |pending| - 1;
      Machine(ns, n, pending[..m], idxs[..m], pending[m], idxs[m], h)
  {
    var m := |pending| - 1;
    forall k | 0 <= k < m ensures Laid(ns, pending[..m][k], idxs[..m][k]) {
      assert pending[..m][k] == pending[k] && idxs[..m][k] == idxs[k];
    }
  }

  /**
   * Descending into an interior node: one child becomes current and the other is
   * pushed, the second child first when `farFirst` (the ray runs towards negative
   * coordinates along the split axis).
   */
  lemma MachinePush(ns: seq<LinearNode>, n: nat, pending: seq<BuildNode>, idxs: seq<nat>,
                    cur: BuildNode, idx: nat, h: nat, farFirst: bool)
    requires Machine(ns, n, pending, idxs, cur, idx, h) && cur.nPrimitives == 0
    ensures var left, right, second := cur.left.value, cur.right.value, idx + 1 + Size(cur.left.value);
      if farFirst then Machine(ns, n, pending + [left], idxs + [idx + 1], right, second, h)
      else Machine(ns, n, pending + [right], idxs + [second], left, idx + 1, h)
    ensures SizeSum(pending + [cur.left.value]) + Size(cur.right.value) < SizeSum(pending) + Size(cur)
    ensures SizeSum(pending + [cur.right.value]) + Size(cur.left.value) < SizeSum(pending) + Size(cur)
  {
    var left, right := cur.left.value, cur.right.value;
    assert HeightOpt(cur.left) == Height(left) && HeightOpt(cur.right) == Height(right);
    assert Height(left) < Height(cur) && Height(right) < Height(cur);
    assert (pending + [left])[..|pending|] == pending;
    assert (pending + [right])[..|pending|] == pending;
    var (next, other, nextIdx, otherIdx) :=
      if farFirst then (right, left, idx + 1 + Size(left), idx + 1) else (left, right, idx + 1, idx + 1 + Size(left));
    var p', i' := pending + [other], idxs + [otherIdx];
    forall k | 0 <= k < |p'| ensures Laid(ns, p'[k], i'[k]) && Sound(p'[k], n) && k + Height(p'[k]) <= h {
      if k < |pending| {
        assert p'[k] == pending[k] && i'[k] == idxs[k];
      } else {
        assert p'[k] == other && i'[k] == otherIdx;
      }
    }
  }

  /** A push puts a subtree on top: the remaining work is that subtree's visit, then the rest */
  lemma RunStackPush(ts: seq<BuildNode>, t: BuildNode, prims: seq<Primitive>, invDir: Vector3, dirIsNeg: seq<nat>, st: TState)
    requires AllSound(ts, |prims|) && Sound(t, |prims|) && GoodSigns(dirIsNeg)
    ensures AllSound(ts + [t], |prims|)
    ensures RunStack(ts + [t], prims, invDir, dirIsNeg, st) == RunStack(ts, prims, invDir, dirIsNeg, VisitTree(t, prims, invDir, dirIsNeg, st))
  {
    assert (ts + [t])[..|ts|] == ts;
  }

  /** Popping the stack when the current subtree is done: the next visit is that of the top entry */
  lemma RunStackPop(ts: seq<BuildNode>, prims: seq<Primitive>, invDir: Vector3, dirIsNeg: seq<nat>, st: TState)
    requires AllSound(ts, |prims|) && GoodSigns(dirIsNeg) && |ts| > 0
    ensures AllSound(ts[..|ts| - 1], |prims|)
    ensures RunStack(ts, prims, invDir, dirIsNeg, st) ==
      RunStack(ts[..|ts| - 1], prims, invDir, dirIsNeg, VisitTree(ts[|ts| - 1], prims, invDir, dirIsNeg, st))
  {
    var m := |ts| - 1;
    forall k | 0 <= k < m ensures Sound(ts[..m][k], |prims|) {
      assert ts[..m][k] == ts[k];
    }
  }

  /** The visit of a subtree whose box the ray misses changes nothing */
  lemma VisitMiss(t: BuildNode, prims: seq<Primitive>, invDir: Vector3, dirIsNeg: seq<nat>, st: TState)
    requires Sound(t, |prims|) && GoodSigns(dirIsNeg) && !IntersectPWithInv(t.bounds, st.ray, invDir, dirIsNeg)
    ensures VisitTree(t, prims, invDir, dirIsNeg, st) == st
  {
  }

  /** The visit of a leaf whose box the ray meets is the scan of its primitives */
  lemma VisitLeaf(t: BuildNode, prims: seq<Primitive>, invDir: Vector3, dirIsNeg: seq<nat>, st: TState)
    requires Sound(t, |prims|) && GoodSigns(dirIsNeg) && IntersectPWithInv(t.bounds, st.ray, invDir, dirIsNeg)
    requires t.nPrimitives > 0
    ensures VisitTree(t, prims, invDir, dirIsNeg, st) == LeafScan(prims, t.firstPrimOffset, t.nPrimitives, st)
  {
  }

  /**
   * The visit of an interior node whose box the ray meets: the near child now, and
   * the other one, pushed, once the near child is done.
   */
  lemma VisitInterior(ts: seq<BuildNode>, t: BuildNode, prims: seq<Primitive>, invDir: Vector3, dirIsNeg: seq<nat>, st: TState)
    requires AllSound(ts, |prims|) && Sound(t, |prims|) && GoodSigns(dirIsNeg)
    requires IntersectPWithInv(t.bounds, st.ray, invDir, dirIsNeg) && t.nPrimitives == 0
    ensures var farFirst := dirIsNeg[t.splitAxis] == 1;
      var (next, other) := if farFirst then (t.right.value, t.left.value) else (t.left.value, t.right.value);
      AllSound(ts + [other], |prims|) &&
      RunStack(ts, prims, invDir, dirIsNeg, VisitTree(t, prims, invDir, dirIsNeg, st)) ==
      RunStack(ts + [other], prims, invDir, dirIsNeg, VisitTree(next, prims, invDir, dirIsNeg, st))
  {
    var farFirst := dirIsNeg[t.splitAxis] == 1;
    var (next, other) := if farFirst then (t.right.value, t.left.value) else (t.left.value, t.right.value);
    RunStackPush(ts, other, prims, invDir, dirIsNeg, VisitTree(next, prims, invDir, dirIsNeg, st));
  }
}
