/**
 * The bounding volume hierarchy accelerator (src/shape/bounding_volume_heirarchy.rs):
 * primitives are collected, then `build` sorts them into a tree by the surface area
 * heuristic, reorders the primitive list to match the leaves and flattens the tree
 * into a depth-first node array, which `intersect` walks with an explicit stack.
 */
module Bvh {
  import opened Options
  import opened Floats
  import opened Vectors
  import opened Rays
  import opened Bounds3
  import opened Primitives
  import opened BvhNodes
  import opened BvhSplit
  import opened BvhBuild
  import opened BvhTraversal

  /** The size of `nodes_to_visit`, the traversal's fixed stack */
  const StackSize: nat := 64

  /** The cap `init` puts on the number of primitives in a leaf */
  const MaxLeafCap: nat := 255

  /** A record's bound is the world bound of the primitive it names, and is finite */
  predicate Describes(prims: seq<Primitive>, x: PrimInfo) {
    x.primitiveNum < |prims| && x.bounds == prims[x.primitiveNum].worldBound && FiniteBox(x.bounds)
  }

  /** The records `build` starts from describe their primitives and are fit to build with */
  lemma InfosDescribe(prims: seq<Primitive>, x: PrimInfo)
    requires forall i :: 0 <= i < |prims| ==> FiniteBox(prims[i].worldBound)
    requires x in Infos(prims)
    ensures Describes(prims, x) && GoodInfo(x, |prims|)
  {
    var i :| 0 <= i < |prims| && Infos(prims)[i] == x;
  }

  /** The records for a list of finite-bounded primitives are fit to build with */
  lemma InfosGood(prims: seq<Primitive>)
    requires forall i :: 0 <= i < |prims| ==> FiniteBox(prims[i].worldBound)
    ensures AllGood(Infos(prims), |prims|)
  {
    forall x | x in Infos(prims) ensures GoodInfo(x, |prims|) {
      InfosDescribe(prims, x);
    }
  }

  /** Any rearrangement of those records describes the primitives it names, entry by entry */
  lemma OrderDescribes(prims: seq<Primitive>, order: seq<PrimInfo>)
    requires forall i :: 0 <= i < |prims| ==> FiniteBox(prims[i].worldBound)
    requires multiset(order) == multiset(Infos(prims))
    ensures forall x :: x in order ==> x.primitiveNum < |prims|
    ensures forall i :: 0 <= i < |order| ==>
      order[i].bounds == PrimsOf(prims, order)[i].worldBound && FiniteBox(order[i].bounds)
  {
    forall x | x in order ensures Describes(prims, x) {
      assert x in multiset(Infos(prims));
      InfosDescribe(prims, x);
    }
    var ps := PrimsOf(prims, order);
    forall i | 0 <= i < |order| ensures order[i].bounds == ps[i].worldBound && FiniteBox(order[i].bounds) {
      assert order[i] in order && Describes(prims, order[i]);
    }
  }

  /** Every sub-run of a run of good records is good */
  lemma AllGoodSlice(a: seq<PrimInfo>, lo: nat, lo': nat, hi': nat, hi: nat, n: nat)
    requires lo <= lo' <= hi' <= hi <= |a| && AllGood(a[lo..hi], n)
    ensures AllGood(a[lo'..hi'], n)
  {
    forall x | x in a[lo'..hi'] ensures GoodInfo(x, n) {
      var i :| lo' <= i < hi' && a[i] == x;
      assert a[lo..hi][i - lo] == x;
    }
  }

  /** Two adjacent ranges rearranged one after the other, read back as one run */
  lemma JoinRuns(a: seq<PrimInfo>, b: seq<PrimInfo>, start: nat, mid: nat, end: nat)
    requires start <= mid <= end && PermutedIn(a, b, mid, end)
    ensures b[start..mid] == a[start..mid]
    ensures b[start..end] == b[start..mid] + b[mid..end]
  {
    assert b[start..mid] == b[..mid][start..] && a[start..mid] == a[..mid][start..];
  }

  /** The first recursive call leaves the second half of the range alone */
  lemma RightRunUntouched(a0: seq<PrimInfo>, a1: seq<PrimInfo>, start: nat, mid: nat, end: nat, n: nat)
    requires start <= mid <= end <= |a0| && PermutedIn(a0, a1, start, mid) && AllGood(a0[start..end], n)
    ensures AllGood(a1[mid..end], n)
  {
    assert a1[mid..end] == a1[mid..][..end - mid] && a0[mid..end] == a0[mid..][..end - mid];
    AllGoodSlice(a0, start, mid, end, end, n);
  }

  /** The interior node over two children built one after the other is built over the whole run */
  lemma Assemble(a0: seq<PrimInfo>, a1: seq<PrimInfo>, a2: seq<PrimInfo>, start: nat, mid: nat, end: nat, n: nat,
                 left: BuildNode, right: BuildNode, dim: nat, first: nat)
    requires start < mid < end <= |a0| && dim < 3
    requires PermutedIn(a0, a1, start, mid) && PermutedIn(a1, a2, mid, end)
    requires AllGood(a1[start..mid], n) && AllGood(a2[mid..end], n)
    requires Built(left, a1[start..mid], first) && Built(right, a2[mid..end], first + (mid - start))
    ensures PermutedIn(a0, a2, start, end)
    ensures AllGood(a2[start..end], n)
    ensures Built(InitInterior(NewBuildNode(), dim, Some(left), Some(right)), a2[start..end], first)
  {
    JoinRuns(a1, a2, start, mid, end);
    BuiltCount(left, a1[start..mid], first);
    var s := a2[start..end];
    assert s[..mid - start] == a1[start..mid];
    assert s[mid - start..] == a2[mid..end];
    forall x | x in s ensures GoodInfo(x, n) {
      assert x in a2[start..mid] || x in a2[mid..end];
    }
    PermutedWiden(a0, a1, start, start, mid, end);
    PermutedWiden(a1, a2, start, mid, end, end);
  }

  /** The ordered lists of the two halves, appended one after the other */
  lemma OrderedJoin(prims: seq<Primitive>, a: seq<PrimInfo>, start: nat, mid: nat, end: nat,
                    ordered: seq<Primitive>, o1: seq<Primitive>, o2: seq<Primitive>)
    requires start <= mid <= end <= |a| && AllGood(a[start..end], |prims|)
    requires AllGood(a[start..mid], |prims|) && AllGood(a[mid..end], |prims|)
    requires o1 == ordered + PrimsOf(prims, a[start..mid])
    requires o2 == o1 + PrimsOf(prims, a[mid..end])
    ensures o2 == ordered + PrimsOf(prims, a[start..end])
  {
    var l, r := a[start..mid], a[mid..end];
    assert a[start..end] == l + r;
    PrimsOfConcat(prims, l, r);
    var pl, pr := PrimsOf(prims, l), PrimsOf(prims, r);
    ConcatAssoc(ordered, pl, pr);
  }

  lemma ConcatAssoc<T>(a: seq<T>, b: seq<T>, c: seq<T>)
    ensures (a + b) + c == a + (b + c)
  {
  }

  /**
   * `final` is a rearrangement of the records for `prims`, and `ordered` holds, entry by
   * entry, the primitives they name, whose bounds they carry.
   */
  ghost predicate Reordered(prims: seq<Primitive>, final: seq<PrimInfo>, ordered: seq<Primitive>) {
    multiset(final) == multiset(Infos(prims)) &&
    (forall x :: x in final ==> x.primitiveNum < |prims|) &&
    ordered == PrimsOf(prims, final) && multiset(ordered) == multiset(prims) &&
    |final| == |ordered| &&
    forall i :: 0 <= i < |final| ==> final[i].bounds == ordered[i].worldBound && FiniteBox(final[i].bounds)
  }

  /**
   * What the first call of `recursively_build` leaves behind: the records are a
   * rearrangement of the initial ones, and the ordered list holds, entry by entry, the
   * primitives they name, whose bounds they carry.
   */
  lemma BuildOrder(prims: seq<Primitive>, final: seq<PrimInfo>, ordered: seq<Primitive>)
    requires forall i :: 0 <= i < |prims| ==> FiniteBox(prims[i].worldBound)
    requires PermutedIn(Infos(prims), final, 0, |prims|) && AllGood(final[0..|prims|], |prims|)
    requires ordered == [] + PrimsOf(prims, final[0..|prims|])
    ensures Reordered(prims, final, ordered)
  {
    assert final[0..|prims|] == final && Infos(prims)[0..|prims|] == Infos(prims);
    PrimsOfInfos(prims);
    PrimsOfPermutation(prims, Infos(prims), final);
    OrderDescribes(prims, final);
  }

  class BVHAccel {
    var maxPrimsInNode: nat
    var primitives: seq<Primitive>
    var nodes: seq<LinearNode>
    var isBuilt: bool
    /** The tree the last build flattened into `nodes` */
    ghost var tree: BuildNode
    /** The records in the order the last build left them, one per entry of `primitives` */
    ghost var order: seq<PrimInfo>

    /**
     * Before a build there are no nodes. After one, `tree` was built over `order`, lies
     * flattened from index 0 of `nodes`, and `order` describes `primitives` entry by entry.
     */
    ghost predicate Valid()
      reads this
    {
      maxPrimsInNode <= MaxLeafCap &&
      (!isBuilt ==> nodes == []) &&
      (isBuilt ==>
        Built(tree, order, 0) && Laid(nodes, tree, 0) && |order| == |primitives| &&
        forall i :: 0 <= i < |order| ==> order[i].bounds == primitives[i].worldBound && FiniteBox(order[i].bounds))
    }

    /** `init`: no primitives, no nodes, and at most 255 primitives per leaf */
    constructor Init(maxPrimitivesInNode: nat)
      ensures Valid() && !isBuilt && primitives == [] && nodes == []
      ensures maxPrimsInNode == if maxPrimitivesInNode < MaxLeafCap then maxPrimitivesInNode else MaxLeafCap
    {
      maxPrimsInNode := if maxPrimitivesInNode < MaxLeafCap then maxPrimitivesInNode else MaxLeafCap;
      primitives := [];
      nodes := [];
      isBuilt := false;
      tree := NewBuildNode();
      order := [];
    }

    /** `add_primitive`: appends while the hierarchy is not built, and is ignored afterwards */
    method AddPrimitive(p: Primitive)
      requires Valid()
      modifies this
      ensures Valid() && isBuilt == old(isBuilt) && nodes == old(nodes) && maxPrimsInNode == old(maxPrimsInNode)
      ensures primitives == if old(isBuilt) then old(primitives) else old(primitives) + [p]
    {
      if !isBuilt {
        primitives := primitives + [p];
      }
    }

    /** The leaf loops of `recursively_build`: the run's primitives go to the end of the ordered list */
    method PushRange(infos: array<PrimInfo>, start: nat, end: nat, ordered: seq<Primitive>)
      returns (orderedOut: seq<Primitive>)
      requires start <= end <= infos.Length && AllGood(infos[start..end], |primitives|)
      ensures orderedOut == ordered + PrimsOf(primitives, infos[start..end])
    {
      orderedOut := ordered;
      for i := start to end
        invariant AllGood(infos[start..i], |primitives|)
        invariant orderedOut == ordered + PrimsOf(primitives, infos[start..i])
      {
        AllGoodSlice(infos[..], start, start, i + 1, end, |primitives|);
        assert infos[i] in infos[start..end];
        assert infos[start..i + 1] == infos[start..i] + [infos[i]];
        PrimsOfConcat(primitives, infos[start..i], [infos[i]]);
        orderedOut := orderedOut + [primitives[infos[i].primitiveNum]];
      }
    }

    /**
     * `recursively_build` over the records in [start, end): they are rearranged in place
     * within the range, one node is counted per call, the run's primitives are appended to
     * the ordered list leaf by leaf, and the tree returned is built over the run. The
     * node is a leaf exactly when the split rule says so; an interior node splits along
     * the widest axis of the centroids' box.
     */
    method RecursivelyBuild(infos: array<PrimInfo>, start: nat, end: nat, total: nat, ordered: seq<Primitive>)
      returns (node: BuildNode, totalOut: nat, orderedOut: seq<Primitive>)
      requires start < end <= infos.Length && AllGood(infos[start..end], |primitives|)
      modifies infos
      decreases end - start, 1
      ensures PermutedIn(old(infos[..]), infos[..], start, end)
      ensures AllGood(infos[start..end], |primitives|)
      ensures Built(node, infos[start..end], |ordered|)
      ensures totalOut == total + Size(node)
      ensures orderedOut == ordered + PrimsOf(primitives, infos[start..end])
      ensures node.nPrimitives > 0 <==> MakesLeaf(old(infos[start..end]), |primitives|, maxPrimsInNode)
      ensures node.nPrimitives > 0 ==> infos[..] == old(infos[..])
      ensures node.nPrimitives == 0 ==> node.splitAxis == MaxExtent(CentroidBounds(old(infos[start..end])))
    {
      var totalNodes := total + 1;
      var bounds := RangeBounds(infos, start, end);
      var nPrimitives := end - start;
      PermutedRefl(infos[..], start, end);
      if nPrimitives == 1 {
        orderedOut := PushRange(infos, start, end, ordered);
        node := InitLeaf(NewBuildNode(), |ordered|, nPrimitives, bounds);
        totalOut := totalNodes;
        return;
      }
      var centroidBounds := RangeCentroidBounds(infos, start, end);
      var dim := MaxExtent(centroidBounds);
      if FEq(centroidBounds.pMax.Get(dim), centroidBounds.pMin.Get(dim)) {
        orderedOut := PushRange(infos, start, end, ordered);
        node := InitLeaf(NewBuildNode(), |ordered|, nPrimitives, bounds);
        totalOut := totalNodes;
        return;
      }
      var split := ChooseSplit(infos, start, end, maxPrimsInNode, bounds, centroidBounds, dim, |primitives|);
      if split.None? {
        orderedOut := PushRange(infos, start, end, ordered);
        node := InitLeaf(NewBuildNode(), |ordered|, nPrimitives, bounds);
        totalOut := totalNodes;
        return;
      }
      var mid := split.value;
      ghost var a1 := infos[..];
      PermutedKeepsGood(old(infos[..]), a1, start, end, |primitives|);
      node, totalOut, orderedOut := BuildChildren(infos, start, mid, end, dim, totalNodes, ordered);
      PermutedTrans(old(infos[..]), a1, infos[..], start, end);
    }

    /** One recursive call of `recursively_build`, with only what the parent needs to know of it */
    method BuildHalf(infos: array<PrimInfo>, start: nat, end: nat, total: nat, ordered: seq<Primitive>)
      returns (node: BuildNode, totalOut: nat, orderedOut: seq<Primitive>)
      requires start < end <= infos.Length && AllGood(infos[start..end], |primitives|)
      modifies infos
      decreases end - start, 2
      ensures PermutedIn(old(infos[..]), infos[..], start, end)
      ensures AllGood(infos[start..end], |primitives|)
      ensures Built(node, infos[start..end], |ordered|)
      ensures totalOut == total + Size(node)
      ensures orderedOut == ordered + PrimsOf(primitives, infos[start..end])
    {
      node, totalOut, orderedOut := RecursivelyBuild(infos, start, end, total, ordered);
    }

    /**
     * The two recursive calls of `recursively_build` after a split at `mid` and the
     * interior node over their results (lines 286-294). `start == mid` or `mid == end`
     * would leave a child out; a split never makes either half empty.
     */
    method BuildChildren(infos: array<PrimInfo>, start: nat, mid: nat, end: nat, dim: nat,
                         total: nat, ordered: seq<Primitive>)
      returns (node: BuildNode, totalOut: nat, orderedOut: seq<Primitive>)
      requires start < mid < end <= infos.Length && dim < 3 && AllGood(infos[start..end], |primitives|)
      modifies infos
      decreases end - start, 0
      ensures PermutedIn(old(infos[..]), infos[..], start, end)
      ensures AllGood(infos[start..end], |primitives|)
      ensures Built(node, infos[start..end], |ordered|)
      ensures totalOut == total + Size(node) - 1
      ensures orderedOut == ordered + PrimsOf(primitives, infos[start..end])
      ensures node.nPrimitives == 0 && node.splitAxis == dim
    {
      AllGoodSlice(infos[..], start, start, mid, end, |primitives|);
      ghost var a0 := infos[..];
      var left, t1, o1 := BuildHalf(infos, start, mid, total, ordered);
      ghost var a1 := infos[..];
      RightRunUntouched(a0, a1, start, mid, end, |primitives|);
      var right, t2, o2 := BuildHalf(infos, mid, end, t1, o1);
      node := InitInterior(NewBuildNode(), dim, Some(left), Some(right));
      Assemble(a0, a1, infos[..], start, mid, end, |primitives|, left, right, dim, |ordered|);
      OrderedJoin(primitives, infos[..], start, mid, end, ordered, o1, o2);
      totalOut, orderedOut := t2, o2;
    }

    /**
     * `flatten_tree`: the node goes to index `offset`, its first child right after it and
     * its second child after the whole first subtree, whose index the node records. Only
     * the fields the node kind uses are written; the rest of each entry stays as it was.
     */
    method FlattenTree(node: BuildNode, offset: nat, ghost n: nat) returns (curIdx: nat, offsetOut: nat)
      requires offset + Size(node) <= |nodes| && Sound(node, n)
      modifies this`nodes
      decreases node
      ensures curIdx == offset && offsetOut == offset + Size(node)
      ensures |nodes| == old(|nodes|) && Laid(nodes, node, offset)
      ensures forall k :: 0 <= k < |nodes| && !(offset <= k < offset + Size(node)) ==> nodes[k] == old(nodes[k])
    {
      curIdx := offset;
      nodes := nodes[curIdx := nodes[curIdx].(bounds := node.bounds)];
      offsetOut := offset + 1;
      if node.nPrimitives > 0 {
        nodes := nodes[curIdx := nodes[curIdx].(primitivesOffset := Some(node.firstPrimOffset), nPrimitives := node.nPrimitives)];
      } else {
        nodes := nodes[curIdx := nodes[curIdx].(axis := node.splitAxis, nPrimitives := 0)];
        if node.left.Some? {
          var _, next := FlattenTree(node.left.value, offsetOut, n);
          offsetOut := next;
        }
        ghost var afterLeft := nodes;
        if node.right.Some? {
          var second, next := FlattenTree(node.right.value, offsetOut, n);
          offsetOut := next;
          ghost var afterRight := nodes;
          nodes := nodes[curIdx := nodes[curIdx].(secondChildOffset := Some(second))];
          LaidFrame(afterRight, nodes, node.right.value, offset + 1 + SizeOpt(node.left));
        }
        if node.left.Some? {
          LaidFrame(afterLeft, nodes, node.left.value, offset + 1);
        }
      }
    }

    /**
     * `build`: one record per primitive, the tree over all of them, the primitive list
     * replaced by the ordered one, as many fresh nodes appended as the tree has (the node
     * list is not cleared first) and the tree flattened from index 0. An empty list
     * panics, in the median selection of the first call.
     */
    method Build() returns (out: Outcome<()>)
      requires Valid()
      requires forall i :: 0 <= i < |primitives| ==> FiniteBox(primitives[i].worldBound)
      modifies this
      ensures out.Panicked? <==> old(|primitives|) == 0
      ensures out.Panicked? ==> primitives == old(primitives) && nodes == old(nodes) && isBuilt == old(isBuilt)
      ensures out.Returned? ==> Valid() && isBuilt && maxPrimsInNode == old(maxPrimsInNode)
      ensures out.Returned? ==> multiset(primitives) == multiset(old(primitives))
      ensures out.Returned? ==> |nodes| == old(|nodes|) + Size(tree)
      ensures out.Returned? ==> multiset(order) == multiset(Infos(old(primitives)))
      ensures out.Returned? ==> (forall x :: x in order ==> x.primitiveNum < old(|primitives|))
      ensures out.Returned? ==> primitives == PrimsOf(old(primitives), order)
    {
      var numPrimitives := |primitives|;
      var infos := MakeInfos();
      if numPrimitives == 0 {
        return Panicked;
      }
      var root, totalNodes, ordered, final := BuildTree(infos);
      Install(root, totalNodes, ordered, final);
      return Returned(());
    }

    /**
     * The first call of `recursively_build` over all the records: the tree, its node
     * count and the ordered list, with the records as the call leaves them.
     */
    method BuildTree(infos: array<PrimInfo>)
      returns (root: BuildNode, totalNodes: nat, ordered: seq<Primitive>, ghost final: seq<PrimInfo>)
      requires 0 < |primitives| && infos[..] == Infos(primitives)
      requires forall i :: 0 <= i < |primitives| ==> FiniteBox(primitives[i].worldBound)
      modifies infos
      ensures Built(root, final, 0) && totalNodes == Size(root)
      ensures Reordered(primitives, final, ordered)
    {
      ghost var prims := primitives;
      InfosGood(prims);
      assert infos[0..|prims|] == infos[..];
      root, totalNodes, ordered := BuildHalf(infos, 0, |primitives|, 0, []);
      final := infos[..];
      assert infos[0..|prims|] == final;
      assert Built(root, final, 0);
      BuildOrder(prims, final, ordered);
    }

    /** The loop at the start of `build`: one record per primitive, numbered in list order */
    method MakeInfos() returns (infos: array<PrimInfo>)
      ensures fresh(infos) && infos[..] == Infos(primitives)
    {
      infos := new PrimInfo[|primitives|];
      for i := 0 to |primitives|
        invariant forall j :: 0 <= j < i ==> infos[j] == InitInfo(j, primitives[j].worldBound)
      {
        infos[i] := InitInfo(i, primitives[i].worldBound);
      }
    }

    /**
     * The end of `build`: the ordered list replaces the primitives, the node list grows by
     * one default node per tree node and the tree is flattened from index 0.
     */
    method Install(root: BuildNode, totalNodes: nat, ordered: seq<Primitive>, ghost final: seq<PrimInfo>)
      requires Valid()
      requires Built(root, final, 0) && totalNodes == Size(root) && |final| == |ordered|
      requires forall i :: 0 <= i < |final| ==> final[i].bounds == ordered[i].worldBound && FiniteBox(final[i].bounds)
      modifies this
      ensures Valid() && isBuilt && maxPrimsInNode == old(maxPrimsInNode)
      ensures |nodes| == old(|nodes|) + Size(tree)
      ensures tree == root && order == final && primitives == ordered
    {
      BuiltCount(root, final, 0);
      BuiltSound(root, final, 0, |final|);
      primitives := ordered;
      GrowNodes(totalNodes);
      var _, _ := FlattenTree(root, 0, |final|);
      isBuilt := true;
      tree := root;
      order := final;
    }

    /** The loop of `build` that appends one default node per tree node to the node list */
    method GrowNodes(count: nat)
      modifies this`nodes
      ensures |nodes| == old(|nodes|) + count && nodes[..old(|nodes|)] == old(nodes)
    {
      for k := 0 to count
        invariant |nodes| == old(|nodes|) + k && nodes[..old(|nodes|)] == old(nodes)
      {
        nodes := nodes + [NewLinearNode()];
      }
    }
  
    /** `world_bound`: the bound of node 0, which holds the bound of every primitive; no nodes, a panic */
    function WorldBound(): (b: Outcome<Bounds3f>)
      reads this
      requires Valid()
      ensures b.Panicked? <==> !isBuilt
      ensures b.Returned? ==> forall i :: 0 <= i < |primitives| ==> Encloses(b.value, primitives[i].worldBound)
    {
      if |nodes| == 0 then Panicked
      else
        assert NoNaNBounds(order);
        forall i | 0 <= i < |primitives| ensures Encloses(nodes[0].bounds, primitives[i].worldBound) {
          BuiltEncloses(tree, order, 0, i);
        }
        Returned(nodes[0].bounds)
    }

    /** `get_area_light`, `get_material` and `compute_scattering_function` panic on an aggregate */
    function GetAreaLight(): Outcome<Option<AreaLightId>> { Panicked }

    function GetMaterial(): Outcome<Option<MaterialId>> { Panicked }

    function ComputeScatteringFunction(isect: SurfaceInteraction): Outcome<SurfaceInteraction> { Panicked }

    /** What `intersect` computes on the built hierarchy, as the walk of the build tree */
    ghost function Traversal(ray: Ray, isect: SurfaceInteraction): TState
      reads this
      requires Valid() && isBuilt
    {
      BuiltSound(tree, order, 0, |primitives|);
      Traverse(tree, primitives, ray, isect)
    }

    /**
     * The tree is never taller than the number of primitives, so a hierarchy over at
     * most 65 primitives never fills the 64-entry stack of `intersect`.
     */
    lemma StackFits()
      requires Valid() && isBuilt
      ensures Height(tree) <= |primitives|
    {
      BuiltCount(tree, order, 0);
      BuiltSound(tree, order, 0, |primitives|);
      HeightAtMostCount(tree, |primitives|);
    }

    /**
     * `intersect`: the explicit-stack walk of the node array. It panics before a
     * build (node 0 does not exist) and when an interior node is reached with all
     * 64 stack entries in use, which takes a tree more than 65 levels tall; otherwise
     * it returns what the depth-first walk of the build tree computes.
     */
    method Intersect(ray: Ray, isect: SurfaceInteraction) returns (out: Outcome<PrimHit>)
      requires Valid()
      ensures !isBuilt ==> out.Panicked?
      ensures isBuilt && Height(tree) <= StackSize + 1 ==> out.Returned?
      ensures out.Returned? ==> isBuilt
      ensures out.Returned? && isBuilt ==>
        out.value == PrimHit(Traversal(ray, isect).hit, Traversal(ray, isect).ray, Traversal(ray, isect).isect)
    {
      if |nodes| == 0 {
        return Panicked;
      }
      BuiltSound(tree, order, 0, |primitives|);
      out := Walk(ray, isect, tree);
    }

    /**
     * The loop of `intersect` over the nodes laid out from index 0, which hold the
     * tree `t`: a node whose box the ray misses, or a leaf once its primitives are
     * tried, hands over to the top of the stack, or ends the walk when the stack is
     * empty; an interior node pushes one child and moves on to the other.
     */
    method Walk(ray: Ray, isect: SurfaceInteraction, ghost t: BuildNode) returns (out: Outcome<PrimHit>)
      requires Sound(t, |primitives|) && Laid(nodes, t, 0)
      ensures Height(t) <= StackSize + 1 ==> out.Returned?
      ensures out.Returned? ==> var st := Traverse(t, primitives, ray, isect);
        out.value == PrimHit(st.hit, st.ray, st.isect)
    {
      var hit := false;
      var r := ray;
      var si := isect;
      var invDir := InvDir(r.d);
      var dirIsNeg := DirIsNeg(invDir);
      var toVisitOffset: nat := 0;
      var currentNodeIdx: nat := 0;
      var nodesToVisit := new nat[StackSize](_ => 0);
      ghost var goal := Traverse(t, primitives, ray, isect);
      ghost var cur := t;
      ghost var pending: seq<BuildNode> := [];
      ghost var gs := Begin(ray, isect);
      ghost var h := Height(t);
      assert nodesToVisit[..0] == [];
      while true
        invariant toVisitOffset == |pending| <= StackSize
        invariant gs.hit == hit && gs.ray == r && gs.isect == si
        invariant Walking(nodesToVisit[..toVisitOffset], pending, cur, currentNodeIdx, h, invDir, dirIsNeg, gs, goal)
        decreases SizeSum(pending) + Size(cur)
      {
        MachineNode(nodes, |primitives|, pending, nodesToVisit[..toVisitOffset], cur, currentNodeIdx, h);
        var node := nodes[currentNodeIdx];
        if IntersectPWithInv(node.bounds, r, invDir, dirIsNeg) {
          if node.nPrimitives > 0 {
            hit, r, si, gs := VisitLeafNode(node, cur, hit, r, si, invDir, dirIsNeg, gs);
            var done;
            done, currentNodeIdx, toVisitOffset, pending, cur :=
              Pop(nodesToVisit, toVisitOffset, pending, cur, currentNodeIdx, h, invDir, dirIsNeg, gs, goal);
            if done {
              break;
            }
          } else if node.secondChildOffset.Some? {
            if toVisitOffset == StackSize {
              return Panicked;
            }
            var farFirst := dirIsNeg[node.axis] == 1;
            currentNodeIdx, toVisitOffset, pending, cur :=
              Push(nodesToVisit, toVisitOffset, currentNodeIdx, node.secondChildOffset.value, farFirst,
                   pending, cur, h, invDir, dirIsNeg, gs, goal);
          }
        } else {
          VisitMiss(cur, primitives, invDir, dirIsNeg, gs);
          var done;
          done, currentNodeIdx, toVisitOffset, pending, cur :=
            Pop(nodesToVisit, toVisitOffset, pending, cur, currentNodeIdx, h, invDir, dirIsNeg, gs, goal);
          if done {
            break;
          }
        }
      }
      return Returned(PrimHit(hit, r, si));
    }

    /**
     * The state of the loop of `intersect`: the stack entries and the current node lie out
     * the subtrees still to visit, and what the whole walk computes is the visit of the
     * current subtree from state `st`, followed by those on the stack from the top down.
     */
    ghost predicate Walking(stack: seq<nat>, pending: seq<BuildNode>, cur: BuildNode, idx: nat, h: nat,
                            invDir: Vector3, dirIsNeg: seq<nat>, st: TState, goal: TState)
      reads this
    {
      GoodSigns(dirIsNeg) && Machine(nodes, |primitives|, pending, stack, cur, idx, h) &&
      goal == RunStack(pending, primitives, invDir, dirIsNeg, VisitTree(cur, primitives, invDir, dirIsNeg, st))
    }

    /**
     * What `intersect` does once the current subtree is done (its box missed, or its
     * primitives tried): with an empty stack the walk is over and the state reached
     * is the result; otherwise the top entry is popped and becomes the current node,
     * and what is left is the visit of that subtree followed by the rest of the stack.
     */
    method Pop(stack: array<nat>, off: nat, ghost pending: seq<BuildNode>, ghost cur: BuildNode, ghost idx: nat,
               ghost h: nat, invDir: Vector3, dirIsNeg: seq<nat>, ghost st: TState, ghost goal: TState)
      returns (done: bool, nextIdx: nat, nextOff: nat, ghost pending': seq<BuildNode>, ghost cur': BuildNode)
      requires off == |pending| <= stack.Length && GoodSigns(dirIsNeg)
      requires Machine(nodes, |primitives|, pending, stack[..off], cur, idx, h)
      requires goal == RunStack(pending, primitives, invDir, dirIsNeg, st)
      ensures done <==> off == 0
      ensures done ==> goal == st
      ensures !done ==> nextOff == off - 1 == |pending'| && nextIdx == stack[nextOff]
      ensures !done ==> Walking(stack[..nextOff], pending', cur', nextIdx, h, invDir, dirIsNeg, st, goal)
      ensures !done ==> SizeSum(pending') + Size(cur') < SizeSum(pending) + Size(cur)
    {
      if off == 0 {
        return true, 0, off, pending, cur;
      }
      done := false;
      MachinePop(nodes, |primitives|, pending, stack[..off], cur, idx, h);
      RunStackPop(pending, primitives, invDir, dirIsNeg, st);
      nextOff := off - 1;
      assert stack[..off][..nextOff] == stack[..nextOff];
      nextIdx := stack[nextOff];
      cur', pending' := pending[nextOff], pending[..nextOff];
    }

    /**
     * The descent of `intersect` into an interior node whose box the ray meets: the
     * far child (the second one when the ray runs towards negative coordinates along
     * the split axis, the first one otherwise) is pushed and the near one becomes current.
     */
    method Push(stack: array<nat>, off: nat, idx: nat, second: nat, farFirst: bool,
                ghost pending: seq<BuildNode>, ghost cur: BuildNode, ghost h: nat,
                invDir: Vector3, dirIsNeg: seq<nat>, ghost st: TState, ghost goal: TState)
      returns (nextIdx: nat, nextOff: nat, ghost pending': seq<BuildNode>, ghost cur': BuildNode)
      modifies stack
      requires off == |pending| < stack.Length && GoodSigns(dirIsNeg)
      requires Machine(nodes, |primitives|, pending, stack[..off], cur, idx, h) && cur.nPrimitives == 0
      requires second == idx + 1 + Size(cur.left.value) && farFirst == (dirIsNeg[cur.splitAxis] == 1)
      requires IntersectPWithInv(cur.bounds, st.ray, invDir, dirIsNeg)
      requires goal == RunStack(pending, primitives, invDir, dirIsNeg, VisitTree(cur, primitives, invDir, dirIsNeg, st))
      ensures nextOff == off + 1 == |pending'|
      ensures stack[..nextOff] == old(stack[..off]) + [if farFirst then idx + 1 else second]
      ensures nextIdx == if farFirst then second else idx + 1
      ensures Walking(stack[..nextOff], pending', cur', nextIdx, h, invDir, dirIsNeg, st, goal)
      ensures SizeSum(pending') + Size(cur') < SizeSum(pending) + Size(cur)
    {
      MachinePush(nodes, |primitives|, pending, stack[..off], cur, idx, h, farFirst);
      VisitInterior(pending, cur, primitives, invDir, dirIsNeg, st);
      if farFirst {
        stack[off] := idx + 1;
        nextIdx := second;
        cur', pending' := cur.right.value, pending + [cur.left.value];
      } else {
        stack[off] := second;
        nextIdx := idx + 1;
        cur', pending' := cur.left.value, pending + [cur.right.value];
      }
      nextOff := off + 1;
      assert stack[..nextOff] == old(stack[..off]) + [stack[off]];
    }

    /** A leaf whose box the ray meets: its primitives, found from the node's offset, are tried in turn */
    method VisitLeafNode(node: LinearNode, ghost cur: BuildNode, hit: bool, r: Ray, si: SurfaceInteraction,
                         invDir: Vector3, dirIsNeg: seq<nat>, ghost gs: TState)
      returns (hitOut: bool, rOut: Ray, siOut: SurfaceInteraction, ghost gsOut: TState)
      requires Sound(cur, |primitives|) && GoodSigns(dirIsNeg) && gs.hit == hit && gs.ray == r && gs.isect == si
      requires cur.nPrimitives > 0 && node.nPrimitives == cur.nPrimitives
      requires node.primitivesOffset == Some(cur.firstPrimOffset)
      requires IntersectPWithInv(cur.bounds, r, invDir, dirIsNeg)
      ensures gsOut == VisitTree(cur, primitives, invDir, dirIsNeg, gs)
      ensures hitOut == gsOut.hit && rOut == gsOut.ray && siOut == gsOut.isect
    {
      VisitLeaf(cur, primitives, invDir, dirIsNeg, gs);
      hitOut, rOut, siOut, gsOut := hit, r, si, gs;
      if node.primitivesOffset.Some? {
        hitOut, rOut, siOut, gsOut := ScanLeaf(node.primitivesOffset.value, node.nPrimitives, hit, r, si, gs);
      }
    }

    /** The loop over a leaf's primitives in `intersect`: each is tried, and a hit sets the flag */
    method ScanLeaf(off: nat, n: nat, hit: bool, r: Ray, si: SurfaceInteraction, ghost gs: TState)
      returns (hitOut: bool, rOut: Ray, siOut: SurfaceInteraction, ghost gsOut: TState)
      requires off + n <= |primitives| && gs.hit == hit && gs.ray == r && gs.isect == si
      ensures gsOut == LeafScan(primitives, off, n, gs)
      ensures hitOut == gsOut.hit && rOut == gsOut.ray && siOut == gsOut.isect
    {
      hitOut, rOut, siOut, gsOut := hit, r, si, gs;
      for i := 0 to n
        invariant gsOut == LeafScan(primitives, off, i, gs)
        invariant hitOut == gsOut.hit && rOut == gsOut.ray && siOut == gsOut.isect
      {
        var h := primitives[off + i].intersect(rOut, siOut);
        if h.hit {
          hitOut := true;
        }
        rOut, siOut := h.ray, h.isect;
        gsOut := Test(primitives, off + i, gsOut);
      }
    }

    /** `intersect_p`: `intersect` with a scratch record, of which only the flag and the ray are kept */
    method IntersectP(ray: Ray) returns (out: Outcome<(bool, Ray)>)
      requires Valid()
      ensures !isBuilt ==> out.Panicked?
      ensures isBuilt && Height(tree) <= StackSize + 1 ==> out.Returned?
      ensures out.Returned? ==> isBuilt
      ensures out.Returned? && isBuilt ==>
        out.value == (Traversal(ray, NewInteraction()).hit, Traversal(ray, NewInteraction()).ray)
    {
      var isect := NewInteraction();
      var o := Intersect(ray, isect);
      out := if o.Panicked? then Panicked else Returned((o.value.hit, o.value.ray));
    }
  }

  /** Pushing a subtree adds its size to the stack's */
  lemma SizeSumPush(ts: seq<BuildNode>, t: BuildNode)
    ensures SizeSum(ts + [t]) == SizeSum(ts) + Size(t)
  {
    assert (ts + [t])[..|ts|] == ts;
  }
}
