/**
 * The records the bounding volume hierarchy is built from and flattened into
 * (src/shape/bounding_volume_heirarchy.rs): per-primitive build information,
 * the linked build tree and the linear node array.
 */
module BvhNodes {
  import opened Options
  import opened Floats
  import opened Vectors
  import opened Bounds3
  import opened Primitives

  /** `BVHPrimitiveInfo`: a primitive's index in the input list, its bound and the bound's centre */
  datatype PrimInfo = PrimInfo(primitiveNum: nat, bounds: Bounds3f, centroid: Point3)

  /** `BVHPrimitiveInfo::init`: the centroid is the midpoint of the bound's corners */
  function InitInfo(primitiveNum: nat, bounds: Bounds3f): (info: PrimInfo)
    ensures info.primitiveNum == primitiveNum && info.bounds == bounds
    ensures FiniteBox(bounds) ==> Finite3(info.centroid)
    ensures FiniteBox(bounds) && NonEmpty(bounds) ==> Inside(bounds, info.centroid)
  {
    var c := Center3(bounds.pMin, bounds.pMax);
    assert FiniteBox(bounds) ==>
      c == V3(Fin((bounds.pMin.x.r + bounds.pMax.x.r) * 0.5),
              Fin((bounds.pMin.y.r + bounds.pMax.y.r) * 0.5),
              Fin((bounds.pMin.z.r + bounds.pMax.z.r) * 0.5));
    PrimInfo(primitiveNum, bounds, c)
  }

  /** What the build needs of every record: a finite bound, a finite centroid and a valid index */
  predicate GoodInfo(info: PrimInfo, n: nat) {
    FiniteBox(info.bounds) && Finite3(info.centroid) && info.primitiveNum < n
  }

  predicate AllGood(s: seq<PrimInfo>, n: nat) {
    forall x :: x in s ==> GoodInfo(x, n)
  }

  /** The box around the bounds of a run of records, folded from the empty box in order */
  function InfoBounds(s: seq<PrimInfo>): (b: Bounds3f)
    ensures NoNaNBox(b)
  {
    if s == [] then New() else Union(InfoBounds(s[..|s| - 1]), s[|s| - 1].bounds)
  }

  /** The box around the centroids of a run of records, folded from the empty box in order */
  function CentroidBounds(s: seq<PrimInfo>): (b: Bounds3f)
  {
    if s == [] then New() else UnionPt(CentroidBounds(s[..|s| - 1]), s[|s| - 1].centroid)
  }

  /** The primitives a run of records names, in the order of the records */
  function PrimsOf(prims: seq<Primitive>, s: seq<PrimInfo>): (r: seq<Primitive>)
    requires forall x :: x in s ==> x.primitiveNum < |prims|
    ensures |r| == |s|
    ensures forall i :: 0 <= i < |s| ==> r[i] == prims[s[i].primitiveNum]
  {
    seq(|s|, i requires 0 <= i < |s| => prims[s[i].primitiveNum])
  }

  /** The records for a list of primitives, numbered in list order */
  function Infos(prims: seq<Primitive>): (s: seq<PrimInfo>)
    ensures |s| == |prims|
    ensures forall i :: 0 <= i < |s| ==> s[i] == InitInfo(i, prims[i].worldBound)
  {
    seq(|prims|, i requires 0 <= i < |prims| => InitInfo(i, prims[i].worldBound))
  }

  /** `BVHBuildNode`: a leaf names a run of the ordered primitives, an interior node has children */
  datatype BuildNode = BuildNode(
    bounds: Bounds3f,
    splitAxis: nat,
    firstPrimOffset: nat,
    nPrimitives: nat,
    left: Option<BuildNode>,
    right: Option<BuildNode>)

  /** `BVHBuildNode::new` */
  function NewBuildNode(): BuildNode {
    BuildNode(New(), 0, 0, 0, None, None)
  }

  /** `init_leaf`: a leaf over `n` primitives from `first` on, with bound `b` */
  function InitLeaf(node: BuildNode, first: nat, n: nat, b: Bounds3f): (leaf: BuildNode)
    ensures leaf.left.None? && leaf.right.None?
    ensures leaf.firstPrimOffset == first && leaf.nPrimitives == n && leaf.bounds == b
    ensures leaf.splitAxis == node.splitAxis
  {
    node.(firstPrimOffset := first, nPrimitives := n, bounds := b, left := None, right := None)
  }

  /**
   * `init_interior`: the node's bound becomes the union of the children present,
   * and stays as it was when there is none.
   */
  function InitInterior(node: BuildNode, axis: nat, left: Option<BuildNode>, right: Option<BuildNode>)
    : (inner: BuildNode)
    ensures inner.nPrimitives == 0 && inner.splitAxis == axis && inner.left == left && inner.right == right
    ensures left.Some? && right.Some? && NoNaNBox(left.value.bounds) && NoNaNBox(right.value.bounds) ==>
      Encloses(inner.bounds, left.value.bounds) && Encloses(inner.bounds, right.value.bounds)
    ensures left.Some? && right.None? ==> inner.bounds == left.value.bounds
    ensures left.None? && right.Some? ==> inner.bounds == right.value.bounds
    ensures left.None? && right.None? ==> inner.bounds == node.bounds
  {
    var b :=
      if left.Some? && right.Some? then Union(left.value.bounds, right.value.bounds)
      else if left.Some? then left.value.bounds
      else if right.Some? then right.value.bounds
      else node.bounds;
    node.(splitAxis := axis, nPrimitives := 0, bounds := b, left := left, right := right)
  }

  /** The number of nodes in a tree, which is also the number of linear nodes it flattens into */
  function Size(t: BuildNode): (n: nat)
    ensures n >= 1
  {
    1 + SizeOpt(t.left) + SizeOpt(t.right)
  }

  function SizeOpt(t: Option<BuildNode>): nat {
    match t
    case None => 0
    case Some(c) => Size(c)
  }

  /** The number of primitives under a tree */
  function Count(t: BuildNode): nat {
    if t.nPrimitives > 0 then t.nPrimitives
    else CountOpt(t.left) + CountOpt(t.right)
  }

  function CountOpt(t: Option<BuildNode>): nat {
    match t
    case None => 0
    case Some(c) => Count(c)
  }

  /** The number of nodes on the longest path from the root to a leaf */
  function Height(t: BuildNode): (h: nat)
    ensures h >= 1
  {
    var l := HeightOpt(t.left);
    var r := HeightOpt(t.right);
    1 + (if l < r then r else l)
  }

  function HeightOpt(t: Option<BuildNode>): nat {
    match t
    case None => 0
    case Some(c) => Height(c)
  }

  /**
   * The shape every tree the build produces has: leaves hold at least one primitive
   * within the first `n`, interior nodes hold none, split along an axis and have
   * both children.
   */
  predicate Sound(t: BuildNode, n: nat) {
    if t.nPrimitives > 0 then
      t.firstPrimOffset + t.nPrimitives <= n && t.left.None? && t.right.None?
    else
      t.splitAxis < 3 && t.left.Some? && t.right.Some? && Sound(t.left.value, n) && Sound(t.right.value, n)
  }

  /** A sound tree is never taller than the number of primitives it holds */
  lemma {:induction false} HeightAtMostCount(t: BuildNode, n: nat)
    requires Sound(t, n)
    ensures Height(t) <= Count(t)
  {
    if t.nPrimitives == 0 {
      HeightAtMostCount(t.left.value, n);
      HeightAtMostCount(t.right.value, n);
      CountPositive(t.left.value, n);
      CountPositive(t.right.value, n);
    }
  }

  lemma {:induction false} CountPositive(t: BuildNode, n: nat)
    requires Sound(t, n)
    ensures Count(t) >= 1
  {
    if t.nPrimitives == 0 {
      CountPositive(t.left.value, n);
    }
  }

  /** `LinearBVHNode`: a node of the flattened, depth-first array */
  datatype LinearNode = LinearNode(
    bounds: Bounds3f,
    primitivesOffset: Option<nat>,
    secondChildOffset: Option<nat>,
    nPrimitives: nat,
    axis: nat)

  /** `LinearBVHNode::new` */
  function NewLinearNode(): LinearNode {
    LinearNode(New(), None, None, 0, 0)
  }

  /**
   * The tree `t` is laid out depth first from index `i` of `ns`: each node's
   * bound, a leaf's run of primitives, an interior node's axis, its first child
   * right after it and its second child after the whole first subtree.
   */
  ghost predicate Laid(ns: seq<LinearNode>, t: BuildNode, i: nat)
    decreases t
  {
    i + Size(t) <= |ns| &&
    ns[i].bounds == t.bounds && ns[i].nPrimitives == t.nPrimitives &&
    if t.nPrimitives > 0 then
      ns[i].primitivesOffset == Some(t.firstPrimOffset)
    else
      ns[i].axis == t.splitAxis &&
      (t.left.Some? ==> Laid(ns, t.left.value, i + 1)) &&
      (t.right.Some? ==>
        ns[i].secondChildOffset == Some(i + 1 + SizeOpt(t.left)) &&
        Laid(ns, t.right.value, i + 1 + SizeOpt(t.left)))
  }

  /** A layout depends only on the entries it occupies */
  lemma {:induction false} LaidFrame(ns: seq<LinearNode>, ms: seq<LinearNode>, t: BuildNode, i: nat)
    requires Laid(ns, t, i)
    requires |ms| == |ns|
    requires forall k :: i <= k < i + Size(t) ==> ms[k] == ns[k]
    ensures Laid(ms, t, i)
    decreases t
  {
    if t.nPrimitives == 0 {
      if t.left.Some? {
        LaidFrame(ns, ms, t.left.value, i + 1);
      }
      if t.right.Some? {
        assert Size(t) == 1 + SizeOpt(t.left) + Size(t.right.value);
        LaidFrame(ns, ms, t.right.value, i + 1 + SizeOpt(t.left));
      }
    }
  }
}
