/**
 * What `recursively_build` (src/shape/bounding_volume_heirarchy.rs) produces, stated
 * over the records as they stand when the build is over: the shape of the tree, the
 * bound of every node and the order in which the leaves hand their primitives to the
 * ordered list.
 */
module BvhBuild {
  import opened Floats
  import opened Bounds3
  import opened Primitives
  import opened BvhNodes

  /**
   * `t` is built over the run of records `s`, its leaves' primitives going to the
   * ordered list from position `first` on. A leaf covers the whole run, starts at
   * `first` and is bounded by the run's bound. An interior node splits the run after
   * as many records as its first child holds, into two non-empty runs built the same
   * way, and is bounded by the union of its children's bounds.
   */
  ghost predicate Built(t: BuildNode, s: seq<PrimInfo>, first: nat)
    decreases t
  {
    if t.nPrimitives > 0 then
      t.left.None? && t.right.None? && t.firstPrimOffset == first && t.nPrimitives == |s| &&
      t.bounds == InfoBounds(s)
    else
      t.splitAxis < 3 && t.left.Some? && t.right.Some? &&
      var k := Count(t.left.value);
      0 < k < |s| &&
      Built(t.left.value, s[..k], first) && Built(t.right.value, s[k..], first + k) &&
      t.bounds == Union(t.left.value.bounds, t.right.value.bounds)
  }

  /** A built tree holds exactly the records of its run */
  lemma {:induction false} BuiltCount(t: BuildNode, s: seq<PrimInfo>, first: nat)
    requires Built(t, s, first)
    ensures Count(t) == |s| > 0
    decreases t
  {
    if t.nPrimitives == 0 {
      var k := Count(t.left.value);
      BuiltCount(t.right.value, s[k..], first + k);
    }
  }

  /** A built tree has the shape the traversal relies on, with leaves inside the ordered list */
  lemma {:induction false} BuiltSound(t: BuildNode, s: seq<PrimInfo>, first: nat, n: nat)
    requires Built(t, s, first) && first + |s| <= n
    ensures Sound(t, n)
    decreases t
  {
    if t.nPrimitives == 0 {
      var k := Count(t.left.value);
      BuiltSound(t.left.value, s[..k], first, n);
      BuiltSound(t.right.value, s[k..], first + k, n);
    }
  }

  predicate NoNaNBounds(s: seq<PrimInfo>) {
    forall i :: 0 <= i < |s| ==> NoNaNBox(s[i].bounds)
  }

  /** The bound of a run of records is the union of the bounds of its two parts */
  lemma {:induction false} InfoBoundsConcat(a: seq<PrimInfo>, b: seq<PrimInfo>)
    requires NoNaNBounds(a + b)
    ensures InfoBounds(a + b) == Union(InfoBounds(a), InfoBounds(b))
    decreases |b|
  {
    if b == [] {
      assert a + b == a;
      UnionWithEmpty(InfoBounds(a));
    } else {
      var init := b[..|b| - 1];
      var last := b[|b| - 1];
      assert (a + b)[..|a + b| - 1] == a + init;
      assert (a + b)[|a + b| - 1] == last;
      assert NoNaNBox(last.bounds);
      InfoBoundsConcat(a, init);
      UnionAssociative(InfoBounds(a), InfoBounds(init), last.bounds);
    }
  }

  /** Every node's bound is the bound of its whole run, whatever the splits */
  lemma {:induction false} BuiltBounds(t: BuildNode, s: seq<PrimInfo>, first: nat)
    requires Built(t, s, first) && NoNaNBounds(s)
    ensures t.bounds == InfoBounds(s)
    decreases t
  {
    if t.nPrimitives == 0 {
      var k := Count(t.left.value);
      assert s == s[..k] + s[k..];
      BuiltBounds(t.left.value, s[..k], first);
      BuiltBounds(t.right.value, s[k..], first + k);
      InfoBoundsConcat(s[..k], s[k..]);
    }
  }

  /** The bound of a run holds the bound of each of its records */
  lemma {:induction false} InfoBoundsEncloses(s: seq<PrimInfo>, i: nat)
    requires i < |s| && NoNaNBox(s[i].bounds)
    ensures Encloses(InfoBounds(s), s[i].bounds)
    decreases |s|
  {
    var init := s[..|s| - 1];
    if i < |s| - 1 {
      assert s[i] == init[i];
      InfoBoundsEncloses(init, i);
      EnclosesTrans(InfoBounds(s), InfoBounds(init), s[i].bounds);
    }
  }

  /** Hence the root's bound holds the bound of every record the tree was built over */
  lemma BuiltEncloses(t: BuildNode, s: seq<PrimInfo>, first: nat, i: nat)
    requires Built(t, s, first) && NoNaNBounds(s) && i < |s|
    ensures Encloses(t.bounds, s[i].bounds)
  {
    BuiltBounds(t, s, first);
    InfoBoundsEncloses(s, i);
  }

  /** The primitives of two adjacent runs are those of each run, one after the other */
  lemma PrimsOfConcat(prims: seq<Primitive>, a: seq<PrimInfo>, b: seq<PrimInfo>)
    requires forall x :: x in a + b ==> x.primitiveNum < |prims|
    ensures PrimsOf(prims, a + b) == PrimsOf(prims, a) + PrimsOf(prims, b)
  {
    assert forall x :: x in a ==> x in a + b;
    assert forall x :: x in b ==> x in a + b;
  }

  /** The records numbered in list order name the list itself */
  lemma PrimsOfInfos(prims: seq<Primitive>)
    ensures PrimsOf(prims, Infos(prims)) == prims
  {
  }

  /** Taking one entry out of a sequence takes it out of its multiset */
  lemma RemoveOne<T>(b: seq<T>, j: nat)
    requires j < |b|
    ensures multiset(b) == multiset(b[..j] + b[j + 1..]) + multiset{b[j]}
  {
    assert b == b[..j] + [b[j]] + b[j + 1..];
  }

  lemma Cancel<T>(m1: multiset<T>, m2: multiset<T>, x: T)
    requires m1 + multiset{x} == m2 + multiset{x}
    ensures m1 == m2
  {
    forall y ensures m1[y] == m2[y] {
      assert (m1 + multiset{x})[y] == (m2 + multiset{x})[y];
    }
  }

  /** The primitives named by a run with one record taken out */
  lemma PrimsOfRemoveOne(prims: seq<Primitive>, b: seq<PrimInfo>, j: nat)
    requires j < |b| && forall x :: x in b ==> x.primitiveNum < |prims|
    ensures forall x :: x in b[..j] + b[j + 1..] ==> x.primitiveNum < |prims|
    ensures multiset(PrimsOf(prims, b)) ==
      multiset(PrimsOf(prims, b[..j] + b[j + 1..])) + multiset{prims[b[j].primitiveNum]}
  {
    var rest := b[..j] + b[j + 1..];
    assert forall x :: x in rest ==> x in b;
    var ps := PrimsOf(prims, b);
    assert PrimsOf(prims, rest) == ps[..j] + ps[j + 1..];
    RemoveOne(ps, j);
  }

  /** Rearranging the records rearranges the primitives they name */
  lemma {:induction false} PrimsOfPermutation(prims: seq<Primitive>, a: seq<PrimInfo>, b: seq<PrimInfo>)
    requires multiset(a) == multiset(b)
    requires forall x :: x in a ==> x.primitiveNum < |prims|
    ensures forall x :: x in b ==> x.primitiveNum < |prims|
    ensures multiset(PrimsOf(prims, a)) == multiset(PrimsOf(prims, b))
    decreases |a|
  {
    assert forall x :: x in b ==> x in multiset(a);
    if a != [] {
      var last := a[|a| - 1];
      var init := a[..|a| - 1];
      assert last in multiset(b);
      var j :| 0 <= j < |b| && b[j] == last;
      var rest := b[..j] + b[j + 1..];
      RemoveOne(a, |a| - 1);
      RemoveOne(b, j);
      assert a[..|a| - 1] + a[|a|..] == init;
      Cancel(multiset(init), multiset(rest), last);
      assert forall x :: x in init ==> x in a;
      PrimsOfPermutation(prims, init, rest);
      PrimsOfRemoveOne(prims, a, |a| - 1);
      PrimsOfRemoveOne(prims, b, j);
    }
  }
}
