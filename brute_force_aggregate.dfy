/**
 * The aggregate that tests every primitive in turn (src/shape/brute_force_aggregate.rs).
 */
module BruteForce {
  import opened Options
  import opened Floats
  import opened Rays
  import opened Bounds3
  import opened Primitives

  /** The box around a list of world bounds, folded from the empty box in list order */
  function BoundsOf(prims: seq<Primitive>): (b: Bounds3f)
    ensures NoNaNBox(b)
  {
    if prims == [] then New() else Union(BoundsOf(prims[..|prims| - 1]), prims[|prims| - 1].worldBound)
  }

  /** The folded box holds the world bound of every primitive whose bound has no NaN corner */
  lemma {:induction false} BoundsOfEncloses(prims: seq<Primitive>, i: nat)
    requires i < |prims| && NoNaNBox(prims[i].worldBound)
    ensures Encloses(BoundsOf(prims), prims[i].worldBound)
  {
    var init := prims[..|prims| - 1];
    if i < |prims| - 1 {
      assert prims[i] == init[i];
      BoundsOfEncloses(init, i);
      EnclosesTrans(BoundsOf(prims), BoundsOf(init), prims[i].worldBound);
    }
  }

  /** The state the loop of `intersect` carries from one primitive to the next */
  datatype ScanState = ScanState(hit: bool, curT: Float, ray: Ray, isect: SurfaceInteraction)

  /** What the `k`-th primitive's test returns, given the state before it */
  function Call(p: Primitive, st: ScanState): PrimHit {
    p.intersect(st.ray, NewInteraction())
  }

  /**
   * One turn of the loop: the primitive is tried against the current ray with a
   * fresh record; a hit sets the flag, and the record is kept only when its time is
   * strictly below the smallest time kept so far.
   */
  function Step(p: Primitive, st: ScanState): ScanState {
    var h := Call(p, st);
    if !h.hit then st.(ray := h.ray)
    else if Lt(h.isect.time, st.curT) then ScanState(true, h.isect.time, h.ray, h.isect)
    else st.(hit := true, ray := h.ray)
  }

  /** The state after the first `k` primitives */
  function Scan(prims: seq<Primitive>, k: nat, st0: ScanState): ScanState
    requires k <= |prims|
  {
    if k == 0 then st0 else Step(prims[k - 1], Scan(prims, k - 1, st0))
  }

  function Start(ray: Ray, isect: SurfaceInteraction): ScanState {
    ScanState(false, PosInf, ray, isect)
  }

  /** The `j`-th primitive's test as the loop actually makes it */
  function CallAt(prims: seq<Primitive>, j: nat, st0: ScanState): PrimHit
    requires j < |prims|
  {
    Call(prims[j], Scan(prims, j, st0))
  }

  /** The aggregate reports a hit exactly when one of the primitives' tests, made in order, hit */
  lemma {:induction false} ScanHitIff(prims: seq<Primitive>, k: nat, ray: Ray, isect: SurfaceInteraction)
    requires k <= |prims|
    ensures Scan(prims, k, Start(ray, isect)).hit <==> exists j :: 0 <= j < k && CallAt(prims, j, Start(ray, isect)).hit
  {
    if k > 0 {
      ScanHitIff(prims, k - 1, ray, isect);
      var h := CallAt(prims, k - 1, Start(ray, isect));
      if h.hit {
        assert CallAt(prims, k - 1, Start(ray, isect)).hit;
      }
    }
  }

  /** Without a hit the caller's record is left exactly as it was */
  lemma {:induction false} ScanMissKeepsRecord(prims: seq<Primitive>, k: nat, ray: Ray, isect: SurfaceInteraction)
    requires k <= |prims|
    ensures !Scan(prims, k, Start(ray, isect)).hit ==>
      Scan(prims, k, Start(ray, isect)).isect == isect && Scan(prims, k, Start(ray, isect)).curT == PosInf
  {
    if k > 0 {
      ScanMissKeepsRecord(prims, k - 1, ray, isect);
    }
  }

  /**
   * When every primitive keeps the primitive contract, the scan changes only the
   * ray's `tMax`: not at all without a hit, and never upward with one.
   */
  lemma {:induction false} ScanRespects(prims: seq<Primitive>, k: nat, ray: Ray, isect: SurfaceInteraction)
    requires k <= |prims|
    requires forall j :: 0 <= j < |prims| ==> Respects(prims[j])
    ensures var st := Scan(prims, k, Start(ray, isect));
      st.ray == ray.(tMax := st.ray.tMax) &&
      (!st.hit ==> st.ray == ray) &&
      (st.hit ==> Le(st.ray.tMax, ray.tMax))
  {
    if k > 0 {
      ScanRespects(prims, k - 1, ray, isect);
      var prev := Scan(prims, k - 1, Start(ray, isect));
      var h := Call(prims[k - 1], prev);
      assert Respects(prims[k - 1]);
      assert HitRespects(prev.ray, NewInteraction(), h);
      if h.hit && prev.hit {
        LeTrans(h.ray.tMax, prev.ray.tMax, ray.tMax);
      }
    }
  }

  /**
   * The kept record is the first hit whose time is a strict minimum: it came from
   * some hitting primitive `j`, every earlier hit had a strictly larger time, and
   * no hit up to `k` had a strictly smaller one.
   */
  lemma {:induction false} ScanKeepsFirstEarliest(prims: seq<Primitive>, k: nat, ray: Ray, isect: SurfaceInteraction)
    requires k <= |prims|
    requires forall j :: 0 <= j < k ==> CallAt(prims, j, Start(ray, isect)).isect.time.Fin?
    ensures var st := Scan(prims, k, Start(ray, isect));
      st.hit ==> exists j :: 0 <= j < k && Kept(prims, j, k, ray, isect)
  {
    if k > 0 {
      var st0 := Start(ray, isect);
      ScanKeepsFirstEarliest(prims, k - 1, ray, isect);
      ScanMissKeepsRecord(prims, k - 1, ray, isect);
      var prev := Scan(prims, k - 1, st0);
      var h := CallAt(prims, k - 1, st0);
      if h.hit && Lt(h.isect.time, prev.curT) {
        if prev.hit {
          var j :| 0 <= j < k - 1 && Kept(prims, j, k - 1, ray, isect);
          forall i | 0 <= i < k - 1 && CallAt(prims, i, st0).hit
            ensures Lt(h.isect.time, CallAt(prims, i, st0).isect.time)
          {
            LtLeTrans(h.isect.time, prev.curT, CallAt(prims, i, st0).isect.time);
          }
        } else {
          ScanHitIff(prims, k - 1, ray, isect);
        }
        assert Kept(prims, k - 1, k, ray, isect);
      } else if h.hit {
        if prev.hit {
          var j :| 0 <= j < k - 1 && Kept(prims, j, k - 1, ray, isect);
          LeTotal(prev.curT, h.isect.time);
          assert Kept(prims, j, k, ray, isect);
        }
      } else if prev.hit {
        var j :| 0 <= j < k - 1 && Kept(prims, j, k - 1, ray, isect);
        assert Kept(prims, j, k, ray, isect);
      }
    }
  }

  /**
   * After the first `k` primitives the kept record is the `j`-th one's: that test
   * hit, the loop's smallest time is its time, earlier hits were strictly later in
   * time and later hits up to `k` were not strictly earlier.
   */
  ghost predicate Kept(prims: seq<Primitive>, j: nat, k: nat, ray: Ray, isect: SurfaceInteraction)
    requires j < k <= |prims|
  {
    var st0 := Start(ray, isect);
    var h := CallAt(prims, j, st0);
    h.hit && Scan(prims, k, st0).isect == h.isect && Scan(prims, k, st0).curT == h.isect.time &&
    (forall i :: 0 <= i < j && CallAt(prims, i, st0).hit ==> Lt(h.isect.time, CallAt(prims, i, st0).isect.time)) &&
    (forall i :: j < i < k && CallAt(prims, i, st0).hit ==> Le(h.isect.time, CallAt(prims, i, st0).isect.time))
  }

  /**
   * When every record carries the same finite time (the sphere stamps the ray's
   * time on its record), the aggregate keeps the record of the FIRST primitive hit
   * in list order, even though later hits have shrunk the ray further.
   */
  lemma FirstHitKept(prims: seq<Primitive>, ray: Ray, isect: SurfaceInteraction, t: real, j: nat)
    requires j < |prims|
    requires forall i :: 0 <= i < |prims| ==> CallAt(prims, i, Start(ray, isect)).isect.time == Fin(t)
    requires CallAt(prims, j, Start(ray, isect)).hit
    requires forall i :: 0 <= i < j ==> !CallAt(prims, i, Start(ray, isect)).hit
    ensures Scan(prims, |prims|, Start(ray, isect)).isect == CallAt(prims, j, Start(ray, isect)).isect
  {
    var st0 := Start(ray, isect);
    ScanHitIff(prims, |prims|, ray, isect);
    ScanKeepsFirstEarliest(prims, |prims|, ray, isect);
    var k :| 0 <= k < |prims| && Kept(prims, k, |prims|, ray, isect);
    assert k == j;
  }

  /** Ownership of a growing list of primitives and of the box around them */
  class BruteForceAggregate {
    var prims: seq<Primitive>
    var bounds: Bounds3f

    ghost predicate Valid()
      reads this
    {
      bounds == BoundsOf(prims)
    }

    /** `new`: no primitives, the empty box */
    constructor ()
      ensures Valid() && prims == [] && bounds == New()
    {
      prims := [];
      bounds := New();
    }

    /** `add_primitive`: grow the box by the primitive's bound, then append it */
    method AddPrimitive(p: Primitive)
      requires Valid()
      modifies this
      ensures Valid()
      ensures prims == old(prims) + [p]
      ensures bounds == Union(old(bounds), p.worldBound)
    {
      bounds := Union(bounds, p.worldBound);
      prims := prims + [p];
      assert prims[..|prims| - 1] == old(prims);
    }

    /** `world_bound`: the stored box, which holds every primitive's bound */
    function WorldBound(): (b: Bounds3f)
      reads this
      requires Valid()
      ensures forall i :: 0 <= i < |prims| && NoNaNBox(prims[i].worldBound) ==> Encloses(b, prims[i].worldBound)
    {
      forall i | 0 <= i < |prims| && NoNaNBox(prims[i].worldBound) ensures Encloses(bounds, prims[i].worldBound) {
        BoundsOfEncloses(prims, i);
      }
      bounds
    }

    /** `get_area_light` and `get_material` panic on an aggregate */
    function GetAreaLight(): Outcome<Option<AreaLightId>> { Panicked }

    function GetMaterial(): Outcome<Option<MaterialId>> { Panicked }

    /** `compute_scattering_function` does nothing on an aggregate */
    function ComputeScatteringFunction(isect: SurfaceInteraction): SurfaceInteraction { isect }

    /**
     * `intersect`: every primitive is tried, in list order, against the ray as
     * the earlier tests left it, each with a fresh record.
     */
    method Intersect(ray: Ray, isect: SurfaceInteraction) returns (hit: bool, rayOut: Ray, isectOut: SurfaceInteraction)
      ensures var st := Scan(prims, |prims|, Start(ray, isect));
        hit == st.hit && rayOut == st.ray && isectOut == st.isect
    {
      hit := false;
      var curT := PosInf;
      rayOut := ray;
      isectOut := isect;
      for i := 0 to |prims|
        invariant Scan(prims, i, Start(ray, isect)) == ScanState(hit, curT, rayOut, isectOut)
      {
        var h := prims[i].intersect(rayOut, NewInteraction());
        rayOut := h.ray;
        if h.hit {
          hit := true;
          if Lt(h.isect.time, curT) {
            curT := h.isect.time;
            isectOut := h.isect;
          }
        }
      }
    }

    /** `intersect_p`: `intersect` with a scratch record */
    method IntersectP(ray: Ray) returns (hit: bool, rayOut: Ray)
      ensures var st := Scan(prims, |prims|, Start(ray, NewInteraction()));
        hit == st.hit && rayOut == st.ray
    {
      var scratch;
      hit, rayOut, scratch := Intersect(ray, NewInteraction());
    }
  }

  /** The brute-force scan as a primitive in its own right */
  function AsPrimitive(prims: seq<Primitive>, id: nat): Primitive {
    Primitive(id, BoundsOf(prims), (r, si) =>
      var st := Scan(prims, |prims|, Start(r, si)); PrimHit(st.hit, st.ray, st.isect))
  }

  /** An aggregate of primitives that keep the primitive contract keeps it too */
  lemma AggregateRespects(prims: seq<Primitive>, id: nat)
    requires forall j :: 0 <= j < |prims| ==> Respects(prims[j])
    ensures Respects(AsPrimitive(prims, id))
  {
    forall r, si ensures HitRespects(r, si, AsPrimitive(prims, id).intersect(r, si)) {
      ScanRespects(prims, |prims|, r, si);
      ScanMissKeepsRecord(prims, |prims|, r, si);
    }
  }
}
