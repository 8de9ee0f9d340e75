/**
 * The primitive interface (src/shape/primitive.rs) and the part of a surface
 * interaction (src/interaction/) that primitives read and write.
 *
 * Shapes, materials and area lights are shared through reference-counted
 * handles in the renderer; here each is known by the integer naming that
 * handle. A primitive's `intersect` takes the ray and the interaction record
 * by mutable reference; here it takes both as values and hands back the new
 * ray and the new record together with the boolean it returns.
 */
module Primitives {
  import opened Options
  import opened Floats
  import opened Vectors
  import opened Media
  import opened Rays
  import opened Bounds3

  type ShapeId = nat
  type MaterialId = nat
  type AreaLightId = nat

  /**
   * The fields of `SurfaceInteraction` that the primitives and aggregates touch:
   * the hit point, the time, the medium interface and the shape that was hit.
   */
  datatype SurfaceInteraction = SurfaceInteraction(
    p: Point3, time: Float, mediumInterface: Option<MediumInterface>, shape: Option<ShapeId>)

  /** `SurfaceInteraction::new`: the blank record, at the origin and time zero */
  function NewInteraction(): (si: SurfaceInteraction)
    ensures si.time == Zero && si.mediumInterface.None? && si.shape.None?
  {
    SurfaceInteraction(Origin3, Zero, None, None)
  }

  /** What a shape reports on a hit: the ray parameter and a fresh interaction record */
  datatype ShapeHit = ShapeHit(tHit: Float, isect: SurfaceInteraction)

  /**
   * A shape as the primitives see it: its world bound and its ray test, which
   * yields `None` on a miss (leaving the caller's record alone) and otherwise the
   * hit parameter and the whole new record.
   */
  datatype Shape = Shape(id: ShapeId, worldBound: Bounds3f, intersect: Ray -> Option<ShapeHit>)

  /** The sphere's promise about a hit: a finite parameter in (0, tMax] */
  predicate ValidShapeHit(r: Ray, h: ShapeHit) {
    h.tHit.Fin? && Lt(Zero, h.tHit) && Le(h.tHit, r.tMax)
  }

  ghost predicate ShapeContract(s: Shape) {
    forall r :: s.intersect(r).Some? ==> ValidShapeHit(r, s.intersect(r).value)
  }

  /** The outcome of a primitive's `intersect`: the returned flag, the ray and the record afterwards */
  datatype PrimHit = PrimHit(hit: bool, ray: Ray, isect: SurfaceInteraction)

  datatype Primitive = Primitive(id: nat, worldBound: Bounds3f, intersect: (Ray, SurfaceInteraction) -> PrimHit)

  /**
   * The contract every primitive in this renderer keeps: a miss changes neither
   * the ray nor the record; a hit changes only the ray's `tMax`, and never raises it.
   */
  predicate HitRespects(r: Ray, si: SurfaceInteraction, h: PrimHit) {
    (!h.hit ==> h.ray == r && h.isect == si) &&
    (h.hit ==> h.ray == r.(tMax := h.ray.tMax) && Le(h.ray.tMax, r.tMax))
  }

  ghost predicate Respects(p: Primitive) {
    forall r, si :: HitRespects(r, si, p.intersect(r, si))
  }

  /** Several hits in a row only ever lower `tMax`, and leave the rest of the ray alone */
  lemma RespectsChain(r0: Ray, r1: Ray, r2: Ray)
    requires r1 == r0.(tMax := r1.tMax) && (r1 == r0 || Le(r1.tMax, r0.tMax))
    requires r2 == r1.(tMax := r2.tMax) && (r2 == r1 || Le(r2.tMax, r1.tMax))
    ensures r2 == r0.(tMax := r2.tMax) && (r2 == r0 || Le(r2.tMax, r0.tMax))
  {
    if r2 != r0 && r1 != r0 && r2 != r1 {
      LeTrans(r2.tMax, r1.tMax, r0.tMax);
    }
  }
}
