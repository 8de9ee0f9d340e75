/**
 * A shape together with its material, area light and medium interface
 * (src/shape/geometric_primitive.rs).
 */
module GeometricPrimitives {
  import opened Options
  import opened Floats
  import opened Media
  import opened Rays
  import opened Bounds3
  import opened Primitives

  datatype GeometricPrimitive = GeometricPrimitive(
    shape: Shape,
    material: Option<MaterialId>,
    areaLight: Option<AreaLightId>,
    mediumInterface: Option<MediumInterface>)

  function WorldBound(gp: GeometricPrimitive): Bounds3f { gp.shape.worldBound }

  function GetAreaLight(gp: GeometricPrimitive): Option<AreaLightId> { gp.areaLight }

  function GetMaterial(gp: GeometricPrimitive): Option<MaterialId> { gp.material }

  /**
   * The medium interface left in the record after a hit. A primitive without an
   * interface keeps what the shape wrote; one whose interface is a transition
   * records that interface; otherwise the record gets the ray's own medium on
   * both sides, or none at all when the ray travels in no medium.
   */
  function HitMedium(gp: GeometricPrimitive, r: Ray, written: Option<MediumInterface>): Option<MediumInterface> {
    match gp.mediumInterface
    case None => written
    case Some(mi) =>
      if IsMediumTransition(mi) then gp.mediumInterface
      else if r.medium.Some? then Some(Media.InitOne(r.medium.value))
      else None
  }

  /**
   * `intersect`: on a shape miss neither the ray nor the record changes; on a hit
   * the ray's `tMax` becomes the hit parameter and the record is the shape's,
   * stamped with this shape and the medium chosen by `HitMedium`.
   */
  function Intersect(gp: GeometricPrimitive, r: Ray, si: SurfaceInteraction): (h: PrimHit)
    ensures h.hit <==> gp.shape.intersect(r).Some?
    ensures !h.hit ==> h.ray == r && h.isect == si
    ensures h.hit ==> h.ray == r.(tMax := gp.shape.intersect(r).value.tHit)
    ensures h.hit ==>
      var s := gp.shape.intersect(r).value.isect;
      h.isect == s.(shape := Some(gp.shape.id), mediumInterface := HitMedium(gp, r, s.mediumInterface))
  {
    match gp.shape.intersect(r)
    case None => PrimHit(false, r, si)
    case Some(sh) =>
      var isect := sh.isect.(shape := Some(gp.shape.id));
      PrimHit(true, r.(tMax := sh.tHit), isect.(mediumInterface := HitMedium(gp, r, isect.mediumInterface)))
  }

  /** `intersect_p`: the shape's own test; the ray is not changed */
  function IntersectP(gp: GeometricPrimitive, r: Ray): bool {
    gp.shape.intersect(r).Some?
  }

  /** `compute_scattering_function`: the material's effect on the record, or nothing without a material */
  function ComputeScatteringFunction(
    gp: GeometricPrimitive, si: SurfaceInteraction, effect: (MaterialId, SurfaceInteraction) -> SurfaceInteraction)
    : (out: SurfaceInteraction)
    ensures gp.material.None? ==> out == si
    ensures gp.material.Some? ==> out == effect(gp.material.value, si)
  {
    match gp.material
    case None => si
    case Some(m) => effect(m, si)
  }

  /** The geometric primitive seen through the primitive interface */
  function AsPrimitive(gp: GeometricPrimitive): Primitive {
    Primitive(gp.shape.id, WorldBound(gp), (r, si) => Intersect(gp, r, si))
  }

  /** The occlusion test answers exactly as `intersect` would, whatever record it is given */
  lemma IntersectPAgrees(gp: GeometricPrimitive, r: Ray, si: SurfaceInteraction)
    ensures IntersectP(gp, r) == Intersect(gp, r, si).hit
    ensures IntersectP(gp, r) == AsPrimitive(gp).intersect(r, si).hit
  {
  }

  /** A shape that keeps its hits inside (0, tMax] makes a primitive that keeps the primitive contract */
  lemma GeometricRespects(gp: GeometricPrimitive)
    requires ShapeContract(gp.shape)
    ensures Respects(AsPrimitive(gp))
  {
    forall r, si ensures HitRespects(r, si, AsPrimitive(gp).intersect(r, si)) {
      var h := Intersect(gp, r, si);
      if h.hit {
        assert ValidShapeHit(r, gp.shape.intersect(r).value);
      }
    }
  }

  /** A successful hit leaves a strictly smaller, finite, positive `tMax` bound */
  lemma HitShrinksRay(gp: GeometricPrimitive, r: Ray, si: SurfaceInteraction)
    requires ShapeContract(gp.shape)
    ensures var h := Intersect(gp, r, si);
      h.hit ==> h.ray.tMax.Fin? && 0.0 < h.ray.tMax.r && Le(h.ray.tMax, r.tMax)
  {
    if gp.shape.intersect(r).Some? {
      assert ValidShapeHit(r, gp.shape.intersect(r).value);
    }
  }

  /**
   * After a hit on a primitive with an interface, the record describes a medium
   * transition exactly when the primitive's own interface does; when it does not,
   * the record is either empty or has the ray's medium on both sides.
   */
  lemma HitMediumTransition(gp: GeometricPrimitive, r: Ray, si: SurfaceInteraction)
    requires gp.mediumInterface.Some?
    ensures var h := Intersect(gp, r, si);
      h.hit ==>
        ((h.isect.mediumInterface.Some? && IsMediumTransition(h.isect.mediumInterface.value))
          <==> IsMediumTransition(gp.mediumInterface.value))
    ensures var h := Intersect(gp, r, si);
      h.hit && !IsMediumTransition(gp.mediumInterface.value) ==>
        (h.isect.mediumInterface.None? <==> r.medium.None?) &&
        (h.isect.mediumInterface.Some? ==>
           InsideOutsideSame(h.isect.mediumInterface.value) && h.isect.mediumInterface.value.inside == r.medium)
  {
  }
}
