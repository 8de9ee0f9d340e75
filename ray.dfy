/** Rays and ray differentials (src/geometry/ray.rs). */
module Rays {
  import opened Options
  import opened Floats
  import opened Vectors
  import opened Media

  /**
   * A ray `o + t*d` for `t` up to `tMax`. The struct as written has no medium
   * field, yet src/shape/geometric_primitive.rs reads `ray.medium`; the model
   * gives every ray an optional medium, which the constructors leave empty.
   */
  datatype Ray = Ray(o: Point3, d: Vector3, tMax: Float, time: Float, medium: Option<MediumId>)

  /** `Ray::new`: at the origin, no direction, unbounded, at time 0 */
  function NewRay(): (r: Ray)
    ensures r == InitRay(Origin3, Origin3, None, None)
  {
    Ray(Origin3, Origin3, PosInf, Zero, None)
  }

  /** `Ray::init`: missing `t_max` means unbounded, missing `time` means 0 */
  function InitRay(o: Point3, d: Vector3, tMax: Option<Float>, time: Option<Float>): (r: Ray)
    ensures r.o == o && r.d == d && r.medium.None?
    ensures r.tMax == (if tMax.Some? then tMax.value else PosInf)
    ensures r.time == (if time.Some? then time.value else Zero)
  {
    Ray(o, d,
        match tMax { case Some(t) => t case None => PosInf },
        match time { case Some(t) => t case None => Zero },
        None)
  }

  /** `Ray::at`: the point `o + d*t` */
  function At(r: Ray, t: Float): Point3 {
    Add3(r.o, Scale3(r.d, t))
  }

  /** At parameter 0 a ray with a finite direction is at its origin (an infinite direction gives NaN) */
  lemma AtZeroIsOrigin(r: Ray)
    requires Finite3(r.d) && NoNaN3(r.o)
    ensures At(r, Zero) == r.o
  {
  }

  /** Points along a finite ray move by `t*d` exactly */
  lemma AtIsAffine(r: Ray, t: real)
    requires Finite3(r.o) && Finite3(r.d)
    ensures var p := At(r, Fin(t));
      p == V3(Fin(r.o.x.r + r.d.x.r * t), Fin(r.o.y.r + r.d.y.r * t), Fin(r.o.z.r + r.d.z.r * t))
  {
    assert Mul(r.d.x, Fin(t)) == Fin(r.d.x.r * t);
    assert Mul(r.d.y, Fin(t)) == Fin(r.d.y.r * t);
    assert Mul(r.d.z, Fin(t)) == Fin(r.d.z.r * t);
  }

  datatype RayDifferential = RayDifferential(
    ray: Ray, hasDifferentials: bool,
    rxOrigin: Point3, ryOrigin: Point3, rxDirection: Vector3, ryDirection: Vector3)

  /** `RayDifferential::init_ray`: the given ray with no differentials and zero auxiliary rays */
  function InitRayDifferential(r: Ray): (rd: RayDifferential)
    ensures rd.ray == r && !rd.hasDifferentials
    ensures rd.rxOrigin == rd.ryOrigin == rd.rxDirection == rd.ryDirection == Origin3
  {
    RayDifferential(r, false, Origin3, Origin3, Origin3, Origin3)
  }

  /** `RayDifferential::new`: the differential of `Ray::new` */
  function NewRayDifferential(): (rd: RayDifferential)
    ensures rd == InitRayDifferential(NewRay())
  {
    RayDifferential(NewRay(), false, Origin3, Origin3, Origin3, Origin3)
  }

  /** `RayDifferential::init`: the differential of `Ray::init` on the same arguments */
  function InitDifferential(o: Point3, d: Vector3, tMax: Option<Float>, time: Option<Float>): (rd: RayDifferential)
    ensures rd == InitRayDifferential(InitRay(o, d, tMax, time))
  {
    RayDifferential(InitRay(o, d, tMax, time), false, Origin3, Origin3, Origin3, Origin3)
  }

  /**
   * What `scale_differentials(s)` computes: the auxiliary rays moved towards or away
   * from the main ray by the factor `s`. The source receives `self` by value and
   * drops the result, so the caller's differential is unchanged by the call.
   */
  function ScaledDifferentials(rd: RayDifferential, s: Float): (r: RayDifferential)
    ensures r.ray == rd.ray && r.hasDifferentials == rd.hasDifferentials
  {
    rd.(rxOrigin := Add3(rd.ray.o, Scale3(Sub3(rd.rxOrigin, rd.ray.o), s)),
        ryOrigin := Add3(rd.ray.o, Scale3(Sub3(rd.ryOrigin, rd.ray.o), s)),
        rxDirection := Add3(rd.ray.d, Scale3(Sub3(rd.rxDirection, rd.ray.d), s)),
        ryDirection := Add3(rd.ray.d, Scale3(Sub3(rd.ryDirection, rd.ray.d), s)))
  }

  /**
   * The call `scale_differentials(s)`: it scales its own copy of the differential,
   * which is dropped on return, so what the caller holds afterwards is what it held before.
   */
  method ScaleDifferentials(rd: RayDifferential, s: Float) returns (callerAfter: RayDifferential)
    ensures callerAfter == rd
  {
    var own := ScaledDifferentials(rd, s);
    callerAfter := rd;
  }

  /** Scaling by 1 leaves finite auxiliary rays where they are */
  lemma ScaleByOneIsIdentity(rd: RayDifferential)
    requires Finite3(rd.ray.o) && Finite3(rd.ray.d)
    requires Finite3(rd.rxOrigin) && Finite3(rd.ryOrigin) && Finite3(rd.rxDirection) && Finite3(rd.ryDirection)
    ensures ScaledDifferentials(rd, One) == rd
  {
    AuxScaledByOne(rd.ray.o, rd.rxOrigin);
    AuxScaledByOne(rd.ray.o, rd.ryOrigin);
    AuxScaledByOne(rd.ray.d, rd.rxDirection);
    AuxScaledByOne(rd.ray.d, rd.ryDirection);
  }

  /** One auxiliary vector scaled about the main ray's by 1 */
  lemma AuxScaledByOne(base: Vector3, aux: Vector3)
    requires Finite3(base) && Finite3(aux)
    ensures Add3(base, Scale3(Sub3(aux, base), One)) == aux
  {
    assert Sub3(aux, base) == V3(Fin(aux.x.r - base.x.r), Fin(aux.y.r - base.y.r), Fin(aux.z.r - base.z.r));
  }

  /** One auxiliary vector scaled about the main ray's by 0 */
  lemma AuxScaledByZero(base: Vector3, aux: Vector3)
    requires Finite3(base) && Finite3(aux)
    ensures Add3(base, Scale3(Sub3(aux, base), Zero)) == base
  {
    assert Sub3(aux, base) == V3(Fin(aux.x.r - base.x.r), Fin(aux.y.r - base.y.r), Fin(aux.z.r - base.z.r));
  }

  /** Scaling by 0 collapses the auxiliary rays onto the main ray */
  lemma ScaleByZeroCollapses(rd: RayDifferential)
    requires Finite3(rd.ray.o) && Finite3(rd.ray.d)
    requires Finite3(rd.rxOrigin) && Finite3(rd.ryOrigin) && Finite3(rd.rxDirection) && Finite3(rd.ryDirection)
    ensures var r := ScaledDifferentials(rd, Zero);
      r.rxOrigin == r.ryOrigin == rd.ray.o && r.rxDirection == r.ryDirection == rd.ray.d
  {
    AuxScaledByZero(rd.ray.o, rd.rxOrigin);
    AuxScaledByZero(rd.ray.o, rd.ryOrigin);
    AuxScaledByZero(rd.ray.d, rd.rxDirection);
    AuxScaledByZero(rd.ray.d, rd.ryDirection);
  }
}
