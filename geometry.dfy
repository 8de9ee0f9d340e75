/** `face_forward` (src/geometry/mod.rs). */
module Geometry {
  import opened Floats
  import opened Vectors

  /** `n` flipped, if needed, to lie in the same hemisphere as `v` */
  function FaceForward(n: Vector3, v: Vector3): (r: Vector3)
    ensures Lt(Dot3(n, v), Zero) ==> r == Neg3(n)
    ensures !Lt(Dot3(n, v), Zero) ==> r == n
  {
    if Lt(Dot3(n, v), Zero) then Neg3(n) else n
  }

  lemma DotNegLeft(n: Vector3, v: Vector3)
    ensures Dot3(Neg3(n), v) == Neg(Dot3(n, v))
  {
    MulNeg(n.x, v.x);
    MulNeg(n.y, v.y);
    MulNeg(n.z, v.z);
    AddNeg(Mul(n.x, v.x), Mul(n.y, v.y));
    AddNeg(Add(Mul(n.x, v.x), Mul(n.y, v.y)), Mul(n.z, v.z));
  }

  /** With finite components, the result never points away from `v` */
  lemma FaceForwardFacesV(n: Vector3, v: Vector3)
    requires Finite3(n) && Finite3(v)
    ensures Le(Zero, Dot3(FaceForward(n, v), v))
  {
    DotNegLeft(n, v);
  }

  /** Facing forward twice is facing forward once, for every input (NaN included) */
  lemma FaceForwardIdempotent(n: Vector3, v: Vector3)
    ensures FaceForward(FaceForward(n, v), v) == FaceForward(n, v)
  {
    DotNegLeft(n, v);
  }
}
