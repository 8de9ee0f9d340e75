/**
 * The pair of media on the two sides of a surface (src/medium/medium_interface.rs).
 * A medium is shared through a reference-counted handle; only its identity matters
 * here, so a medium is the integer that identifies that handle.
 */
module Media {
  import opened Options

  type MediumId = nat

  datatype MediumInterface = MediumInterface(inside: Option<MediumId>, outside: Option<MediumId>)

  /** `MediumInterface::new`: no medium on either side */
  function NewInterface(): (mi: MediumInterface)
    ensures !InsideOutsideSame(mi) && IsMediumTransition(mi)
  {
    MediumInterface(None, None)
  }

  /** `MediumInterface::init`: two given media */
  function InitInterface(inside: MediumId, outside: MediumId): (mi: MediumInterface)
    ensures InsideOutsideSame(mi) <==> inside == outside
  {
    MediumInterface(Some(inside), Some(outside))
  }

  /** `MediumInterface::init_one`: the same medium on both sides */
  function InitOne(m: MediumId): (mi: MediumInterface)
    ensures InsideOutsideSame(mi) && !IsMediumTransition(mi)
  {
    MediumInterface(Some(m), Some(m))
  }

  /** Both sides present and the very same medium (handle identity, not content) */
  predicate InsideOutsideSame(mi: MediumInterface) {
    if !(mi.outside.Some? && mi.inside.Some?) then false
    else mi.inside.value == mi.outside.value
  }

  predicate IsMediumTransition(mi: MediumInterface) {
    !InsideOutsideSame(mi)
  }

  /** An interface with a missing side is never "the same on both sides", so it is a transition */
  lemma MissingSideIsTransition(mi: MediumInterface)
    requires mi.inside.None? || mi.outside.None?
    ensures !InsideOutsideSame(mi) && IsMediumTransition(mi)
  {
  }

  /** Two distinct media, even if alike in content, make a transition */
  lemma TransitionIffDistinct(mi: MediumInterface)
    requires mi.inside.Some? && mi.outside.Some?
    ensures IsMediumTransition(mi) <==> mi.inside.value != mi.outside.value
  {
  }
}
