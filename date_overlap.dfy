/**
 * The overlap test of the booking controller.  Dates are whole day numbers;
 * a stay occupies the nights from its check-in day up to, but not including,
 * its check-out day.
 */
module DateOverlap {

  /** A calendar day, counted from an arbitrary epoch. */
  type Day = int

  /** A stay is well formed when it lasts at least one night. */
  predicate ProperStay(checkin: Day, checkout: Day)
  {
    checkin < checkout
  }

  /**
   * The half-open stays [aIn, aOut) and [bIn, bOut) share a night.  This is
   * the reference meaning of a clash; the store's invariant is stated with it.
   */
  predicate Intersect(aIn: Day, aOut: Day, bIn: Day, bOut: Day)
  {
    aIn < bOut && bIn < aOut
  }

  /**
   * The controller's three-way test whether a requested stay
   * [newCheckIn, newCheckOut) clashes with an existing stay
   * [existingIn, existingOut): the new check-in lies in the existing stay
   * taken as [in, out), the new check-out lies in it taken as (in, out], or
   * the existing stay lies within the requested one.  For proper stays this
   * is exactly the half-open intersection.
   */
  function CheckDateOverlap(existingIn: Day, existingOut: Day, newCheckIn: Day, newCheckOut: Day): (clash: bool)
    ensures ProperStay(existingIn, existingOut) && ProperStay(newCheckIn, newCheckOut) ==>
              (clash <==> Intersect(existingIn, existingOut, newCheckIn, newCheckOut))
    ensures existingIn == newCheckIn && existingOut == newCheckOut ==> clash
  {
    var checkinInside := existingIn <= newCheckIn < existingOut;
    var checkoutInside := existingIn < newCheckOut <= existingOut;
    var existingContained := newCheckIn <= existingIn && existingOut <= newCheckOut;
    checkinInside || checkoutInside || existingContained
  }

  /** Back-to-back stays never clash, on either side of the existing stay. */
  lemma BackToBackAllowed(existingIn: Day, existingOut: Day, newCheckIn: Day, newCheckOut: Day)
    requires ProperStay(existingIn, existingOut) && ProperStay(newCheckIn, newCheckOut)
    ensures newCheckIn == existingOut ==> !CheckDateOverlap(existingIn, existingOut, newCheckIn, newCheckOut)
    ensures newCheckOut == existingIn ==> !CheckDateOverlap(existingIn, existingOut, newCheckIn, newCheckOut)
  {
  }

  /**
   * Containment in either direction clashes: a requested stay strictly inside
   * an existing one, and one strictly around it.
   */
  lemma ContainmentClashes(existingIn: Day, existingOut: Day, newCheckIn: Day, newCheckOut: Day)
    requires ProperStay(existingIn, existingOut) && ProperStay(newCheckIn, newCheckOut)
    ensures existingIn < newCheckIn && newCheckOut < existingOut ==>
              CheckDateOverlap(existingIn, existingOut, newCheckIn, newCheckOut)
    ensures newCheckIn < existingIn && existingOut < newCheckOut ==>
              CheckDateOverlap(existingIn, existingOut, newCheckIn, newCheckOut)
  {
  }

  /** For proper stays the test does not depend on which stay is the existing one. */
  lemma OverlapSymmetric(aIn: Day, aOut: Day, bIn: Day, bOut: Day)
    requires ProperStay(aIn, aOut) && ProperStay(bIn, bOut)
    ensures CheckDateOverlap(aIn, aOut, bIn, bOut) == CheckDateOverlap(bIn, bOut, aIn, aOut)
  {
  }
}
