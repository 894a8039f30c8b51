/**
 * How the booking controller turns request timestamps into a validated stay
 * and a night count.  The request dates are instants in milliseconds; the
 * date-order check compares the instants themselves, while the night count
 * is the whole number of days between them, rounded toward zero.
 */
module StayLength {
  import opened DateOverlap

  /** An instant, in milliseconds since the epoch. */
  type Instant = int

  const MillisPerDay: int := 86_400_000

  /** The calendar day an instant falls on (start-of-day, UTC). */
  function DayOf(t: Instant): (d: Day)
    ensures d * MillisPerDay <= t < (d + 1) * MillisPerDay
  {
    t / MillisPerDay
  }

  // ---------------------------------------------------------------------------
  // As written

  /** The date-order check as written: check-out strictly after check-in, to the millisecond. */
  predicate DatesAcceptedAsWritten(checkin: Instant, checkout: Instant)
  {
    checkin < checkout
  }

  /** The night count as written: whole days between the instants, truncated. */
  function NightsAsWritten(checkin: Instant, checkout: Instant): (nights: int)
    requires DatesAcceptedAsWritten(checkin, checkout)
    ensures nights >= 0
    ensures nights * MillisPerDay <= checkout - checkin < (nights + 1) * MillisPerDay
  {
    (checkout - checkin) / MillisPerDay
  }

  /**
   * A stay from 10:00 to 18:00 on the same day passes the date-order check
   * and is counted as zero nights, so it is priced at 0 whatever the rate.
   */
  lemma SameDayStayIsFree(rate: int, guests: int)
    ensures DatesAcceptedAsWritten(10 * 3_600_000, 18 * 3_600_000)
    ensures NightsAsWritten(10 * 3_600_000, 18 * 3_600_000) == 0
    ensures rate * NightsAsWritten(10 * 3_600_000, 18 * 3_600_000) * guests == 0
  {
  }

  // ---------------------------------------------------------------------------
  // Corrected

  /** The date-order check on calendar days: check-out on a later day than check-in. */
  predicate DatesAccepted(checkin: Instant, checkout: Instant)
  {
    ProperStay(DayOf(checkin), DayOf(checkout))
  }

  /**
   * The night count on calendar days: at least one for every accepted stay,
   * and at most one more than the truncated count as written.
   */
  function Nights(checkin: Instant, checkout: Instant): (nights: int)
    requires DatesAccepted(checkin, checkout)
    ensures nights >= 1
    ensures DatesAcceptedAsWritten(checkin, checkout)
    ensures nights - 1 <= NightsAsWritten(checkin, checkout) <= nights
  {
    DayOf(checkout) - DayOf(checkin)
  }

  /**
   * Every accepted stay lasts at least one night, and for instants at the
   * start of a day (dates sent without a time) the corrected rule agrees with
   * the one as written.
   */
  lemma CorrectedAgreesOnWholeDays(checkin: Instant, checkout: Instant)
    requires checkin % MillisPerDay == 0 && checkout % MillisPerDay == 0
    ensures DatesAccepted(checkin, checkout) <==> DatesAcceptedAsWritten(checkin, checkout)
    ensures DatesAccepted(checkin, checkout) ==>
              Nights(checkin, checkout) == NightsAsWritten(checkin, checkout) >= 1
  {
    var ci, co := DayOf(checkin), DayOf(checkout);
    assert checkin == ci * MillisPerDay;
    assert checkout == co * MillisPerDay;
    assert checkout - checkin == (co - ci) * MillisPerDay;
    if ci < co {
      assert (checkout - checkin) / MillisPerDay == co - ci;
    }
  }
}
