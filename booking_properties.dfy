/**
 * What the booking controller promises, stated over the decision functions
 * `Admit` and `CancelOutcome` that the store's methods are proved to follow.
 */
module BookingProperties {
  import opened Wrappers
  import opened DateOverlap
  import opened BookingController

  // ---------------------------------------------------------------------------
  // Admission

  /**
   * The two 400 refusals are reached before the hotel lookup and the scan:
   * they do not depend on the hotels or on the stored bookings.
   */
  lemma ValidationPrecedesLookup(bs: seq<Booking>, hotels: map<HotelId, Hotel>,
                                 bs': seq<Booking>, hotels': map<HotelId, Hotel>,
                                 caller: UserId, req: BookingRequest, id: BookingId, now: int)
    ensures !DetailsValid(req) ==> Admit(bs, hotels, caller, req, id, now) == Failure(InvalidDetails)
    ensures DetailsValid(req) && req.checkout.value <= req.checkin.value ==>
              Admit(bs, hotels, caller, req, id, now) == Failure(InvalidDates)
    ensures !DetailsValid(req) || req.checkout.value <= req.checkin.value ==>
              Admit(bs, hotels, caller, req, id, now) == Admit(bs', hotels', caller, req, id, now)
  {
  }

  /** A valid request for a known hotel is refused with 409 exactly when a stored booking of that hotel shares a night with it. */
  lemma ConflictIffSharedNight(bs: seq<Booking>, hotels: map<HotelId, Hotel>, caller: UserId,
                               req: BookingRequest, id: BookingId, now: int)
    requires forall b :: b in bs ==> WellFormed(b)
    requires DetailsValid(req) && req.checkin.value < req.checkout.value && req.hotelId.value in hotels
    ensures Admit(bs, hotels, caller, req, id, now) == Failure(DatesTaken) <==>
              exists b :: b in bs && b.hotelId == req.hotelId.value &&
                Intersect(b.checkin, b.checkout, req.checkin.value, req.checkout.value)
  {
    var hotelId, checkin, checkout := req.hotelId.value, req.checkin.value, req.checkout.value;
    if exists b :: b in OfHotel(bs, hotelId) && Clashes(b, checkin, checkout) {
      var b :| b in OfHotel(bs, hotelId) && Clashes(b, checkin, checkout);
      assert b in bs && Intersect(b.checkin, b.checkout, checkin, checkout);
    }
    if exists b :: b in bs && b.hotelId == hotelId && Intersect(b.checkin, b.checkout, checkin, checkout) {
      var b :| b in bs && b.hotelId == hotelId && Intersect(b.checkin, b.checkout, checkin, checkout);
      assert b in OfHotel(bs, hotelId) && Clashes(b, checkin, checkout);
    }
  }

  /**
   * A valid request naming a hotel the store does not know is refused with
   * 404 whatever the stored bookings: the lookup comes after the two 400
   * checks and before the scan.
   */
  lemma UnknownHotelRefused(bs: seq<Booking>, bs': seq<Booking>, hotels: map<HotelId, Hotel>,
                            caller: UserId, req: BookingRequest, id: BookingId, now: int)
    ensures Admit(bs, hotels, caller, req, id, now) == Failure(HotelNotFound) <==>
              DetailsValid(req) && req.checkin.value < req.checkout.value && req.hotelId.value !in hotels
    ensures Admit(bs, hotels, caller, req, id, now) == Failure(HotelNotFound) ==>
              Admit(bs', hotels, caller, req, id, now) == Failure(HotelNotFound)
  {
  }

  /**
   * The status of every refusal, stated on the request and the store: 400 for
   * missing fields, too few guests or a bad date order, 404 for an unknown
   * hotel, 409 when a booking of that hotel shares a night with the request.
   */
  lemma RefusalStatus(bs: seq<Booking>, hotels: map<HotelId, Hotel>, caller: UserId,
                      req: BookingRequest, id: BookingId, now: int)
    requires forall b :: b in bs ==> WellFormed(b)
    ensures Admit(bs, hotels, caller, req, id, now).Failure? ==>
              var code := BookingStatus(Admit(bs, hotels, caller, req, id, now).error);
              && (code == 400 <==> !DetailsValid(req) || req.checkout.value <= req.checkin.value)
              && (code == 404 <==> DetailsValid(req) && req.checkin.value < req.checkout.value &&
                                   req.hotelId.value !in hotels)
              && (code == 409 <==> DetailsValid(req) && req.checkin.value < req.checkout.value &&
                                   req.hotelId.value in hotels &&
                                   exists b :: b in bs && b.hotelId == req.hotelId.value &&
                                     Intersect(b.checkin, b.checkout, req.checkin.value, req.checkout.value))
  {
    if DetailsValid(req) && req.checkin.value < req.checkout.value && req.hotelId.value in hotels {
      ConflictIffSharedNight(bs, hotels, caller, req, id, now);
    }
  }

  /** Bookings of other hotels never change the decision on a request. */
  lemma OtherHotelsNeverBlock(bs: seq<Booking>, others: seq<Booking>, hotels: map<HotelId, Hotel>,
                              caller: UserId, req: BookingRequest, id: BookingId, now: int)
    requires req.hotelId.Some?
    requires forall b :: b in others ==> b.hotelId != req.hotelId.value
    ensures Admit(bs + others, hotels, caller, req, id, now) == Admit(bs, hotels, caller, req, id, now)
  {
    var hotelId := req.hotelId.value;
    assert forall b :: b in OfHotel(bs + others, hotelId) <==> b in OfHotel(bs, hotelId);
  }

  /**
   * An admitted booking belongs to the caller, carries the requested hotel,
   * dates and guest count, lasts at least one night, and costs the hotel's
   * nightly rate times nights times guests; it is admitted exactly when every
   * check passes.
   */
  lemma AdmittedRecord(bs: seq<Booking>, hotels: map<HotelId, Hotel>, caller: UserId,
                       req: BookingRequest, id: BookingId, now: int)
    requires forall b :: b in bs ==> WellFormed(b)
    ensures Admit(bs, hotels, caller, req, id, now).Success? <==>
              && DetailsValid(req)
              && req.checkin.value < req.checkout.value
              && req.hotelId.value in hotels
              && forall b :: b in bs && b.hotelId == req.hotelId.value ==>
                   !Intersect(b.checkin, b.checkout, req.checkin.value, req.checkout.value)
    ensures Admit(bs, hotels, caller, req, id, now).Success? ==>
              var b := Admit(bs, hotels, caller, req, id, now).value;
              var nights := b.checkout - b.checkin;
              && b.id == id && b.userId == caller && b.createdAt == now
              && Some(b.hotelId) == req.hotelId
              && Some(b.checkin) == req.checkin && Some(b.checkout) == req.checkout
              && Some(b.guests) == req.guests
              && nights >= 1 && WellFormed(b)
              && b.totalPrice == hotels[b.hotelId].price * nights * b.guests
              && (hotels[b.hotelId].price >= 0 ==> b.totalPrice >= 0)
  {
    if DetailsValid(req) && req.checkin.value < req.checkout.value && req.hotelId.value in hotels {
      ConflictIffSharedNight(bs, hotels, caller, req, id, now);
      var r := Admit(bs, hotels, caller, req, id, now);
      if r.Success? {
        var b := r.value;
        var price, nights := hotels[b.hotelId].price, b.checkout - b.checkin;
        assert b.totalPrice == price * (nights * b.guests);
        assert price * (nights * b.guests) == price * nights * b.guests;
      }
    }
  }

  /**
   * The worked example: a hotel at rate 100 with a stay booked from day 10 to
   * day 15.  A stay from 15 to 18 is admitted at 100 * 3 * guests; a stay
   * from 12 to 14 and one from 5 to 20 are refused as taken.
   */
  lemma WorkedExample(hotel: Hotel, caller: UserId, owner: UserId, guests: int, id: BookingId, now: int)
    requires hotel.price == 100 && guests >= 1
    ensures
      var existing := Booking(0, owner, "h", 10, 15, 2, 1000, 0);
      var hotels := map["h" := hotel];
      && Admit([existing], hotels, caller, BookingRequest(Some("h"), Some(15), Some(18), Some(guests)), id, now)
           == Success(Booking(id, caller, "h", 15, 18, guests, 300 * guests, now))
      && Admit([existing], hotels, caller, BookingRequest(Some("h"), Some(12), Some(14), Some(guests)), id, now)
           == Failure(DatesTaken)
      && Admit([existing], hotels, caller, BookingRequest(Some("h"), Some(5), Some(20), Some(guests)), id, now)
           == Failure(DatesTaken)
  {
    var existing := Booking(0, owner, "h", 10, 15, 2, 1000, 0);
    assert OfHotel([existing], "h") == [existing];
    assert existing in OfHotel([existing], "h");
  }

  // ---------------------------------------------------------------------------
  // Cancellation

  /** With distinct ids, the booking with a given id is the one found. */
  lemma FoundIsUnique(bs: seq<Booking>, id: BookingId, b: Booking)
    requires IdsDistinct(bs) && b in bs && b.id == id
    ensures Find(bs, id) == Some(b)
  {
    var f := Find(bs, id).value;
    var i :| 0 <= i < |bs| && bs[i] == b;
    var j :| 0 <= j < |bs| && bs[j] == f;
    assert i == j;
  }

  /**
   * A cancellation is refused with 404 when no booking has the id, with 403
   * when the booking is someone else's, with 400 when the caller's booking
   * has check-in today or earlier, and succeeds exactly when the caller owns
   * the booking and its check-in is after today.
   */
  lemma CancelDecision(bs: seq<Booking>, caller: UserId, id: BookingId, today: Day)
    requires IdsDistinct(bs)
    ensures CancelOutcome(bs, caller, id, today) == Fail(BookingNotFound) <==>
              forall b :: b in bs ==> b.id != id
    ensures CancelOutcome(bs, caller, id, today) == Fail(NotOwner) <==>
              exists b :: b in bs && b.id == id && b.userId != caller
    ensures CancelOutcome(bs, caller, id, today) == Fail(AlreadyStarted) <==>
              exists b :: b in bs && b.id == id && b.userId == caller && b.checkin <= today
    ensures CancelOutcome(bs, caller, id, today) == Pass <==>
              exists b :: b in bs && b.id == id && b.userId == caller && today < b.checkin
  {
    if b :| b in bs && b.id == id {
      FoundIsUnique(bs, id, b);
    }
  }

  /** Cancelling deletes exactly the one booking with that id and keeps every other. */
  lemma {:induction false} RemoveExactlyOne(bs: seq<Booking>, b: Booking)
    requires IdsDistinct(bs) && b in bs
    ensures multiset(Remove(bs, b.id)) == multiset(bs) - multiset{b}
    ensures |Remove(bs, b.id)| == |bs| - 1
  {
    var head, tail := bs[0], bs[1..];
    assert bs == [head] + tail;
    assert IdsDistinct(tail);
    if head == b {
      forall x | x in tail ensures x.id != b.id {
        var k :| 0 <= k < |tail| && tail[k] == x;
        assert bs[k + 1] == x;
      }
      RemoveNothing(tail, b.id);
      assert Remove(bs, b.id) == tail;
    } else {
      assert b in tail;
      assert head.id != b.id by {
        var k :| 0 <= k < |tail| && tail[k] == b;
        assert bs[k + 1] == b;
      }
      RemoveExactlyOne(tail, b);
      assert Remove(bs, b.id) == [head] + Remove(tail, b.id);
      assert multiset(bs) == multiset{head} + multiset(tail);
    }
  }

  /** Removing an id no booking carries changes nothing. */
  lemma {:induction false} RemoveNothing(bs: seq<Booking>, id: BookingId)
    requires forall x :: x in bs ==> x.id != id
    ensures Remove(bs, id) == bs
  {
    if bs != [] {
      assert bs[0] in bs;
      assert forall x :: x in bs[1..] ==> x in bs;
      RemoveNothing(bs[1..], id);
      assert bs == [bs[0]] + bs[1..];
    }
  }

  // ---------------------------------------------------------------------------
  // The invariant over any sequence of requests

  /** A request to the booking controller. */
  datatype Request =
    | AddRequest(caller: UserId, req: BookingRequest, now: int)
    | CancelRequest(caller: UserId, id: BookingId, today: Day)

  /** The store's bookings and next id. */
  datatype StoreState = StoreState(bookings: seq<Booking>, nextId: BookingId)

  /** The store after one request, as the store's methods leave it. */
  function Step(s: StoreState, hotels: map<HotelId, Hotel>, r: Request): StoreState
  {
    match r
    case AddRequest(caller, req, now) =>
      (match Admit(s.bookings, hotels, caller, req, s.nextId, now)
       case Success(b) => StoreState(s.bookings + [b], s.nextId + 1)
       case Failure(_) => s)
    case CancelRequest(caller, id, today) =>
      if CancelOutcome(s.bookings, caller, id, today).Pass? then StoreState(Remove(s.bookings, id), s.nextId)
      else s
  }

  /** The store after a sequence of requests, handled one at a time. */
  function Replay(s: StoreState, hotels: map<HotelId, Hotel>, rs: seq<Request>): StoreState
    decreases |rs|
  {
    if rs == [] then s else Replay(Step(s, hotels, rs[0]), hotels, rs[1..])
  }

  /**
   * Handled one at a time, any sequence of booking and cancellation requests
   * keeps every hotel's bookings free of shared nights.
   */
  lemma {:induction false} ReplayKeepsInvariant(s: StoreState, hotels: map<HotelId, Hotel>, rs: seq<Request>)
    requires StoreInvariant(s.bookings, s.nextId)
    ensures StoreInvariant(Replay(s, hotels, rs).bookings, Replay(s, hotels, rs).nextId)
    decreases |rs|
  {
    if rs != [] {
      match rs[0] {
        case AddRequest(caller, req, now) =>
          AdmitKeepsInvariant(s.bookings, hotels, caller, req, s.nextId, now);
        case CancelRequest(caller, id, today) =>
          RemoveKeepsInvariant(s.bookings, s.nextId, id);
      }
      ReplayKeepsInvariant(Step(s, hotels, rs[0]), hotels, rs[1..]);
    }
  }

  /** Every listed booking of a consistent store lasts at least one night. */
  lemma ListedNightsPositive(bs: seq<Booking>, hotels: map<HotelId, Hotel>, caller: UserId)
    requires forall b :: b in bs ==> WellFormed(b)
    ensures forall v :: v in UserBookings(bs, hotels, caller) ==> v.nights >= 1
  {
    forall v | v in UserBookings(bs, hotels, caller) ensures v.nights >= 1 {
      var b :| b in bs && b.userId == caller && v == View(b, hotels);
    }
  }
}
