/**
 * Booking admission, cancellation and listing.  The document store is an
 * object holding the live booking records in a sequence and the hotel records
 * in a map keyed by hotel id (standing in for the hotel collection the
 * controller looks hotels up in).  Callers, the clock and "today" are
 * explicit parameters.
 */
module BookingController {
  import opened Wrappers
  import opened DateOverlap
  import Sorting
  import opened Filtering

  type UserId = string
  type HotelId = string
  type BookingId = nat

  /** A hotel record; `price` is the nightly rate used for pricing. */
  datatype Hotel = Hotel(
    name: string,
    location: Option<string>,
    price: int,
    description: Option<string>,
    image: Option<string>,
    amenities: seq<string>,
    createdAt: int)

  /** A persisted booking; `id` is assigned by the store. */
  datatype Booking = Booking(
    id: BookingId,
    userId: UserId,
    hotelId: HotelId,
    checkin: Day,
    checkout: Day,
    guests: int,
    totalPrice: int,
    createdAt: int)

  /** The body of a booking request; every field may be omitted by the client. */
  datatype BookingRequest = BookingRequest(
    hotelId: Option<HotelId>,
    checkin: Option<Day>,
    checkout: Option<Day>,
    guests: Option<int>)

  /** Why a booking request is refused. */
  datatype BookingError =
    | InvalidDetails  // a field is missing or guests < 1
    | InvalidDates    // check-out is not after check-in
    | HotelNotFound
    | DatesTaken      // an existing booking of the hotel clashes

  /** Why a cancellation is refused. */
  datatype CancelError =
    | BookingNotFound
    | NotOwner
    | AlreadyStarted  // check-in is today or earlier

  /** The HTTP status the controller answers a refused booking with. */
  function BookingStatus(e: BookingError): (code: int)
    ensures code == 400 <==> e.InvalidDetails? || e.InvalidDates?
    ensures code == 404 <==> e.HotelNotFound?
    ensures code == 409 <==> e.DatesTaken?
  {
    match e
    case InvalidDetails => 400
    case InvalidDates => 400
    case HotelNotFound => 404
    case DatesTaken => 409
  }

  /** The HTTP status the controller answers a refused cancellation with. */
  function CancelStatus(e: CancelError): (code: int)
    ensures code == 404 <==> e.BookingNotFound?
    ensures code == 403 <==> e.NotOwner?
    ensures code == 400 <==> e.AlreadyStarted?
  {
    match e
    case BookingNotFound => 404
    case NotOwner => 403
    case AlreadyStarted => 400
  }

  // ---------------------------------------------------------------------------
  // The store invariant

  /** A stored booking lasts at least one night and has at least one guest. */
  predicate WellFormed(b: Booking)
  {
    ProperStay(b.checkin, b.checkout) && b.guests >= 1
  }

  /** No two positions of the store hold the same booking id. */
  predicate IdsDistinct(bs: seq<Booking>)
  {
    forall i, j :: 0 <= i < j < |bs| ==> bs[i].id != bs[j].id
  }

  /** No two different bookings of one hotel share a night. */
  predicate NoDoubleBooking(bs: seq<Booking>)
  {
    forall a, b ::
      a in bs && b in bs && a.id != b.id && a.hotelId == b.hotelId ==>
        !Intersect(a.checkin, a.checkout, b.checkin, b.checkout)
  }

  /** What holds of the live bookings between any two operations. */
  predicate StoreInvariant(bs: seq<Booking>, nextId: BookingId)
  {
    && (forall b :: b in bs ==> WellFormed(b) && b.id < nextId)
    && IdsDistinct(bs)
    && NoDoubleBooking(bs)
  }

  // ---------------------------------------------------------------------------
  // Queries on the stored bookings

  /** The bookings of one hotel, in store order (the query by hotel id). */
  function OfHotel(bs: seq<Booking>, hotelId: HotelId): (r: seq<Booking>)
    ensures forall b :: b in r <==> b in bs && b.hotelId == hotelId
    ensures forall b :: multiset(r)[b] == if b.hotelId == hotelId then multiset(bs)[b] else 0
  {
    Filter(bs, (b: Booking) => b.hotelId == hotelId)
  }

  /** The bookings owned by one user, in store order (the query by user id). */
  function OwnedBy(bs: seq<Booking>, userId: UserId): (r: seq<Booking>)
    ensures forall b :: b in r <==> b in bs && b.userId == userId
    ensures forall b :: multiset(r)[b] == if b.userId == userId then multiset(bs)[b] else 0
  {
    Filter(bs, (b: Booking) => b.userId == userId)
  }

  /** The booking with the given id, if any (the lookup by id). */
  function Find(bs: seq<Booking>, id: BookingId): (r: Option<Booking>)
    ensures r.Some? ==> r.value in bs && r.value.id == id
    ensures r.None? ==> forall b :: b in bs ==> b.id != id
  {
    if bs == [] then None
    else if bs[0].id == id then Some(bs[0])
    else Find(bs[1..], id)
  }

  /** The store after the booking with the given id is deleted. */
  function Remove(bs: seq<Booking>, id: BookingId): (r: seq<Booking>)
    ensures forall b :: b in r <==> b in bs && b.id != id
    ensures IdsDistinct(bs) ==> IdsDistinct(r)
    ensures |r| <= |bs|
  {
    if bs == [] then []
    else if bs[0].id == id then Remove(bs[1..], id)
    else
      [bs[0]] + Remove(bs[1..], id)
  }

  // ---------------------------------------------------------------------------
  // Admission

  /** `existing` clashes with the requested stay [checkin, checkout). */
  predicate Clashes(existing: Booking, checkin: Day, checkout: Day)
  {
    CheckDateOverlap(existing.checkin, existing.checkout, checkin, checkout)
  }

  /** All four fields are present and there is at least one guest. */
  predicate DetailsValid(req: BookingRequest)
  {
    && req.hotelId.Some? && req.hotelId.value != ""
    && req.checkin.Some? && req.checkout.Some?
    && req.guests.Some? && req.guests.value >= 1
  }

  /** The price of a stay: nightly rate times nights times guests. */
  function StayPrice(rate: int, checkin: Day, checkout: Day, guests: int): (total: int)
    requires checkin < checkout && guests >= 1
    ensures rate >= 0 ==> total >= 0
    ensures rate > 0 ==> total >= rate
  {
    var nights := checkout - checkin;
    assert nights * guests >= 1;
    rate * (nights * guests)
  }

  /**
   * The decision the controller reaches on a booking request, with the checks
   * in the controller's order: fields, date order, hotel lookup, then the scan
   * of every booking of that hotel.  On success the new record gets the id
   * and creation time the store supplies.
   */
  function Admit(bs: seq<Booking>, hotels: map<HotelId, Hotel>, caller: UserId,
                 req: BookingRequest, id: BookingId, now: int): Result<Booking, BookingError>
  {
    if !DetailsValid(req) then Failure(InvalidDetails)
    else
      var hotelId, checkin, checkout, guests := req.hotelId.value, req.checkin.value, req.checkout.value, req.guests.value;
      if checkout <= checkin then Failure(InvalidDates)
      else if hotelId !in hotels then Failure(HotelNotFound)
      else if exists b :: b in OfHotel(bs, hotelId) && Clashes(b, checkin, checkout) then Failure(DatesTaken)
      else
        var totalPrice := StayPrice(hotels[hotelId].price, checkin, checkout, guests);
        Success(Booking(id, caller, hotelId, checkin, checkout, guests, totalPrice, now))
  }

  /** The scan over the hotel's bookings: does any of them clash with the request? */
  method AnyOverlap(existing: seq<Booking>, checkin: Day, checkout: Day) returns (found: bool)
    ensures found <==> exists b :: b in existing && Clashes(b, checkin, checkout)
  {
    found := false;
    var i := 0;
    while i < |existing| && !found
      invariant 0 <= i <= |existing|
      invariant found ==> i > 0 && Clashes(existing[i - 1], checkin, checkout)
      invariant !found ==> forall k :: 0 <= k < i ==> !Clashes(existing[k], checkin, checkout)
    {
      found := Clashes(existing[i], checkin, checkout);
      i := i + 1;
    }
  }

  // ---------------------------------------------------------------------------
  // Cancellation

  /**
   * The decision the controller reaches on a cancellation: not found, then not
   * the owner, then already started (check-in on or before today).
   */
  function CancelOutcome(bs: seq<Booking>, caller: UserId, id: BookingId, today: Day): Outcome<CancelError>
  {
    match Find(bs, id)
    case None => Fail(BookingNotFound)
    case Some(b) =>
      if b.userId != caller then Fail(NotOwner)
      else if b.checkin <= today then Fail(AlreadyStarted)
      else Pass
  }

  // ---------------------------------------------------------------------------
  // Listing

  /** One entry of a user's booking list, with the hotel record expanded. */
  datatype BookingView = BookingView(
    id: BookingId,
    checkin: Day,
    checkout: Day,
    guests: int,
    totalPrice: int,
    createdAt: int,
    hotel: Option<Hotel>,  // None when the hotel record no longer exists
    nights: int)

  /** A booking as listed: nights recomputed from its dates, hotel looked up. */
  function View(b: Booking, hotels: map<HotelId, Hotel>): BookingView
  {
    BookingView(b.id, b.checkin, b.checkout, b.guests, b.totalPrice, b.createdAt,
                if b.hotelId in hotels then Some(hotels[b.hotelId]) else None,
                b.checkout - b.checkin)
  }

  function CheckinKey(v: BookingView): int { v.checkin }

  /** The listed form of each booking, in the same order. */
  function ViewAll(xs: seq<Booking>, hotels: map<HotelId, Hotel>): (r: seq<BookingView>)
    ensures |r| == |xs|
    ensures forall i :: 0 <= i < |xs| ==> r[i] == View(xs[i], hotels)
  {
    seq(|xs|, i requires 0 <= i < |xs| => View(xs[i], hotels))
  }

  /**
   * The caller's bookings, latest check-in first: one entry per booking the
   * caller owns, counted with multiplicity, and nothing else.
   */
  function UserBookings(bs: seq<Booking>, hotels: map<HotelId, Hotel>, caller: UserId): (r: seq<BookingView>)
    ensures multiset(r) == multiset(ViewAll(OwnedBy(bs, caller), hotels))
    ensures |r| == |OwnedBy(bs, caller)|
    ensures forall i, j :: 0 <= i < j < |r| ==> r[i].checkin >= r[j].checkin
    ensures forall v :: v in r ==> v.nights == v.checkout - v.checkin
    ensures forall v :: v in r ==> exists b :: b in bs && b.userId == caller && v == View(b, hotels)
    ensures forall b :: b in bs && b.userId == caller ==> View(b, hotels) in r
  {
    var views := ViewAll(OwnedBy(bs, caller), hotels);
    var sorted := Sorting.SortDesc(views, CheckinKey);
    ViewsOfSorted(bs, hotels, caller, views, sorted);
    sorted
  }

  /** What the listing inherits from viewing the caller's bookings and sorting the entries. */
  lemma ViewsOfSorted(bs: seq<Booking>, hotels: map<HotelId, Hotel>, caller: UserId,
                      views: seq<BookingView>, sorted: seq<BookingView>)
    requires views == ViewAll(OwnedBy(bs, caller), hotels)
    requires Sorting.SortedDesc(sorted, CheckinKey) && multiset(sorted) == multiset(views)
    ensures forall i, j :: 0 <= i < j < |sorted| ==> sorted[i].checkin >= sorted[j].checkin
    ensures forall v :: v in sorted ==> exists b :: b in bs && b.userId == caller && v == View(b, hotels)
    ensures forall b :: b in bs && b.userId == caller ==> View(b, hotels) in sorted
  {
    var owned := OwnedBy(bs, caller);
    forall i, j | 0 <= i < j < |sorted| ensures sorted[i].checkin >= sorted[j].checkin {
      assert CheckinKey(sorted[i]) >= CheckinKey(sorted[j]);
    }
    forall v | v in sorted ensures exists b :: b in bs && b.userId == caller && v == View(b, hotels) {
      assert v in multiset(views);
      var i :| 0 <= i < |views| && views[i] == v;
      assert owned[i] in owned;
    }
    forall b | b in bs && b.userId == caller ensures View(b, hotels) in sorted {
      var i :| 0 <= i < |owned| && owned[i] == b;
      assert views[i] == View(b, hotels);
      assert View(b, hotels) in multiset(sorted);
    }
  }

  // ---------------------------------------------------------------------------
  // The store

  class BookingStore {
    var bookings: seq<Booking>
    var hotels: map<HotelId, Hotel>
    var nextId: BookingId

    ghost predicate Valid()
      reads this
    {
      StoreInvariant(bookings, nextId)
    }

    constructor (hotels: map<HotelId, Hotel>)
      ensures Valid()
      ensures bookings == [] && this.hotels == hotels
    {
      bookings := [];
      this.hotels := hotels;
      nextId := 0;
    }

    /**
     * Handles a booking request from `caller` at time `now`: on success exactly
     * one record is appended; on every refusal the store is unchanged.
     */
    method AddBooking(caller: UserId, req: BookingRequest, now: int) returns (r: Result<Booking, BookingError>)
      requires Valid()
      modifies this
      ensures Valid()
      ensures r == Admit(old(bookings), old(hotels), caller, req, old(nextId), now)
      ensures r.Success? ==> bookings == old(bookings) + [r.value] && nextId == old(nextId) + 1
      ensures r.Failure? ==> bookings == old(bookings) && nextId == old(nextId)
      ensures hotels == old(hotels)
    {
      if req.hotelId.None? || req.hotelId.value == "" || req.checkin.None? || req.checkout.None?
         || req.guests.None? || req.guests.value < 1 {
        return Failure(InvalidDetails);
      }
      var hotelId, checkin, checkout, guests := req.hotelId.value, req.checkin.value, req.checkout.value, req.guests.value;
      if checkout <= checkin {
        return Failure(InvalidDates);
      }
      if hotelId !in hotels {
        return Failure(HotelNotFound);
      }
      var existing := OfHotel(bookings, hotelId);
      var hasOverlap := AnyOverlap(existing, checkin, checkout);
      if hasOverlap {
        return Failure(DatesTaken);
      }
      var totalPrice := StayPrice(hotels[hotelId].price, checkin, checkout, guests);
      var booking := Booking(nextId, caller, hotelId, checkin, checkout, guests, totalPrice, now);
      r := Success(booking);
      AdmitKeepsInvariant(bookings, hotels, caller, req, nextId, now);
      bookings := bookings + [booking];
      nextId := nextId + 1;
    }

    /**
     * Handles a cancellation of booking `id` by `caller` on day `today`: on
     * success exactly that booking is deleted; on every refusal the store is
     * unchanged.
     */
    method CancelBooking(caller: UserId, id: BookingId, today: Day) returns (r: Outcome<CancelError>)
      requires Valid()
      modifies this
      ensures Valid()
      ensures r == CancelOutcome(old(bookings), caller, id, today)
      ensures r.Pass? ==> bookings == Remove(old(bookings), id)
      ensures r.Fail? ==> bookings == old(bookings)
      ensures hotels == old(hotels) && nextId == old(nextId)
    {
      var found := Find(bookings, id);
      if found.None? {
        return Fail(BookingNotFound);
      }
      var booking := found.value;
      if booking.userId != caller {
        return Fail(NotOwner);
      }
      if booking.checkin <= today {
        return Fail(AlreadyStarted);
      }
      bookings := Remove(bookings, id);
      r := Pass;
    }
  }

  // ---------------------------------------------------------------------------
  // The store invariant is preserved

  /** A successful admission keeps every hotel's bookings free of shared nights. */
  lemma AdmitKeepsInvariant(bs: seq<Booking>, hotels: map<HotelId, Hotel>, caller: UserId,
                            req: BookingRequest, nextId: BookingId, now: int)
    requires StoreInvariant(bs, nextId)
    ensures Admit(bs, hotels, caller, req, nextId, now).Success? ==>
              StoreInvariant(bs + [Admit(bs, hotels, caller, req, nextId, now).value], nextId + 1)
  {
    var r := Admit(bs, hotels, caller, req, nextId, now);
    if r.Success? {
      var nb := r.value;
      var bs' := bs + [nb];
      assert nb.id == nextId && ProperStay(nb.checkin, nb.checkout);
      forall a | a in bs && a.hotelId == nb.hotelId
        ensures !Intersect(a.checkin, a.checkout, nb.checkin, nb.checkout)
      {
        assert a in OfHotel(bs, nb.hotelId);
        assert !Clashes(a, nb.checkin, nb.checkout);
      }
      forall a, b | a in bs' && b in bs' && a.id != b.id && a.hotelId == b.hotelId
        ensures !Intersect(a.checkin, a.checkout, b.checkin, b.checkout)
      {
        if a != nb && b != nb {
          assert a in bs && b in bs;
        }
      }
      assert IdsDistinct(bs') by {
        forall i, j | 0 <= i < j < |bs'| ensures bs'[i].id != bs'[j].id {
          if j == |bs| {
            assert bs'[i] in bs;
          } else {
            assert bs'[i] == bs[i] && bs'[j] == bs[j];
          }
        }
      }
    }
  }

  /** Deleting a booking keeps the invariant. */
  lemma RemoveKeepsInvariant(bs: seq<Booking>, nextId: BookingId, id: BookingId)
    requires StoreInvariant(bs, nextId)
    ensures StoreInvariant(Remove(bs, id), nextId)
  {
  }
}
