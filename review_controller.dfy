/**
 * Review admission and the per-hotel review listing.  The review collection
 * is an object holding the stored reviews in a sequence; the store refuses a
 * second review by the same user for the same hotel (a unique index on the
 * pair).  Callers and the clock are explicit parameters.
 */
module ReviewController {
  import opened Wrappers
  import Sorting
  import opened Filtering

  type UserId = string
  type HotelId = string
  type ReviewId = nat

  /** A stored review; `id` and `createdAt` are supplied by the store. */
  datatype Review = Review(
    id: ReviewId,
    userId: UserId,
    hotelId: HotelId,
    rating: int,
    comment: Option<string>,
    createdAt: int)

  /** The body of a review request; every field may be omitted by the client. */
  datatype ReviewRequest = ReviewRequest(
    hotelId: Option<HotelId>,
    rating: Option<int>,
    comment: Option<string>)

  /** Why a review is refused. */
  datatype ReviewError =
    | FieldsRequired    // hotel id or rating missing (a rating of 0 counts as missing)
    | RatingOutOfRange  // rating below 1 or above 5
    | AlreadyReviewed   // the store already holds a review by this user for this hotel

  /** The HTTP status the controller answers a refused review with. */
  function ReviewStatus(e: ReviewError): (code: int)
    ensures code == 400 <==> e.FieldsRequired? || e.RatingOutOfRange?
    ensures code == 409 <==> e.AlreadyReviewed?
  {
    match e
    case FieldsRequired => 400
    case RatingOutOfRange => 400
    case AlreadyReviewed => 409
  }

  // ---------------------------------------------------------------------------
  // The store invariant

  /** The store holds a review by `userId` for `hotelId`. */
  predicate HasReviewed(rs: seq<Review>, userId: UserId, hotelId: HotelId)
  {
    exists r :: r in rs && r.userId == userId && r.hotelId == hotelId
  }

  /** Ratings are validated, ids are below the next id, and each (user, hotel) pair occurs once. */
  predicate ReviewInvariant(rs: seq<Review>, nextId: ReviewId)
  {
    && (forall r :: r in rs ==> 1 <= r.rating <= 5 && r.id < nextId)
    && (forall i, j :: 0 <= i < j < |rs| ==>
          rs[i].id != rs[j].id && (rs[i].userId, rs[i].hotelId) != (rs[j].userId, rs[j].hotelId))
  }

  // ---------------------------------------------------------------------------
  // Admission

  /** The hotel id or the rating is missing; a rating of 0 is treated as missing. */
  predicate FieldsMissing(req: ReviewRequest)
  {
    req.hotelId.None? || req.hotelId.value == "" || req.rating.None? || req.rating.value == 0
  }

  /**
   * The decision on a review request: required fields, then the rating range,
   * then the store's uniqueness of the (user, hotel) pair.
   */
  function ReviewOutcome(rs: seq<Review>, caller: UserId, req: ReviewRequest,
                         id: ReviewId, now: int): Result<Review, ReviewError>
  {
    if FieldsMissing(req) then Failure(FieldsRequired)
    else if req.rating.value < 1 || req.rating.value > 5 then Failure(RatingOutOfRange)
    else if HasReviewed(rs, caller, req.hotelId.value) then Failure(AlreadyReviewed)
    else Success(Review(id, caller, req.hotelId.value, req.rating.value, req.comment, now))
  }

  class ReviewStore {
    var reviews: seq<Review>
    var nextId: ReviewId

    ghost predicate Valid()
      reads this
    {
      ReviewInvariant(reviews, nextId)
    }

    constructor ()
      ensures Valid() && reviews == []
    {
      reviews := [];
      nextId := 0;
    }

    /**
     * Handles a review from `caller` at time `now`: on success exactly one
     * record is appended; on every refusal the store is unchanged.
     */
    method AddReview(caller: UserId, req: ReviewRequest, now: int) returns (r: Result<Review, ReviewError>)
      requires Valid()
      modifies this
      ensures Valid()
      ensures r == ReviewOutcome(old(reviews), caller, req, old(nextId), now)
      ensures r.Success? ==> reviews == old(reviews) + [r.value] && nextId == old(nextId) + 1
      ensures r.Failure? ==> reviews == old(reviews) && nextId == old(nextId)
    {
      if req.hotelId.None? || req.hotelId.value == "" || req.rating.None? || req.rating.value == 0 {
        return Failure(FieldsRequired);
      }
      var hotelId, rating := req.hotelId.value, req.rating.value;
      if rating < 1 || rating > 5 {
        return Failure(RatingOutOfRange);
      }
      // The store's unique index on (userId, hotelId) rejects the insert.
      if HasReviewed(reviews, caller, hotelId) {
        return Failure(AlreadyReviewed);
      }
      var review := Review(nextId, caller, hotelId, rating, req.comment, now);
      AcceptKeepsInvariant(reviews, caller, req, nextId, now);
      reviews := reviews + [review];
      nextId := nextId + 1;
      r := Success(review);
    }
  }

  /** A stored review keeps ratings valid and the (user, hotel) pairs unique. */
  lemma AcceptKeepsInvariant(rs: seq<Review>, caller: UserId, req: ReviewRequest, nextId: ReviewId, now: int)
    requires ReviewInvariant(rs, nextId)
    ensures ReviewOutcome(rs, caller, req, nextId, now).Success? ==>
              ReviewInvariant(rs + [ReviewOutcome(rs, caller, req, nextId, now).value], nextId + 1)
  {
    var out := ReviewOutcome(rs, caller, req, nextId, now);
    if out.Success? {
      var nr := out.value;
      var rs' := rs + [nr];
      forall i, j | 0 <= i < j < |rs'|
        ensures rs'[i].id != rs'[j].id && (rs'[i].userId, rs'[i].hotelId) != (rs'[j].userId, rs'[j].hotelId)
      {
        if j == |rs| {
          assert rs'[i] in rs;
        } else {
          assert rs'[i] == rs[i] && rs'[j] == rs[j];
        }
      }
    }
  }

  // ---------------------------------------------------------------------------
  // Listing

  /** The reviews of one hotel, in store order (the query by hotel id). */
  function ForHotel(rs: seq<Review>, hotelId: HotelId): (r: seq<Review>)
    ensures forall x :: x in r <==> x in rs && x.hotelId == hotelId
    ensures forall x :: multiset(r)[x] == if x.hotelId == hotelId then multiset(rs)[x] else 0
  {
    Filter(rs, (r: Review) => r.hotelId == hotelId)
  }

  /** The sum of the ratings (the reduce over the listed reviews). */
  function RatingSum(rs: seq<Review>): int
  {
    if rs == [] then 0 else RatingSum(rs[..|rs| - 1]) + rs[|rs| - 1].rating
  }

  /** The divisor of the average: the number of reviews, or 1 when there are none. */
  function Divisor(count: nat): (d: nat)
    ensures d >= 1
    ensures count > 0 ==> d == count
  {
    if count == 0 then 1 else count
  }

  /** The listing answer: the reviews, their average rating and their number. */
  datatype HotelReviewsView = HotelReviewsView(reviews: seq<Review>, avgRating: real, count: nat)

  function CreatedAtKey(r: Review): int { r.createdAt }

  /** A hotel's reviews, newest first, with their exact average rating and count. */
  function HotelReviews(rs: seq<Review>, hotelId: HotelId): (v: HotelReviewsView)
    ensures forall x :: x in v.reviews <==> x in rs && x.hotelId == hotelId
    ensures multiset(v.reviews) == multiset(ForHotel(rs, hotelId))
    ensures forall i, j :: 0 <= i < j < |v.reviews| ==> v.reviews[i].createdAt >= v.reviews[j].createdAt
    ensures v.count == |v.reviews|
    ensures v.count == 0 ==> v.avgRating == 0.0
    ensures v.avgRating == RatingSum(v.reviews) as real / Divisor(v.count) as real
  {
    var forHotel := ForHotel(rs, hotelId);
    var listed := Sorting.SortDesc(forHotel, CreatedAtKey);
    SortedReviews(rs, hotelId, forHotel, listed);
    HotelReviewsView(listed, RatingSum(listed) as real / Divisor(|listed|) as real, |listed|)
  }

  /** What the listing inherits from sorting the hotel's reviews. */
  lemma SortedReviews(rs: seq<Review>, hotelId: HotelId, forHotel: seq<Review>, listed: seq<Review>)
    requires forHotel == ForHotel(rs, hotelId)
    requires Sorting.SortedDesc(listed, CreatedAtKey) && multiset(listed) == multiset(forHotel)
    ensures forall x :: x in listed <==> x in rs && x.hotelId == hotelId
    ensures forall i, j :: 0 <= i < j < |listed| ==> listed[i].createdAt >= listed[j].createdAt
  {
    forall x ensures x in listed <==> x in rs && x.hotelId == hotelId {
      assert x in listed <==> x in multiset(listed);
      assert x in forHotel <==> x in multiset(forHotel);
    }
    forall i, j | 0 <= i < j < |listed| ensures listed[i].createdAt >= listed[j].createdAt {
      assert CreatedAtKey(listed[i]) >= CreatedAtKey(listed[j]);
    }
  }

  // ---------------------------------------------------------------------------
  // What the controller promises

  /**
   * A review is refused with 400 when the hotel id or rating is missing (or
   * the rating is 0), with 400 when the rating lies outside 1..5, with 409
   * when the caller already reviewed that hotel; otherwise it is stored with
   * the caller as author and the requested hotel, rating and comment.
   */
  lemma ReviewDecision(rs: seq<Review>, caller: UserId, req: ReviewRequest, id: ReviewId, now: int)
    ensures ReviewOutcome(rs, caller, req, id, now) == Failure(FieldsRequired) <==> FieldsMissing(req)
    ensures ReviewOutcome(rs, caller, req, id, now) == Failure(RatingOutOfRange) <==>
              !FieldsMissing(req) && !(1 <= req.rating.value <= 5)
    ensures ReviewOutcome(rs, caller, req, id, now) == Failure(AlreadyReviewed) <==>
              !FieldsMissing(req) && 1 <= req.rating.value <= 5 &&
              exists r :: r in rs && r.userId == caller && r.hotelId == req.hotelId.value
    ensures ReviewOutcome(rs, caller, req, id, now).Success? ==>
              var r := ReviewOutcome(rs, caller, req, id, now).value;
              && r.userId == caller && Some(r.hotelId) == req.hotelId && Some(r.rating) == req.rating
              && r.comment == req.comment && 1 <= r.rating <= 5
  {
  }

  /** With validated ratings, the sum of n ratings lies between n and 5 * n. */
  lemma {:induction false} RatingSumBounds(rs: seq<Review>)
    requires forall r :: r in rs ==> 1 <= r.rating <= 5
    ensures |rs| <= RatingSum(rs) <= 5 * |rs|
  {
    if rs != [] {
      var init := rs[..|rs| - 1];
      assert forall r :: r in init ==> r in rs;
      assert rs[|rs| - 1] in rs;
      RatingSumBounds(init);
    }
  }

  /** Dividing by a positive n a sum of at most k * n gives at most k. */
  lemma QuotientAtMost(sum: real, n: real, k: real)
    requires 0.0 < n && sum <= k * n
    ensures sum / n <= k
  {
    var q := sum / n;
    assert q * n == sum;
    if q > k {
      assert (q - k) * n > 0.0;
      assert (q - k) * n == q * n - k * n;
    }
  }

  /** Dividing by a positive n a sum of at least k * n gives at least k. */
  lemma QuotientAtLeast(sum: real, n: real, k: real)
    requires 0.0 < n && k * n <= sum
    ensures k <= sum / n
  {
    var q := sum / n;
    assert q * n == sum;
    if q < k {
      assert (k - q) * n > 0.0;
      assert (k - q) * n == k * n - q * n;
    }
  }

  /** The exact average of validated ratings lies between 1 and 5, and is 0 with no ratings. */
  lemma {:induction false} AverageOfValidated(reviews: seq<Review>)
    requires forall r :: r in reviews ==> 1 <= r.rating <= 5
    ensures reviews == [] ==> RatingSum(reviews) as real / Divisor(|reviews|) as real == 0.0
    ensures reviews != [] ==> 1.0 <= RatingSum(reviews) as real / Divisor(|reviews|) as real <= 5.0
  {
    RatingSumBounds(reviews);
    if reviews != [] {
      var sum, n := RatingSum(reviews) as real, |reviews| as real;
      assert Divisor(|reviews|) as real == n;
      QuotientAtLeast(sum, n, 1.0);
      QuotientAtMost(sum, n, 5.0);
    }
  }

  /**
   * The listed average never divides by zero: with no reviews it is 0, and
   * over a store whose ratings were validated it lies between 1 and 5.
   */
  lemma AverageBounds(rs: seq<Review>, nextId: ReviewId, hotelId: HotelId)
    requires ReviewInvariant(rs, nextId)
    ensures HotelReviews(rs, hotelId).count == 0 ==> HotelReviews(rs, hotelId).avgRating == 0.0
    ensures HotelReviews(rs, hotelId).count > 0 ==> 1.0 <= HotelReviews(rs, hotelId).avgRating <= 5.0
  {
    var v := HotelReviews(rs, hotelId);
    assert forall r :: r in v.reviews ==> 1 <= r.rating <= 5;
    AverageOfValidated(v.reviews);
  }
}
