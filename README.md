# Hotel booking backend: booking admission and cancellation, reviews, origin policy

This project models the logic of a hotel booking backend (an Express/MongoDB
service) and proves properties of it in Dafny.

The system stores hotels, bookings and reviews. Its one real consistency rule
is that a hotel is booked as a whole: a booking is admitted only when no other
booking of the same hotel shares a night with it. The model covers:

- **Overlap test** (`DateOverlap`): `checkDateOverlap`. It is a three-way test of
  whether a requested stay clashes with one existing stay. Stays are modelled
  as whole day numbers. For well-formed stays, the test is proved to be exactly
  the half-open intersection `[in, out)`. So back-to-back stays never clash,
  and containment in either direction does.
- **Booking store** (`BookingController`): a class `BookingStore`. It holds the
  live bookings as a sequence, the hotels as a map from hotel id to hotel
  record (this stands in for the hotel lookup), and a counter for
  store-assigned ids.
  - `AddBooking` checks requests in the controller's order: fields and guest
    count (400), date order (400), hotel lookup (404), then a linear scan over
    the hotel's bookings (409). On success it prices the stay as
    rate × nights × guests and appends one record.
  - `CancelBooking` checks not-found (404), not-owner (403) and
    already-started (400), then deletes the record.
  - Both methods are proved against the decision functions `Admit` and
    `CancelOutcome`. Both keep the store invariant: every booking is
    well-formed, ids are distinct, and no two bookings of one hotel share a
    night.
- **Listing**: `UserBookings` returns exactly the caller's bookings, latest
  check-in first, with nights recomputed from the dates.
- **Reviews** (`ReviewController`): a class `ReviewStore`.
  - `AddReview` checks for missing fields (a rating of 0 counts as missing),
    then the 1..5 range, then whether the (user, hotel) pair is already taken
    (409). A stored review keeps ratings valid and each pair unique.
  - `HotelReviews` filters by hotel and sorts newest first. Its count is the
    length of the list. Its average divides by `count || 1`.
- **Origin policy** (`CorsPolicy`): the server's origin callback. It accepts an
  absent origin, any origin ending in `.vercel.app`, and an exact match with one
  of three listed origins. It refuses every other origin.
- **Stay length** (`StayLength`): how request instants become a validated stay
  and a night count. See Findings.

Record fields follow `models/Booking.js` and `models/Hotel.js`. Callers, the
clock (`now`, `today`) and store-assigned ids are explicit parameters.

## Model

| member | source | states |
|---|---|---|
| `DateOverlap.CheckDateOverlap` | controllers/bookingController.js:15-34 | for stays with checkout after checkin, the three-way test holds exactly when the half-open stays share a night; identical stays always clash |
| `DateOverlap.BackToBackAllowed` | controllers/bookingController.js:24-33 | a new check-in on the existing check-out day, or a new check-out on the existing check-in day, is not a clash |
| `DateOverlap.ContainmentClashes` | controllers/bookingController.js:26-30 | a stay strictly inside an existing one clashes, and so does a stay strictly around it |
| `DateOverlap.OverlapSymmetric` | controllers/bookingController.js:15-34 | for proper stays the test does not depend on which stay is the existing one |
| `BookingController.BookingStatus` | controllers/bookingController.js:40-72 | missing fields and bad date order answer 400, an unknown hotel 404, taken dates 409 |
| `BookingController.CancelStatus` | controllers/bookingController.js:130-154 | unknown booking answers 404, another user's booking 403, a started booking 400 |
| `Filtering.Filter` | controllers/bookingController.js:64 | a query by field value keeps exactly the matching records, each as often as it is stored |
| `BookingController.OfHotel` | controllers/bookingController.js:64 | the query by hotel id returns the stored bookings of that hotel, each as often as it is stored, and nothing else |
| `BookingController.OwnedBy` | controllers/bookingController.js:99 | the query by user id returns the caller's stored bookings, each as often as it is stored, and nothing else |
| `BookingController.Find` | controllers/bookingController.js:128 | the lookup by id returns a stored booking with that id, or none when no booking has it |
| `BookingController.Remove` | controllers/bookingController.js:156 | deleting by id leaves exactly the bookings with other ids and keeps ids distinct |
| `BookingController.StayPrice` | controllers/bookingController.js:74-75 | the price of a stay of at least one night and one guest is non-negative for a non-negative rate, and at least the rate for a positive rate |
| `BookingController.AnyOverlap` | controllers/bookingController.js:66-68 | the scan reports a clash exactly when some booking of the hotel clashes with the request |
| `BookingController.UserBookings` | controllers/bookingController.js:97-112 | the listing is a permutation of the listed forms of the caller's bookings (one entry per booking of the caller and nothing else), ordered by check-in descending, each with nights equal to checkout minus checkin |
| `BookingController.BookingStore.AddBooking` | controllers/bookingController.js:36-95 | the result is the decision `Admit` reaches; on success exactly the new record is appended; on every refusal the store is unchanged; the invariant is kept |
| `BookingController.BookingStore.CancelBooking` | controllers/bookingController.js:124-170 | the result is the decision `CancelOutcome` reaches; on success exactly that booking's id is deleted; on every refusal the store is unchanged; the invariant is kept |
| `BookingController.AdmitKeepsInvariant` | controllers/bookingController.js:64-84 | appending an admitted booking keeps every booking well-formed, ids distinct and no two bookings of one hotel sharing a night |
| `BookingController.RemoveKeepsInvariant` | controllers/bookingController.js:156 | deleting a booking keeps the store invariant |
| `BookingProperties.ValidationPrecedesLookup` | controllers/bookingController.js:40-61 | missing fields or guests below 1 give 400, and then checkout not after checkin gives 400, whatever the hotels and bookings |
| `BookingProperties.ConflictIffSharedNight` | controllers/bookingController.js:63-72 | a valid request for a known hotel is refused as taken exactly when a stored booking of that hotel shares a night with it |
| `BookingProperties.UnknownHotelRefused` | controllers/bookingController.js:58-61 | a request is refused with 404 exactly when its fields and dates are valid and the hotel is unknown, and then whatever the stored bookings |
| `BookingProperties.RefusalStatus` | controllers/bookingController.js:40-72 | every refusal's status is stated on the request and the store: 400 exactly for missing fields, too few guests or a bad date order; 404 exactly for a valid request to an unknown hotel; 409 exactly when a booking of the hotel shares a night |
| `BookingProperties.OtherHotelsNeverBlock` | controllers/bookingController.js:64-68 | adding bookings of other hotels to the store never changes the decision |
| `BookingProperties.AdmittedRecord` | controllers/bookingController.js:55-84 | admission succeeds exactly when every check passes; the record carries the caller, the requested hotel, dates and guests, at least one night, and price rate × nights × guests, which is non-negative for a non-negative rate |
| `BookingProperties.WorkedExample` | controllers/bookingController.js:66-84 | with rate 100 and a stay from day 10 to 15, a stay from 15 to 18 is admitted at 300 × guests, while stays from 12 to 14 and from 5 to 20 are refused as taken |
| `BookingProperties.CancelDecision` | controllers/bookingController.js:128-156 | cancel gives 404 exactly when no booking has the id, 403 exactly when it is another user's, 400 exactly when the caller's booking starts today or earlier, and succeeds exactly when the caller owns it and check-in is after today |
| `BookingProperties.RemoveExactlyOne` | controllers/bookingController.js:156 | a successful cancellation removes exactly one booking and keeps all others |
| `BookingProperties.ReplayKeepsInvariant` | controllers/bookingController.js:36-170 | after any sequence of booking and cancellation requests handled one at a time, no two bookings of one hotel share a night |
| `BookingProperties.ListedNightsPositive` | controllers/bookingController.js:111 | every listed booking of a consistent store lasts at least one night |
| `Sorting.SortDesc` | controllers/bookingController.js:101 | the store's descending sort returns a permutation of its input in which keys never increase |
| `StayLength.NightsAsWritten` | controllers/bookingController.js:51-56 | as written, an accepted stay is counted as the whole days between the instants, truncated, which may be zero |
| `StayLength.SameDayStayIsFree` | controllers/bookingController.js:51-75 | a 10:00 to 18:00 same-day stay passes the date check with zero nights and price 0 |
| `StayLength.Nights` | controllers/bookingController.js:51-56 | counted on calendar days, every accepted stay also passes the check as written and lasts at least one night, and the truncated count as written is the same or one less |
| `StayLength.CorrectedAgreesOnWholeDays` | controllers/bookingController.js:51-56 | for dates without a time of day, the calendar-day rule accepts the same stays and counts the same nights as the rule as written |
| `ReviewController.ReviewStatus` | controllers/reviewController.js:9-46 | missing fields and out-of-range ratings answer 400, a second review of the same hotel 409 |
| `ReviewController.ReviewStore.AddReview` | controllers/reviewController.js:5-48 | the result is the decision `ReviewOutcome` reaches; on success exactly one record is appended; on every refusal the store is unchanged; ratings stay in 1..5 and (user, hotel) pairs unique |
| `ReviewController.AcceptKeepsInvariant` | controllers/reviewController.js:23-46 | storing an accepted review keeps ratings in 1..5, ids distinct and each (user, hotel) pair unique |
| `ReviewController.ReviewDecision` | controllers/reviewController.js:9-46 | a missing hotel id or rating (or rating 0) gives 400; otherwise a rating outside 1..5 gives 400; otherwise an existing review by the caller for the hotel gives 409; otherwise the stored review has the caller, hotel, rating and comment |
| `ReviewController.ForHotel` | controllers/reviewController.js:55 | the query by hotel id returns the stored reviews of that hotel, each as often as it is stored, and nothing else |
| `ReviewController.Divisor` | controllers/reviewController.js:59-61 | the divisor of the average is never zero and equals the count when there are reviews |
| `ReviewController.HotelReviews` | controllers/reviewController.js:51-68 | the listing holds exactly the hotel's reviews, as a permutation of them, newest first; count is the length of the list; the average is the rating sum over the divisor, and 0 with no reviews |
| `ReviewController.RatingSumBounds` | controllers/reviewController.js:60 | with validated ratings the sum of n ratings lies between n and 5 × n |
| `ReviewController.AverageOfValidated` | controllers/reviewController.js:59-61 | the average of validated ratings is 0 with none and between 1 and 5 otherwise |
| `ReviewController.AverageBounds` | controllers/reviewController.js:59-67 | over a store whose ratings were validated, the listed average is 0 with no reviews and between 1 and 5 otherwise |
| `CorsPolicy.OriginAllowed` | server.js:25-39 | an absent or empty origin is always accepted |
| `CorsPolicy.EndsWithIffSplit` | server.js:30 | an origin ends with a suffix exactly when it is some prefix followed by that suffix |
| `CorsPolicy.VercelDeploymentsAllowed` | server.js:30-32 | any prefix followed by `.vercel.app` is accepted |
| `CorsPolicy.AllowedIff` | server.js:17-39 | an origin is accepted exactly when it is absent, some prefix followed by `.vercel.app`, or one of the three listed origins |
| `CorsPolicy.ExactMatchOnly` | server.js:17-36 | a listed origin is accepted; the same origin with a trailing slash, another port or another scheme is refused |

## Left out

- Date parsing, `isValid`, time of day, time zones and daylight-saving offsets, and `YYYY-MM-DD` formatting are left out. `StayLength` reads every instant in one fixed offset, while the day difference in the source also subtracts the change in offset between the two instants. The controllers are modelled on whole day numbers. The source mixes granularities: the containment test, the date-order check and the cancel cutoff compare instants, while the `isBetween` tests compare days. The day model treats all of them as day comparisons. `StayLength` shows the one consequence that changes a price.
- The `isBetween` helper also accepts bounds given in reverse order. That case is empty for stored bookings, whose check-out is after check-in, so it is not modelled.
- Guest counts, prices, totals and ratings are integers. Non-integer values, which the source accepts, and floating-point rounding are left out.
- `avgRating` is an exact rational quotient. The floating-point division and the `toFixed(1)` rounding are left out.
- The document store is an in-memory sequence per collection. Query mechanics, `populate` beyond the hotel lookup, and malformed-id cast errors are left out. So are the generic 500 responses for store failures and the `console.error` logging.
- Sorting by the store leaves ties in no fixed order. The model sorts stably, and its contracts state only sortedness and permutation. The user listing sorts the listed entries rather than the records; with ties unordered, the two give the same contract.
- The duplicate-review refusal assumes a unique index on (userId, hotelId). `models/Review.js` is not part of this model.
- Concurrency is left out. The race between reading a hotel's bookings and creating a new one exists only under concurrent requests. The model handles requests one at a time, and the no-double-booking invariant is proved only for that case.
- Authentication and routing are left out. The caller id is a parameter. `controllers/hotelController.js` is plain create/read/update/delete with no logic of its own, so it is left out. The hotel map never changes in this model.
- Server bootstrap is left out: environment loading, database connection, the other CORS options, the health check and `listen`. The CORS callback's error value is a `false` result.

## Findings

| source | as written | input that shows it | evidently intended | confidence | as-written member | corrected member |
|---|---|---|---|---|---|---|
| controllers/bookingController.js:51-56 | the date-order check compares instants to the millisecond, but nights is the truncated number of whole days between them | check-in 10:00 and check-out 18:00 on the same day: accepted with 0 nights and total price 0 | check-out on a later calendar day, and every admitted stay lasting at least one night | medium; not executed | `StayLength.SameDayStayIsFree` | `StayLength.Nights` |

The rest of the model works on calendar days (`DayOf`), as the corrected rule does.
