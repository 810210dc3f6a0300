# Ticket booking engine — a Dafny model

This project models the seat-inventory and booking-lifecycle engine of a small
cinema ticket-booking service (Node.js, Express, PostgreSQL). A venue publishes
movies and shows. Each show has a fixed number of seats. Users reserve seats,
either by listing seat numbers or by giving a seat count. A reservation starts
as PENDING or FAILED. It is then confirmed or cancelled, or a reaper turns it
FAILED once it is too old.

The three tables (`movies`, `shows`, `bookings`) live in one object,
`Store.Database`. Each table is a `seq` of rows, and each has its SERIAL
counter. `Valid()` is the invariant every operation keeps:

- keys are positive, distinct and below the counter;
- per show, the seat-number lists of the PENDING and CONFIRMED bookings are
  pairwise disjoint.

Each SQL statement that writes is a method that changes those fields. Each
UPDATE over the table is a loop method over rows, proved equal to a pure
function (`Transition`, `Expire`, `PatchShows`, `PatchMovies`). Each read
query is a function over the table values. Each BEGIN…COMMIT block is one
atomic method. `NOW()` becomes an explicit `now` parameter, in integer
seconds.

Modules:

- **Schema**: rows, statuses, the key and disjointness invariants.
- **Store**: the database object.
- **ShowService**, **MovieService**, **BookingService**: the service files.
- **UserRoutes**: the older router with the count-only booking transaction.
- **Validator**: the request validators.
- **ErrorHandler**: the error-to-HTTP mapping.
- **JsValue**: the JavaScript semantics the validators rely on: truthiness,
  `String(v)`, `parseInt`, `Number(v)` and `trim`.
- **Text**, **Ordering**, **Wrappers**: helpers.

Properties of the code that a reader might not expect:

- **Capacity counts only CONFIRMED seats.** Available seats are `total_seats`
  minus the seats of CONFIRMED bookings (src/services/showService.js:87-92,
  routes/user.js:65-73). A booking starts PENDING (routes/user.js:77, "Start as
  PENDING instead of CONFIRMED"), and PENDING seats are not subtracted.
  Confirming does not re-check capacity (src/services/bookingService.js:150-156).
  So the PENDING and CONFIRMED seats of a show can exceed its `total_seats`.
  `UserRoutes.TwoRequestsForSixOfTenBothPending` shows this on a 10-seat show:
  two count-only requests for 6 seats are both PENDING, and after both are
  confirmed 12 seats are CONFIRMED.
- **Seat numbers sent as JSON integers are never held twice.** The conflict
  check (src/services/bookingService.js:40-57) refuses a requested seat that a
  PENDING or CONFIRMED booking of the show already holds; so for such requests
  the seat lists stay disjoint, and `BookingService.SecondSixSeatsOfTenConflict`
  shows a second overlapping request refused with 409. Seats sent as strings
  are outside the model (see "Left out").
- **Duplicates inside one request are accepted.** A request for `[3, 3]` is
  admitted with `seats_booked` 2 (`BookingService.DuplicateSeatInOneRequest`).
- **A CONFIRMED booking can still be cancelled.** `cancelBooking` moves PENDING
  and CONFIRMED bookings to CANCELLED (src/services/bookingService.js:183).

## Model

| member | source | states |
|---|---|---|
| ShowService.GetShowById | src/services/showService.js:61-78 | the result is a row of the table with that id, and it is null exactly when no row has that id (getShowById and getShowWithLock) |
| ShowService.GetShowByIdFinds | src/services/showService.js:61-64 | with distinct keys, looking up the id of any stored row returns that row |
| ShowService.ConfirmedSeats | src/services/showService.js:87-92 | the SUM over CONFIRMED bookings of the show, COALESCEd to 0: it is 0 when the show has no CONFIRMED booking, and never negative when no seats_booked is (also routes/user.js:65-72) |
| ShowService.ConfirmedSeatsAppend | src/services/showService.js:87-92 | a new row adds exactly its own contribution to the confirmed sum: its seats_booked if it is CONFIRMED for that show, else nothing |
| ShowService.ConfirmedSeatsUpdate | src/services/showService.js:87-92 | changing one row's status changes the confirmed sum by the difference of that row's old and new contribution |
| ShowService.UnconfirmedMovesKeepConfirmedSeats | src/services/showService.js:87-92 | status changes that neither enter nor leave CONFIRMED keep every show's confirmed sum |
| ShowService.CalculateAvailableSeats | src/services/showService.js:86-107 | 0 for an unknown show; otherwise total_seats minus the CONFIRMED seats of that show, not clamped at 0 |
| ShowService.AvailabilityCountsOnlyConfirmed | src/services/showService.js:86-107 | adding a PENDING, FAILED or CANCELLED booking never changes the available seats |
| ShowService.ShowsWithMovie | src/services/showService.js:23-24 | the inner join keeps exactly the shows whose movie exists |
| ShowService.ShowsWithMovieCounts | src/services/showService.js:23-24 | the join keeps each show whose movie exists as many times as the table holds it, and no other show |
| ShowService.StartingAfter | src/services/showService.js:49 | keeps exactly the shows whose start_time is after now |
| ShowService.StartingAfterCounts | src/services/showService.js:49 | the filter keeps each show that starts after now as many times as the list holds it, and no other show |
| ShowService.GetAllShowsWithMovies | src/services/showService.js:20-28 | a permutation of the joined shows (exactly the shows whose movie exists, each as often as the table holds it), ordered by start_time |
| ShowService.UpcomingCounts | src/services/showService.js:46-51 | the shows that start after now and whose movie exists occur as often as in the table; no other show occurs |
| ShowService.WithAvailability | src/services/showService.js:44-45 | one listing row per show, in order, with booked and available seats computed from CONFIRMED bookings |
| ShowService.GetAvailableShows | src/services/showService.js:34-54 | ordered by start_time; exactly the shows that start after now and whose movie exists; each row has booked_seats equal to the confirmed sum and available_seats equal to total_seats minus it |
| ShowService.RowShows | src/services/showService.js:36-40 | the show of each listing row, in order |
| ShowService.AvailableShowsCounts | src/services/showService.js:34-54 | the listing holds each show that starts after now and whose movie exists as often as the table does, and no other show |
| ShowService.AvailableShowsListEachShowOnce | src/services/showService.js:46-51 | with distinct keys, no two listing rows are for the same show (GROUP BY s.id) |
| ShowService.SameIdSameShow | src/services/showService.js:50 | with distinct keys, two rows with one id are the same row |
| ShowService.DistinctKeysCountOnce | src/services/showService.js:50 | with distinct keys, every row occurs at most once in the table |
| ShowService.UpcomingStaysSorted | src/services/showService.js:49-51 | filtering a start-time-ordered list by start time keeps it ordered |
| ShowService.AvailableShowsAgreeWithCalculation | src/services/showService.js:44-45 | the available_seats the listing reports equals what calculateAvailableSeats returns for that show |
| ShowService.CreateShow | src/services/showService.js:8-14 | appends exactly one row with the next id and the given movie_id, screen_name, start_time and total_seats, and returns it; the invariant is kept |
| ShowService.PatchShows | src/services/showService.js:117-125 | the UPDATE patches the row with that id and leaves every other row as it was |
| ShowService.PatchShow | src/services/showService.js:119-121 | COALESCE per field: a supplied screen_name, start_time or total_seats overwrites, a null one keeps the old value; id and movie_id never change |
| ShowService.UpdateShow | src/services/showService.js:115-127 | non-null fields overwrite, the others are kept; the result is null exactly when no row has that id, and then the table is unchanged |
| ShowService.PatchShowRows | src/services/showService.js:117-125 | the loop over rows computes the patched table and returns the patched row, or None exactly when no row has that id |
| ShowService.PatchedShowIsLookup | src/services/showService.js:126 | the row the update returns is the looked-up row, patched |
| ShowService.PatchShowsKeepsKeys | src/services/showService.js:118-123 | an update, which never changes ids, keeps the key invariant |
| ShowService.WithoutShow | src/services/showService.js:135 | the DELETE keeps exactly the rows with a different id |
| ShowService.WithoutShowKeepsKeys | src/services/showService.js:135 | deleting rows keeps the key invariant |
| ShowService.DeleteShow | src/services/showService.js:134-137 | returns true exactly when a row with that id existed; afterwards exactly the other rows remain |
| MovieService.StoredDescription | src/services/movieService.js:11 | a missing or empty description is stored as NULL; any other description is stored as given |
| MovieService.CreateMovie | src/services/movieService.js:8-14 | appends exactly one row with the next id, the given title and duration, and the stored description, and returns it |
| MovieService.GetAllMovies | src/services/movieService.js:20-23 | a permutation of the table, newest created_at first |
| MovieService.GetMovieById | src/services/movieService.js:30-33 | the result is a row with that id, and it is null exactly when none exists |
| MovieService.GetMovieByIdFinds | src/services/movieService.js:30-33 | with distinct keys, looking up any stored row's id returns that row |
| MovieService.PatchMovies | src/services/movieService.js:43-51 | the UPDATE patches the row with that id and leaves every other row as it was |
| MovieService.PatchMovie | src/services/movieService.js:45-47 | COALESCE per field: a supplied title, description or duration_minutes overwrites, a null one keeps the old value; id and created_at never change |
| MovieService.UpdateMovie | src/services/movieService.js:41-53 | non-null fields overwrite, the others are kept; the result is null exactly when no row has that id, and then the table is unchanged |
| MovieService.PatchMovieRows | src/services/movieService.js:43-51 | the loop over rows computes the patched table and returns the patched row, or None exactly when no row has that id |
| MovieService.PatchedMovieIsLookup | src/services/movieService.js:52 | the row the update returns is the looked-up row, patched |
| MovieService.PatchMoviesKeepsKeys | src/services/movieService.js:44-49 | an update keeps the key invariant |
| MovieService.WithoutMovie | src/services/movieService.js:61 | the DELETE keeps exactly the rows with a different id |
| MovieService.WithoutMovieKeepsKeys | src/services/movieService.js:61 | deleting rows keeps the key invariant |
| MovieService.DeleteMovie | src/services/movieService.js:60-63 | returns true exactly when a row with that id existed; afterwards exactly the other rows remain |
| BookingService.GetBookingById | src/services/bookingService.js:114-124 | the result is a booking with that id, and it is null exactly when none exists |
| BookingService.GetBookingByIdFinds | src/services/bookingService.js:114-124 | with distinct keys, looking up any stored booking's id returns it |
| BookingService.BookingsOfUser | src/services/bookingService.js:137 | keeps exactly the bookings with that email |
| BookingService.GetBookingsByEmail | src/services/bookingService.js:131-142 | exactly that email's bookings, as a permutation of them, newest created_at first |
| BookingService.GetAllBookings | src/services/bookingService.js:224-233 | a permutation of all bookings, newest created_at first |
| BookingService.HeldSeatList | src/services/bookingService.js:40-45 | a seat is listed exactly when a PENDING or CONFIRMED booking of the show holds it |
| BookingService.GetBookedSeatsForShow | src/services/bookingService.js:240-249 | strictly ascending, so distinct; contains exactly the seats held by PENDING or CONFIRMED bookings of the show |
| BookingService.Conflicting | src/services/bookingService.js:47-48 | keeps exactly the requested seats that are already held |
| BookingService.OutOfRange | src/services/bookingService.js:60 | keeps exactly the requested seats outside 1..total_seats |
| BookingService.DecideBooking | src/services/bookingService.js:9-82 | checks in the source's order, each as an if-and-only-if: unknown show 404; seat_numbers not a non-empty array 400; some seat already held 409, listing exactly those seats; some seat out of range 400, listing exactly those; otherwise admitted with available = total minus CONFIRMED seats, and PENDING exactly when available >= the number of requested seats, else FAILED |
| BookingService.AdmittedBookingKeepsSeatsDisjoint | src/services/bookingService.js:39-57 | the row an admitted request inserts shares no seat number with any PENDING or CONFIRMED booking of the show |
| BookingService.DuplicateSeatInOneRequest | src/services/bookingService.js:37-68 | [3, 3] on a free 10-seat show is admitted as PENDING with seats_booked 2 |
| BookingService.FirstSixSeatsOfTenPending | src/services/bookingService.js:71-82 | seats 1..6 on a free 10-seat show are admitted as PENDING |
| BookingService.SecondSixSeatsOfTenConflict | src/services/bookingService.js:40-57 | after that, seats 5..10 are refused with 409, naming seats 5 and 6 |
| BookingService.HeldByOneBooking | src/services/bookingService.js:40-45 | a single booking holding seats contributes exactly its seat list |
| BookingService.SixAgainstSix | src/services/bookingService.js:47-48 | [5..10] against held [1..6] conflicts on exactly [5, 6] |
| BookingService.CreateBooking | src/services/bookingService.js:9-107 | a rejection returns its message and status and leaves the table and counter unchanged; an admission appends exactly one row with the next id, seats_booked = number of seats and the decided status, and returns success = PENDING, the message and 201; the invariant is kept |
| BookingService.Transition | src/services/bookingService.js:150-156 | the conditional UPDATE rewrites the status of exactly the rows with that id and a status in the given set |
| BookingService.TransitionStatus | src/services/bookingService.js:150-158 | applies that UPDATE and returns the row before the update, with the new status, when it had that id and a matching status, or nothing with the table unchanged |
| BookingService.TransitionRows | src/services/bookingService.js:150-156 | the loop over rows computes the UPDATE and finds a matching row exactly when one exists |
| BookingService.TransitionRowIsLookup | src/services/bookingService.js:153-158 | with distinct keys, the returned row is the looked-up booking, transitioned, when its status matched |
| BookingService.TransitionKeepsValidity | src/services/bookingService.js:179-188 | a transition whose target holds seats only from seat-holding sources keeps keys and seat disjointness |
| BookingService.ConfirmBooking | src/services/bookingService.js:149-172 | only a PENDING booking becomes CONFIRMED, with 200 and the updated row; otherwise 404 and nothing changes |
| BookingService.CancelBooking | src/services/bookingService.js:179-202 | a PENDING or CONFIRMED booking becomes CANCELLED, with 200; a missing, FAILED or CANCELLED booking gives 404 and nothing changes |
| BookingService.SecondConfirmChangesNothing | src/services/bookingService.js:151-153 | after a confirm no row with that id is PENDING, so a second confirm changes nothing |
| BookingService.TransitionIsSingleRowUpdate | src/services/bookingService.js:151-153 | with distinct keys, the UPDATE changes exactly one row, only in its status |
| BookingService.ConfirmAddsSeatsUnchecked | src/services/bookingService.js:149-172 | confirming adds the booking's seats_booked to the confirmed sum, with no capacity check |
| BookingService.CancelReleasesConfirmedSeats | src/services/bookingService.js:179-202 | cancelling a CONFIRMED booking removes its seats_booked from the confirmed sum |
| BookingService.Expire | src/services/bookingService.js:211-215 | exactly the PENDING rows created before the cutoff become FAILED; every other row is untouched |
| BookingService.ExpirableCount | src/services/bookingService.js:213-217 | the number of rows the UPDATE returns: at most the table size, and 0 exactly when no row is PENDING and older than the cutoff |
| BookingService.ExpireLeavesNothingToExpire | src/services/bookingService.js:209-218 | afterwards no row is left to expire, so a second run with the same cutoff counts 0 and changes nothing |
| BookingService.ExpireKeepsConfirmedSeats | src/services/bookingService.js:209-218 | expiry leaves every show's confirmed sum, and so its availability, unchanged |
| BookingService.ExpireOnlyReleasesSeats | src/services/bookingService.js:211-215 | every seat held after expiry was held before |
| BookingService.ExpiredSeatsBecomeFree | src/services/bookingService.js:211-215 | a seat of an expired booking is held by no booking afterwards |
| BookingService.OperationsFollowStateMachine | src/services/bookingService.js:151-215 | confirm, cancel and expire only make the moves PENDING to CONFIRMED, CANCELLED or FAILED, and CONFIRMED to CANCELLED |
| BookingService.ExpirePendingBookings | src/services/bookingService.js:209-218 | the table becomes the expired table for cutoff now - minutes * 60, the count is the number of rows that expired, and the invariant is kept |
| BookingService.ExpireRows | src/services/bookingService.js:210-217 | the loop over rows computes the expired table and counts the rows that expired |
| UserRoutes.ListShows | routes/user.js:6-31 | 200 with the shows that start after now and whose movie exists, each as often as the table holds it, by start_time, each with available_seats = total_seats minus CONFIRMED seats |
| UserRoutes.DecideCountBooking | routes/user.js:35-80 | checks in the route's order, each as an if-and-only-if: missing email or count 400; count at most 0 400; unknown show 404; admitted exactly when all three pass with available = total minus CONFIRMED seats, PENDING exactly when available >= seats_booked, else FAILED |
| UserRoutes.BookSeats | routes/user.js:34-106 | a rejection answers its status and error and inserts nothing; an admission inserts exactly one row with no seat numbers and answers 201 with the route's message |
| UserRoutes.PendingDoesNotReduceAvailability | routes/user.js:64-80 | after an admitted count-only booking, the same request again gets the same decision and the same availability |
| UserRoutes.TwoRequestsForSixOfTenBothPending | routes/user.js:64-80 | on a 10-seat show two requests for 6 are both PENDING, and confirming both leaves 12 seats CONFIRMED |
| UserRoutes.ConfirmRoute | routes/user.js:134-155 | only a PENDING booking becomes CONFIRMED, answered with 200; otherwise 404 "Pending booking not found" and nothing changes |
| UserRoutes.GetBookingRoute | routes/user.js:109-131 | 200 with the booking exactly when one has that id; otherwise 404 "Booking not found" |
| Validator.IndexOf | src/middleware/validator.js:9 | the first position of the character, or none when it does not occur |
| Validator.MatchesEmailIsRegex | src/middleware/validator.js:8-11 | every string the split test accepts has the shape local@domain.tld with non-empty parts free of white space and '@' |
| Validator.RegexEmailMatches | src/middleware/validator.js:8-11 | every string of that shape passes the split test |
| Validator.FirstAtAfterLocalPart | src/middleware/validator.js:9 | in local@rest, where local has no '@', the first '@' is the one after local |
| Validator.MatchesEmailIffRegex | src/middleware/validator.js:8-11 | the split test and the pattern accept the same strings |
| Validator.ValidateEmail | src/middleware/validator.js:8-11 | true exactly when String(email) matches the pattern |
| Validator.PositiveIntegerOfNumber | src/middleware/validator.js:16-19 | on an integer, and on its decimal text, the check is true exactly when the value is positive |
| Validator.ValidatePositiveInteger | src/middleware/validator.js:16-19 | a value it accepts is truthy; on a JSON integer it is true exactly when the integer is positive |
| Validator.PositiveIntegerReadsString | src/middleware/validator.js:17-18 | the check is true exactly when parseInt of String(value) is a number above 0 |
| Validator.ValidateBookingRequest | src/middleware/validator.js:32-67 | the first failing check decides the message, in the source's order; next() is reached exactly when the email is valid and seat_numbers is an array of 1 to 10 positive integers |
| Validator.AllPositiveIntegers | src/middleware/validator.js:60-64 | the loop is true exactly when every seat passes the positive-integer check |
| Validator.ValidateMovieRequest | src/middleware/validator.js:72-96 | next() exactly when the title is a non-blank string of at most 200 characters and duration_minutes is a positive integer not above 500; a truthy non-string title throws; every other refusal is one of the source's five messages |
| Validator.ValidateShowRequest | src/middleware/validator.js:101-137 | next() exactly when movie_id is a positive integer, screen_name a non-blank string, start_time present and in the future, and total_seats a positive integer not above 1000; a truthy non-string screen_name throws after movie_id passes; a missing start_time is reported after the earlier checks pass |
| Validator.ValidateIdParam | src/middleware/validator.js:142-150 | next() exactly when parseInt(id) is a number above 0, else 400 "Invalid ID parameter" |
| Validator.IdParamOfInteger | src/middleware/validator.js:142-150 | on the decimal text of an integer, next() exactly when it is positive |
| JsValue.TrimStart | src/middleware/validator.js:75 | removes exactly the leading white space |
| JsValue.TrimEnd | src/middleware/validator.js:75 | removes exactly the trailing white space |
| JsValue.TrimEmptyIffBlank | src/middleware/validator.js:75 | title.trim() is empty exactly when the title is all white space |
| JsValue.LeadingNumber | src/middleware/validator.js:17 | parseInt's digit run is NaN exactly when the text does not start with a digit of the base |
| JsValue.ParseIntOfString | src/middleware/validator.js:17 | parseInt of an integer's decimal text gives back that integer |
| JsValue.ParseIntOfWord | src/middleware/validator.js:17 | parseInt of text that starts with anything but white space, a sign or a digit is NaN |
| JsValue.ParseIntValueIsParseIntOfString | src/middleware/validator.js:17 | parseInt(value) is parseInt of String(value) |
| ErrorHandler.HandleError | src/middleware/errorHandler.js:5-55 | 23505 gives 409 "Duplicate entry"; 23503, 23502 and 22P02 give 400 with their messages and details; otherwise ValidationError gives 400 "Validation failed"; otherwise statusCode or 500, with message or "Internal server error" |
| ErrorHandler.KnownCodeDecides | src/middleware/errorHandler.js:17-40 | a recognised code decides the answer whatever the error's name and statusCode, and the status is 400 or 409 |
| ErrorHandler.UnknownCodeIgnored | src/middleware/errorHandler.js:17-48 | an unrecognised code is handled as if there were no code |
| ErrorHandler.PlainErrorIsInternal | src/middleware/errorHandler.js:51-54 | a plain Error without statusCode gives 500 with its message, or "Internal server error" when the message is empty |
| ErrorHandler.TrimTypeErrorIsInternal | src/middleware/errorHandler.js:51-54 | the TypeError a non-string title raises in validateMovieRequest becomes 500 with its message |
| ErrorHandler.NotFoundHandler | src/middleware/errorHandler.js:60-66 | always 404 "Route not found" with the request's path and method |

## Left out

- Row locking (`FOR UPDATE`), BEGIN/COMMIT/ROLLBACK and interleavings: each transaction is one atomic method, so concurrency is not modelled.
- The connection pool, the Express wiring, the controllers and the routers other than `routes/user.js`: I/O and glue.
- Logging with `console.error`.
- The expiry workers' timer. Their rule is `BookingService.ExpirePendingBookings` with `BookingService.DefaultExpiryMinutes` (2), applied with an explicit `now`.
- `validateFutureDate`: it reads the clock and parses dates. Its result is the `startsInFuture` parameter of `Validator.ValidateShowRequest`.
- Validator.ValidateShowRequest: states the accepted requests, the throw and the start_time message, but not each of the other refusal messages.
- Validator.ValidateMovieRequest: states which message set a refusal draws from, not which message each failing check gives.
- Floating-point JSON numbers, NaN and Infinity: `JsValue.Value` has integers only. `Number(v)` works on exact reals and treats exponent notation and "Infinity" as NaN. Integers beyond 2^53 are not rounded.
- String length counts code points, not UTF-16 code units.
- createBooking's `seat_numbers` is `Option<seq<int>>`: an array of non-integers (strings, floats) is not modelled.
- BookingService.CreateBooking: keeps seat disjointness only because seats are integers here. The validator accepts the string "5" (parseInt reads it). The conflict test `includes` does not match "5" against a stored 5, the range check coerces "5" and passes it, and the INSERT can store 5. So a seat sent as a string can be held twice, depending on the column type, which the repository does not define.
- BookingService.AdmittedBookingKeepsSeatsDisjoint: holds for integer seat numbers only, for the reason given on the line above.
- ShowService.DeleteShow: always deletes. A show that bookings still reference makes the real DELETE fail with a foreign-key error, which the error handler turns into 400; that path is not modelled.
- MovieService.DeleteMovie: always deletes. A movie that shows still reference makes the real DELETE fail with a foreign-key error (400 through the error handler); that path is not modelled.
- The count-only route takes `user_email` as a string ("" when missing) and `seats_booked` as an integer (0 when missing). Other JSON types there are not modelled.
- A non-numeric `:id` in `routes/user.js` (parseInt gives NaN, and the query fails with a 500).
- Database constraint errors and the 500 catch paths of the services and routes. Inner joins with shows and movies on booking reads add display columns only, and are modelled as not filtering.
- The development-mode stack trace in the error handler.
- NULL `seat_numbers` of count-only bookings is modelled as the empty list, which `unnest` treats the same way.
- Timestamps are integer seconds, and `INTERVAL 'm minutes'` is `m * 60`.
- The join text of error messages uses `JoinInts`, which writes ", " between the numbers as `join(', ')` does.
