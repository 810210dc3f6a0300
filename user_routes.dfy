/** The older user router (routes/user.js): the count-only booking
    transaction, the confirm endpoint, the show listing and the booking read.
    A booking made here carries a seat count and no seat numbers. */
module UserRoutes {
  import opened Wrappers
  import opened Text
  import opened Schema
  import opened Store
  import opened ShowService
  import opened BookingService

  datatype Body =
    | ErrorBody(error: string)
    | BookedBody(booking: Booking, message: string)
    | ShowsBody(rows: seq<AvailableShow>)
    | BookingBody(booking: Booking)

  /** An HTTP status with its JSON body. */
  datatype Reply = Reply(status: int, body: Body)

  /** GET /shows: 200 with the upcoming shows, earliest first, each with
      total_seats minus the seats of its CONFIRMED bookings. */
  function ListShows(shows: seq<Show>, movies: seq<Movie>, bs: seq<Booking>, now: int): (r: Reply)
    ensures r.status == 200 && r.body.ShowsBody?
    ensures forall i, j :: 0 <= i < j < |r.body.rows| ==> r.body.rows[i].show.startTime <= r.body.rows[j].show.startTime
    ensures forall i :: 0 <= i < |r.body.rows| ==>
      && r.body.rows[i].show.startTime > now
      && r.body.rows[i].availableSeats == r.body.rows[i].show.totalSeats - ConfirmedSeats(bs, r.body.rows[i].show.id)
    ensures forall s :: s in shows && s.startTime > now && HasMovie(movies, s.movieId)
                    <==> exists i :: 0 <= i < |r.body.rows| && r.body.rows[i].show == s
    ensures forall s :: multiset(RowShows(r.body.rows))[s] == (if s.startTime > now && HasMovie(movies, s.movieId) then multiset(shows)[s] else 0)
  {
    AvailableShowsCounts(shows, movies, bs, now);
    Reply(200, ShowsBody(GetAvailableShows(shows, movies, bs, now)))
  }

  /** The outcome of POST /shows/:id/book before anything is written. */
  datatype CountDecision = CountReject(status: int, error: string) | CountAdmit(booked: Status, available: int)

  /** The checks of POST /shows/:id/book in their order. user_email "" and
      seats_booked 0 stand for the missing (falsy) fields. */
  function DecideCountBooking(shows: seq<Show>, bs: seq<Booking>, showId: int, userEmail: string, seatsBooked: int)
    : (d: CountDecision)
    ensures d == CountReject(400, "user_email and seats_booked are required") <==> userEmail == "" || seatsBooked == 0
    ensures d == CountReject(400, "seats_booked must be positive") <==> userEmail != "" && seatsBooked < 0
    ensures d == CountReject(404, "Show not found") <==>
      userEmail != "" && seatsBooked > 0 && GetShowById(shows, showId).None?
    ensures d.CountAdmit? <==> userEmail != "" && seatsBooked > 0 && GetShowById(shows, showId).Some?
    ensures d.CountAdmit? ==>
      && userEmail != "" && seatsBooked > 0 && GetShowById(shows, showId).Some?
      && d.available == GetShowById(shows, showId).value.totalSeats - ConfirmedSeats(bs, showId)
      && (d.booked == Pending || d.booked == Failed)
      && (d.booked == Pending <==> d.available >= seatsBooked)
  {
    if userEmail == "" || seatsBooked == 0 then CountReject(400, "user_email and seats_booked are required")
    else if seatsBooked <= 0 then CountReject(400, "seats_booked must be positive")
    else match GetShowById(shows, showId)
      case None => CountReject(404, "Show not found")
      case Some(show) =>
        var available := show.totalSeats - ConfirmedSeats(bs, showId);
        CountAdmit(if available >= seatsBooked then Pending else Failed, available)
  }

  function CountMessage(booked: Status, available: int): string {
    if booked == Pending then "Booking pending. Will confirm within 2 minutes."
    else "Booking failed. Only " + IntToString(available) + " seats available"
  }

  function CountBooking(id: nat, showId: int, userEmail: string, seatsBooked: int, booked: Status, now: int): Booking {
    Booking(id, showId, userEmail, seatsBooked, [], booked, now)
  }

  /** POST /shows/:id/book: a rejected request writes nothing; otherwise one
      PENDING or FAILED row is inserted and the answer is 201. */
  method BookSeats(db: Database, showId: int, userEmail: string, seatsBooked: int, now: int) returns (reply: Reply)
    requires db.Valid()
    modifies db`bookings, db`nextBookingId
    ensures db.Valid()
    ensures match DecideCountBooking(old(db.shows), old(db.bookings), showId, userEmail, seatsBooked)
      case CountReject(status, error) =>
        && reply == Reply(status, ErrorBody(error))
        && db.bookings == old(db.bookings) && db.nextBookingId == old(db.nextBookingId)
      case CountAdmit(booked, available) =>
        var row := CountBooking(old(db.nextBookingId), showId, userEmail, seatsBooked, booked, now);
        && db.bookings == old(db.bookings) + [row]
        && db.nextBookingId == old(db.nextBookingId) + 1
        && reply == Reply(201, BookedBody(row, CountMessage(booked, available)))
  {
    if userEmail == "" || seatsBooked == 0 {
      return Reply(400, ErrorBody("user_email and seats_booked are required"));
    }
    if seatsBooked <= 0 {
      return Reply(400, ErrorBody("seats_booked must be positive"));
    }
    var show := GetShowById(db.shows, showId);
    if show.None? {
      return Reply(404, ErrorBody("Show not found"));
    }
    var totalBooked := ConfirmedSeats(db.bookings, showId);
    var available := show.value.totalSeats - totalBooked;
    var booked := if available >= seatsBooked then Pending else Failed;
    var row := CountBooking(db.nextBookingId, showId, userEmail, seatsBooked, booked, now);
    AppendKeepsDisjoint(db.bookings, row);
    BookingKeysAppend(db.bookings, row, db.nextBookingId);
    assert DecideCountBooking(db.shows, db.bookings, showId, userEmail, seatsBooked) == CountAdmit(booked, available);
    db.bookings, db.nextBookingId := db.bookings + [row], db.nextBookingId + 1;
    reply := Reply(201, BookedBody(row, CountMessage(booked, available)));
  }

  /** A PENDING booking does not reduce availability here: after one is
      admitted, the very same request is decided exactly as before, so
      PENDING bookings of a show can add up to any number of seats. */
  lemma PendingDoesNotReduceAvailability(shows: seq<Show>, bs: seq<Booking>, showId: int, userEmail: string,
                                         seatsBooked: int, id: nat, now: int)
    requires DecideCountBooking(shows, bs, showId, userEmail, seatsBooked).CountAdmit?
    ensures var d := DecideCountBooking(shows, bs, showId, userEmail, seatsBooked);
      DecideCountBooking(shows, bs + [CountBooking(id, showId, userEmail, seatsBooked, d.booked, now)], showId, userEmail, seatsBooked) == d
  {
    var d := DecideCountBooking(shows, bs, showId, userEmail, seatsBooked);
    ConfirmedSeatsAppend(bs, CountBooking(id, showId, userEmail, seatsBooked, d.booked, now), showId);
  }

  /** Ten seats, two requests for six: both are admitted as PENDING, and
      confirming both puts twelve confirmed seats on the show. */
  lemma TwoRequestsForSixOfTenBothPending()
    ensures var show := Show(1, 1, "Screen 1", 100, 10);
      var first := CountBooking(1, 1, "a@b.co", 6, Pending, 0);
      var second := CountBooking(2, 1, "c@d.co", 6, Pending, 0);
      && DecideCountBooking([show], [], 1, "a@b.co", 6) == CountAdmit(Pending, 10)
      && DecideCountBooking([show], [first], 1, "c@d.co", 6) == CountAdmit(Pending, 10)
      && ConfirmedSeats(Transition(Transition([first, second], 1, {Pending}, Confirmed), 2, {Pending}, Confirmed), 1) == 12
  {
    var show := Show(1, 1, "Screen 1", 100, 10);
    var first := CountBooking(1, 1, "a@b.co", 6, Pending, 0);
    var second := CountBooking(2, 1, "c@d.co", 6, Pending, 0);
    assert GetShowById([show], 1) == Some(show);
    ConfirmedSeatsAppend([], first, 1);
    var both := Transition(Transition([first, second], 1, {Pending}, Confirmed), 2, {Pending}, Confirmed);
    assert both == [first.(status := Confirmed), second.(status := Confirmed)];
    assert both[1..] == [second.(status := Confirmed)];
    assert both[1..][1..] == [];
    assert ConfirmedSeats(both[1..], 1) == 6 + ConfirmedSeats(both[1..][1..], 1);
  }

  /** PATCH /bookings/:id/confirm: only a PENDING booking becomes CONFIRMED;
      otherwise 404 and nothing changes. */
  method ConfirmRoute(db: Database, id: int) returns (reply: Reply)
    requires db.Valid()
    modifies db`bookings
    ensures db.Valid()
    ensures db.bookings == Transition(old(db.bookings), id, {Pending}, Confirmed)
    ensures var before := GetBookingById(old(db.bookings), id);
      if before.Some? && before.value.status == Pending
      then reply == Reply(200, BookedBody(before.value.(status := Confirmed), "Booking confirmed"))
      else reply == Reply(404, ErrorBody("Pending booking not found")) && db.bookings == old(db.bookings)
  {
    var row := TransitionStatus(db, id, {Pending}, Confirmed);
    if row.None? {
      return Reply(404, ErrorBody("Pending booking not found"));
    }
    reply := Reply(200, BookedBody(row.value, "Booking confirmed"));
  }

  /** GET /bookings/:id: 200 with the row, or 404 when there is none. */
  function GetBookingRoute(bs: seq<Booking>, id: int): (r: Reply)
    ensures r.status == 200 <==> exists i :: 0 <= i < |bs| && bs[i].id == id
    ensures r.status == 200 ==> r.body.BookingBody? && r.body.booking in bs && r.body.booking.id == id
    ensures r.status != 200 ==> r == Reply(404, ErrorBody("Booking not found"))
  {
    match GetBookingById(bs, id)
    case None => Reply(404, ErrorBody("Booking not found"))
    case Some(b) => Reply(200, BookingBody(b))
  }
}
