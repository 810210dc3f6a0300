/** The booking ledger: the seat-number reservation transaction, the status
    transitions confirm and cancel, the expiry of stale PENDING bookings and
    the read queries (src/services/bookingService.js). */
module BookingService {
  import opened Wrappers
  import opened Text
  import opened Schema
  import opened Store
  import opened Ordering
  import opened ShowService

  /** The object a service function resolves to. */
  datatype ServiceResult =
    | Refused(error: string, statusCode: int)                              // { success: false, error, statusCode }
    | Done(success: bool, booking: Booking, message: string, statusCode: int)

  // ---------------------------------------------------------------- queries

  /** SELECT … FROM bookings WHERE id = $1; None when there is no such row. */
  function GetBookingById(bs: seq<Booking>, id: int): (r: Option<Booking>)
    ensures r.Some? ==> r.value in bs && r.value.id == id
    ensures r.None? <==> forall i :: 0 <= i < |bs| ==> bs[i].id != id
  {
    if |bs| == 0 then None
    else if bs[0].id == id then Some(bs[0])
    else GetBookingById(bs[1..], id)
  }

  /** With distinct ids, the lookup finds exactly the row that carries the id. */
  lemma {:induction false} GetBookingByIdFinds(bs: seq<Booking>, next: nat, k: int)
    requires BookingKeys(bs, next)
    requires 0 <= k < |bs|
    ensures GetBookingById(bs, bs[k].id) == Some(bs[k])
  {
    if k > 0 {
      assert bs[0].id != bs[k].id;
      GetBookingByIdFinds(bs[1..], next, k - 1);
    }
  }

  /** ORDER BY created_at DESC is ascending order of this key. */
  function NewestFirst(b: Booking): int { -b.createdAt }

  /** WHERE user_email = $1, in table order. */
  function BookingsOfUser(bs: seq<Booking>, email: string): (r: seq<Booking>)
    ensures forall b :: b in r <==> b in bs && b.userEmail == email
  {
    if |bs| == 0 then []
    else
      var rest := BookingsOfUser(bs[1..], email);
      assert forall b :: b in bs <==> b == bs[0] || b in bs[1..];
      if bs[0].userEmail == email then [bs[0]] + rest else rest
  }

  /** getBookingsByEmail: that user's bookings, newest created_at first. */
  function GetBookingsByEmail(bs: seq<Booking>, email: string): (r: seq<Booking>)
    ensures forall i, j :: 0 <= i < j < |r| ==> r[i].createdAt >= r[j].createdAt
    ensures forall b :: b in r <==> b in bs && b.userEmail == email
    ensures multiset(r) == multiset(BookingsOfUser(bs, email))
  {
    var mine := BookingsOfUser(bs, email);
    var r := SortBy(mine, NewestFirst);
    assert forall i, j :: 0 <= i < j < |r| ==> NewestFirst(r[i]) <= NewestFirst(r[j]);
    assert forall b :: b in r <==> b in multiset(mine);
    r
  }

  /** getAllBookings: every booking, newest created_at first. */
  function GetAllBookings(bs: seq<Booking>): (r: seq<Booking>)
    ensures forall i, j :: 0 <= i < j < |r| ==> r[i].createdAt >= r[j].createdAt
    ensures multiset(r) == multiset(bs)
  {
    var r := SortBy(bs, NewestFirst);
    assert forall i, j :: 0 <= i < j < |r| ==> NewestFirst(r[i]) <= NewestFirst(r[j]);
    r
  }

  /** A seat number some PENDING or CONFIRMED booking of the show holds. */
  ghost predicate SeatHeld(bs: seq<Booking>, showId: int, seat: int) {
    exists i :: 0 <= i < |bs| && bs[i].showId == showId && HoldsSeats(bs[i].status) && seat in bs[i].seatNumbers
  }

  /** SELECT unnest(seat_numbers) FROM bookings WHERE show_id = $1 AND status
      IN ('PENDING', 'CONFIRMED'): the held seat numbers, repeats included. */
  function HeldSeatList(bs: seq<Booking>, showId: int): (r: seq<int>)
    ensures forall x :: x in r <==> SeatHeld(bs, showId, x)
  {
    if |bs| == 0 then []
    else
      var rest := HeldSeatList(bs[1..], showId);
      assert forall x :: SeatHeld(bs[1..], showId, x) ==> SeatHeld(bs, showId, x) by {
        forall x | SeatHeld(bs[1..], showId, x) ensures SeatHeld(bs, showId, x) {
          var i :| 0 <= i < |bs[1..]| && bs[1..][i].showId == showId && HoldsSeats(bs[1..][i].status) && x in bs[1..][i].seatNumbers;
          assert bs[i + 1] == bs[1..][i];
        }
      }
      assert forall x :: SeatHeld(bs, showId, x) ==> SeatHeld(bs[1..], showId, x) || (x in bs[0].seatNumbers && bs[0].showId == showId && HoldsSeats(bs[0].status)) by {
        forall x | SeatHeld(bs, showId, x)
          ensures SeatHeld(bs[1..], showId, x) || (x in bs[0].seatNumbers && bs[0].showId == showId && HoldsSeats(bs[0].status))
        {
          var i :| 0 <= i < |bs| && bs[i].showId == showId && HoldsSeats(bs[i].status) && x in bs[i].seatNumbers;
          if i > 0 { assert bs[1..][i - 1] == bs[i]; }
        }
      }
      if bs[0].showId == showId && HoldsSeats(bs[0].status) then bs[0].seatNumbers + rest else rest
  }

  /** getBookedSeatsForShow: the distinct seat numbers held by PENDING or
      CONFIRMED bookings of the show, in ascending order. */
  function GetBookedSeatsForShow(bs: seq<Booking>, showId: int): (r: seq<int>)
    ensures StrictlyIncreasing(r)
    ensures forall x :: x in r <==> SeatHeld(bs, showId, x)
  {
    DistinctAscending(HeldSeatList(bs, showId))
  }

  // ----------------------------------------------------- the reservation

  /** seat_numbers.filter(seat => alreadyBookedSeats.includes(seat)) */
  function Conflicting(seats: seq<int>, held: seq<int>): (r: seq<int>)
    ensures forall x :: x in r <==> x in seats && x in held
  {
    if |seats| == 0 then []
    else
      var rest := Conflicting(seats[1..], held);
      assert forall x :: x in seats <==> x == seats[0] || x in seats[1..];
      if seats[0] in held then [seats[0]] + rest else rest
  }

  predicate InRange(seat: int, totalSeats: int) {
    1 <= seat <= totalSeats
  }

  /** seat_numbers.filter(seat => seat < 1 || seat > show.total_seats) */
  function OutOfRange(seats: seq<int>, totalSeats: int): (r: seq<int>)
    ensures forall x :: x in r <==> x in seats && !InRange(x, totalSeats)
  {
    if |seats| == 0 then []
    else
      var rest := OutOfRange(seats[1..], totalSeats);
      assert forall x :: x in seats <==> x == seats[0] || x in seats[1..];
      if !InRange(seats[0], totalSeats) then [seats[0]] + rest else rest
  }

  /** Why createBooking returns before inserting anything. */
  datatype Rejection =
    | ShowNotFound
    | NotANonEmptyArray
    | SeatsTaken(seats: seq<int>)
    | SeatsOutOfRange(seats: seq<int>, totalSeats: int)
  {
    function StatusCode(): int {
      match this
      case ShowNotFound => 404
      case NotANonEmptyArray => 400
      case SeatsTaken(_) => 409
      case SeatsOutOfRange(_, _) => 400
    }

    function Message(): string {
      match this
      case ShowNotFound => "Show not found"
      case NotANonEmptyArray => "seat_numbers must be a non-empty array"
      case SeatsTaken(seats) => "Seats already booked: " + JoinInts(seats)
      case SeatsOutOfRange(seats, total) =>
        "Invalid seat numbers: " + JoinInts(seats) + ". Must be between 1 and " + IntToString(total)
    }
  }

  /** The outcome of the reservation's checks: no insert, or an insert with
      this status, decided with this many seats available. */
  datatype Decision = Reject(why: Rejection) | Admit(status: Status, available: int)

  /** The decision createBooking takes, check by check, for a request on
      showId with seat_numbers (None when it is not an array). */
  function DecideBooking(shows: seq<Show>, bs: seq<Booking>, showId: int, seatNumbers: Option<seq<int>>): (d: Decision)
    ensures d == Reject(ShowNotFound) <==> GetShowById(shows, showId).None?
    ensures d == Reject(NotANonEmptyArray) <==>
      GetShowById(shows, showId).Some? && (seatNumbers.None? || |seatNumbers.value| == 0)
    ensures (d.Reject? && d.why.SeatsTaken?) <==>
      && GetShowById(shows, showId).Some? && seatNumbers.Some? && |seatNumbers.value| > 0
      && exists k :: 0 <= k < |seatNumbers.value| && SeatHeld(bs, showId, seatNumbers.value[k])
    ensures d.Reject? && d.why.SeatsTaken? ==>
      forall x :: x in d.why.seats <==> x in seatNumbers.value && SeatHeld(bs, showId, x)
    ensures (d.Reject? && d.why.SeatsOutOfRange?) <==>
      && GetShowById(shows, showId).Some? && seatNumbers.Some? && |seatNumbers.value| > 0
      && (forall k :: 0 <= k < |seatNumbers.value| ==> !SeatHeld(bs, showId, seatNumbers.value[k]))
      && exists k :: 0 <= k < |seatNumbers.value| && !InRange(seatNumbers.value[k], GetShowById(shows, showId).value.totalSeats)
    ensures d.Reject? && d.why.SeatsOutOfRange? ==>
      && d.why.totalSeats == GetShowById(shows, showId).value.totalSeats
      && forall x :: x in d.why.seats <==> x in seatNumbers.value && !InRange(x, d.why.totalSeats)
    ensures d.Admit? ==>
      && GetShowById(shows, showId).Some? && seatNumbers.Some? && |seatNumbers.value| > 0
      && (forall k :: 0 <= k < |seatNumbers.value| ==> !SeatHeld(bs, showId, seatNumbers.value[k]))
      && (forall k :: 0 <= k < |seatNumbers.value| ==> InRange(seatNumbers.value[k], GetShowById(shows, showId).value.totalSeats))
      && d.available == GetShowById(shows, showId).value.totalSeats - ConfirmedSeats(bs, showId)
      && (d.status == Pending || d.status == Failed)
      && (d.status == Pending <==> d.available >= |seatNumbers.value|)
  {
    var show := GetShowById(shows, showId);
    if show.None? then Reject(ShowNotFound)
    else if seatNumbers.None? || |seatNumbers.value| == 0 then Reject(NotANonEmptyArray)
    else
      var seats := seatNumbers.value;
      var conflicting := Conflicting(seats, HeldSeatList(bs, showId));
      if |conflicting| > 0 then
        assert conflicting[0] in seats;
        Reject(SeatsTaken(conflicting))
      else
        assert forall k :: 0 <= k < |seats| ==> !SeatHeld(bs, showId, seats[k]) by {
          forall k | 0 <= k < |seats| ensures !SeatHeld(bs, showId, seats[k]) {
            assert seats[k] in seats && seats[k] !in conflicting;
          }
        }
        var invalid := OutOfRange(seats, show.value.totalSeats);
        if |invalid| > 0 then
          assert invalid[0] in invalid;
          var k :| 0 <= k < |seats| && seats[k] == invalid[0];
          assert !InRange(seats[k], show.value.totalSeats);
          Reject(SeatsOutOfRange(invalid, show.value.totalSeats))
        else
          var available := CalculateAvailableSeats(shows, bs, showId);
          Admit(if available >= |seats| then Pending else Failed, available)
  }

  /** The row createBooking inserts. */
  function NewBooking(id: nat, showId: int, userEmail: string, seats: seq<int>, status: Status, now: int): Booking {
    Booking(id, showId, userEmail, |seats|, seats, status, now)
  }

  function AdmitMessage(status: Status, available: int): string {
    if status == Pending then "Booking pending. Please confirm within 2 minutes."
    else "Booking failed. Only " + IntToString(available) + " seats available."
  }

  /** A booking admitted by the reservation never shares a seat number with a
      booking of its show that holds seats, so the ledger stays disjoint. */
  lemma AdmittedBookingKeepsSeatsDisjoint(shows: seq<Show>, bs: seq<Booking>, showId: int, seatNumbers: Option<seq<int>>,
                                          id: nat, userEmail: string, now: int)
    requires SeatsDisjoint(bs)
    requires DecideBooking(shows, bs, showId, seatNumbers).Admit?
    ensures var d := DecideBooking(shows, bs, showId, seatNumbers);
      SeatsDisjoint(bs + [NewBooking(id, showId, userEmail, seatNumbers.value, d.status, now)])
  {
    var d := DecideBooking(shows, bs, showId, seatNumbers);
    var b := NewBooking(id, showId, userEmail, seatNumbers.value, d.status, now);
    forall i | 0 <= i < |bs| ensures NoSharedSeat(bs[i], b) {
      if bs[i].showId == showId && HoldsSeats(bs[i].status) {
        forall x | x in bs[i].seatNumbers ensures x !in b.seatNumbers {
          assert SeatHeld(bs, showId, x);
        }
      }
    }
    AppendKeepsDisjoint(bs, b);
  }

  /** A request may name the same seat twice: [3, 3] on an empty show of ten
      seats is admitted as PENDING with seats_booked 2. */
  lemma DuplicateSeatInOneRequest()
    ensures var show := Show(1, 1, "Screen 1", 100, 10);
      && DecideBooking([show], [], 1, Some([3, 3])) == Admit(Pending, 10)
      && NewBooking(1, 1, "a@b.co", [3, 3], Pending, 0).seatsBooked == 2
  {
    var show := Show(1, 1, "Screen 1", 100, 10);
    assert GetShowById([show], 1) == Some(show);
    assert HeldSeatList([], 1) == [];
    assert Conflicting([3, 3], []) == [];
    assert OutOfRange([3, 3], 10) == [];
  }

  /** Ten seats, two requests for six seat numbers: the first is admitted
      as PENDING ... */
  lemma FirstSixSeatsOfTenPending()
    ensures DecideBooking([Show(1, 1, "Screen 1", 100, 10)], [], 1, Some([1, 2, 3, 4, 5, 6])) == Admit(Pending, 10)
  {
    var show := Show(1, 1, "Screen 1", 100, 10);
    assert GetShowById([show], 1) == Some(show);
    assert HeldSeatList([], 1) == [];
    assert OutOfRange([1, 2, 3, 4, 5, 6], 10) == [];
  }

  /** ... and the second must reuse two of its seats, so it is refused with
      409 rather than recorded as FAILED. */
  lemma SecondSixSeatsOfTenConflict()
    ensures var first := NewBooking(1, 1, "a@b.co", [1, 2, 3, 4, 5, 6], Pending, 0);
      DecideBooking([Show(1, 1, "Screen 1", 100, 10)], [first], 1, Some([5, 6, 7, 8, 9, 10])) == Reject(SeatsTaken([5, 6]))
  {
    var show := Show(1, 1, "Screen 1", 100, 10);
    var first := NewBooking(1, 1, "a@b.co", [1, 2, 3, 4, 5, 6], Pending, 0);
    assert GetShowById([show], 1) == Some(show);
    HeldByOneBooking(first);
    SixAgainstSix();
  }

  lemma HeldByOneBooking(b: Booking)
    requires HoldsSeats(b.status)
    ensures HeldSeatList([b], b.showId) == b.seatNumbers
  {
    assert [b][1..] == [];
  }

  lemma SixAgainstSix()
    ensures Conflicting([5, 6, 7, 8, 9, 10], [1, 2, 3, 4, 5, 6]) == [5, 6]
  {
    var held := [1, 2, 3, 4, 5, 6];
    var seats := [5, 6, 7, 8, 9, 10];
    assert Conflicting(seats[6..], held) == [];
    assert Conflicting(seats[5..], held) == [];
    assert Conflicting(seats[4..], held) == [];
    assert Conflicting(seats[3..], held) == [];
    assert Conflicting(seats[2..], held) == [];
    assert Conflicting(seats[1..], held) == [6];
    assert seats[0..] == seats;
  }

  /** createBooking: the whole transaction. A rejection inserts nothing; an
      admitted request inserts one PENDING or FAILED row and answers 201. */
  method CreateBooking(db: Database, showId: int, userEmail: string, seatNumbers: Option<seq<int>>, now: int)
    returns (result: ServiceResult)
    requires db.Valid()
    modifies db`bookings, db`nextBookingId
    ensures db.Valid()
    ensures var d := DecideBooking(old(db.shows), old(db.bookings), showId, seatNumbers);
      match d
      case Reject(why) =>
        && result == Refused(why.Message(), why.StatusCode())
        && db.bookings == old(db.bookings) && db.nextBookingId == old(db.nextBookingId)
      case Admit(status, available) =>
        var row := NewBooking(old(db.nextBookingId), showId, userEmail, seatNumbers.value, status, now);
        && db.bookings == old(db.bookings) + [row]
        && db.nextBookingId == old(db.nextBookingId) + 1
        && result == Done(status == Pending, row, AdmitMessage(status, available), 201)
  {
    var show := GetShowById(db.shows, showId);
    if show.None? {
      return Refused(ShowNotFound.Message(), 404);
    }
    if seatNumbers.None? || |seatNumbers.value| == 0 {
      return Refused(NotANonEmptyArray.Message(), 400);
    }
    var seats := seatNumbers.value;
    var alreadyBooked := HeldSeatList(db.bookings, showId);
    var conflicting := Conflicting(seats, alreadyBooked);
    if |conflicting| > 0 {
      return Refused(SeatsTaken(conflicting).Message(), 409);
    }
    var invalid := OutOfRange(seats, show.value.totalSeats);
    if |invalid| > 0 {
      return Refused(SeatsOutOfRange(invalid, show.value.totalSeats).Message(), 400);
    }
    var available := CalculateAvailableSeats(db.shows, db.bookings, showId);
    var status := if available >= |seats| then Pending else Failed;
    var row := NewBooking(db.nextBookingId, showId, userEmail, seats, status, now);
    AdmittedBookingKeepsSeatsDisjoint(db.shows, db.bookings, showId, seatNumbers, db.nextBookingId, userEmail, now);
    BookingKeysAppend(db.bookings, row, db.nextBookingId);
    assert DecideBooking(db.shows, db.bookings, showId, seatNumbers) == Admit(status, available);
    db.bookings, db.nextBookingId := db.bookings + [row], db.nextBookingId + 1;
    result := Done(status == Pending, row, AdmitMessage(status, available), 201);
  }

  // ---------------------------------------------------- status transitions

  predicate Matches(b: Booking, id: int, from: set<Status>) {
    b.id == id && b.status in from
  }

  /** UPDATE bookings SET status = to WHERE id = $1 AND status IN from. */
  function Transition(bs: seq<Booking>, id: int, from: set<Status>, to: Status): (r: seq<Booking>)
    ensures |r| == |bs|
    ensures forall k :: 0 <= k < |bs| ==> r[k] == if Matches(bs[k], id, from) then bs[k].(status := to) else bs[k]
  {
    seq(|bs|, k requires 0 <= k < |bs| => if Matches(bs[k], id, from) then bs[k].(status := to) else bs[k])
  }

  /** The legal moves of the booking state machine (staying put included). */
  predicate AllowedMove(s: Status, t: Status) {
    || s == t
    || (s == Pending && (t == Confirmed || t == Cancelled || t == Failed))
    || (s == Confirmed && t == Cancelled)
  }

  /** The conditional update, as one atomic step: rewrites the row with that
      id if its status is in from and returns it, or returns None and changes
      nothing. A target that holds seats must be reached only from statuses
      that hold seats, so the ledger stays disjoint. */
  method TransitionStatus(db: Database, id: int, from: set<Status>, to: Status) returns (row: Option<Booking>)
    requires db.Valid()
    requires HoldsSeats(to) ==> forall s :: s in from ==> HoldsSeats(s)
    modifies db`bookings
    ensures db.Valid()
    ensures db.bookings == Transition(old(db.bookings), id, from, to)
    ensures var before := GetBookingById(old(db.bookings), id);
      row == if before.Some? && before.value.status in from then Some(before.value.(status := to)) else None
    ensures row.None? ==> db.bookings == old(db.bookings)
  {
    var rows;
    rows, row := TransitionRows(db.bookings, id, from, to);
    TransitionRowIsLookup(db.bookings, db.nextBookingId, id, from, to, row);
    TransitionKeepsValidity(db.bookings, db.nextBookingId, id, from, to);
    db.bookings := rows;
  }

  /** The conditional UPDATE row by row, reporting the rewritten row. */
  method TransitionRows(before: seq<Booking>, id: int, from: set<Status>, to: Status)
    returns (rows: seq<Booking>, row: Option<Booking>)
    ensures rows == Transition(before, id, from, to)
    ensures row.None? <==> forall k :: 0 <= k < |before| ==> !Matches(before[k], id, from)
    ensures row.Some? ==> exists k :: 0 <= k < |before| && Matches(before[k], id, from) && row.value == before[k].(status := to)
    ensures row.None? ==> rows == before
  {
    rows := before;
    row := None;
    var i := 0;
    while i < |rows|
      invariant 0 <= i <= |rows| == |before|
      invariant forall k :: 0 <= k < i ==>
        rows[k] == if Matches(before[k], id, from) then before[k].(status := to) else before[k]
      invariant forall k :: i <= k < |rows| ==> rows[k] == before[k]
      invariant row.None? <==> forall k :: 0 <= k < i ==> !Matches(before[k], id, from)
      invariant row.Some? ==> exists k :: 0 <= k < i && Matches(before[k], id, from) && row.value == before[k].(status := to)
    {
      var b := rows[i];
      if b.id == id && b.status in from {
        b := b.(status := to);
        rows := rows[i := b];
        row := Some(b);
      }
      i := i + 1;
    }
    assert rows == Transition(before, id, from, to);
    if row.None? {
      assert rows == before;
    }
  }

  lemma TransitionRowIsLookup(bs: seq<Booking>, next: nat, id: int, from: set<Status>, to: Status, row: Option<Booking>)
    requires BookingKeys(bs, next)
    requires row.None? <==> forall k :: 0 <= k < |bs| ==> !Matches(bs[k], id, from)
    requires row.Some? ==> exists k :: 0 <= k < |bs| && Matches(bs[k], id, from) && row.value == bs[k].(status := to)
    ensures var before := GetBookingById(bs, id);
      row == if before.Some? && before.value.status in from then Some(before.value.(status := to)) else None
  {
    if row.Some? {
      var k :| 0 <= k < |bs| && Matches(bs[k], id, from) && row.value == bs[k].(status := to);
      GetBookingByIdFinds(bs, next, k);
    } else if GetBookingById(bs, id).Some? {
      var k :| 0 <= k < |bs| && bs[k] == GetBookingById(bs, id).value;
      assert !Matches(bs[k], id, from);
    }
  }

  lemma TransitionKeepsValidity(bs: seq<Booking>, next: nat, id: int, from: set<Status>, to: Status)
    requires BookingKeys(bs, next) && SeatsDisjoint(bs)
    requires HoldsSeats(to) ==> forall s :: s in from ==> HoldsSeats(s)
    ensures BookingKeys(Transition(bs, id, from, to), next)
    ensures SeatsDisjoint(Transition(bs, id, from, to))
  {
    var after := Transition(bs, id, from, to);
    assert forall k :: 0 <= k < |bs| ==> after[k].id == bs[k].id;
    ReleasingKeepsDisjoint(bs, after);
  }

  /** confirmBooking: PENDING becomes CONFIRMED. Capacity is not checked again. */
  method ConfirmBooking(db: Database, id: int) returns (result: ServiceResult)
    requires db.Valid()
    modifies db`bookings
    ensures db.Valid()
    ensures db.bookings == Transition(old(db.bookings), id, {Pending}, Confirmed)
    ensures var before := GetBookingById(old(db.bookings), id);
      if before.Some? && before.value.status == Pending
      then result == Done(true, before.value.(status := Confirmed), "Booking confirmed successfully", 200)
      else result == Refused("Pending booking not found or already processed", 404) && db.bookings == old(db.bookings)
  {
    var row := TransitionStatus(db, id, {Pending}, Confirmed);
    if row.None? {
      return Refused("Pending booking not found or already processed", 404);
    }
    result := Done(true, row.value, "Booking confirmed successfully", 200);
  }

  /** cancelBooking: PENDING or CONFIRMED becomes CANCELLED. */
  method CancelBooking(db: Database, id: int) returns (result: ServiceResult)
    requires db.Valid()
    modifies db`bookings
    ensures db.Valid()
    ensures db.bookings == Transition(old(db.bookings), id, {Pending, Confirmed}, Cancelled)
    ensures var before := GetBookingById(old(db.bookings), id);
      if before.Some? && HoldsSeats(before.value.status)
      then result == Done(true, before.value.(status := Cancelled), "Booking cancelled successfully", 200)
      else result == Refused("Booking not found or cannot be cancelled", 404) && db.bookings == old(db.bookings)
  {
    var row := TransitionStatus(db, id, {Pending, Confirmed}, Cancelled);
    if row.None? {
      return Refused("Booking not found or cannot be cancelled", 404);
    }
    result := Done(true, row.value, "Booking cancelled successfully", 200);
  }

  /** Once confirmed, a booking is no longer PENDING: a second confirm of the
      same id matches no row and leaves the ledger as the first one left it. */
  lemma SecondConfirmChangesNothing(bs: seq<Booking>, id: int)
    ensures var once := Transition(bs, id, {Pending}, Confirmed);
      && (forall k :: 0 <= k < |once| ==> !Matches(once[k], id, {Pending}))
      && Transition(once, id, {Pending}, Confirmed) == once
  {
    var once := Transition(bs, id, {Pending}, Confirmed);
    var twice := Transition(once, id, {Pending}, Confirmed);
    assert forall k :: 0 <= k < |once| ==> twice[k] == once[k];
  }

  /** With distinct ids, the conditional update rewrites the one row that
      carries the id (if its status matches) and no other. */
  lemma {:induction false} TransitionIsSingleRowUpdate(bs: seq<Booking>, next: nat, k: int, from: set<Status>, to: Status)
    requires BookingKeys(bs, next)
    requires 0 <= k < |bs| && bs[k].status in from
    ensures Transition(bs, bs[k].id, from, to) == bs[k := bs[k].(status := to)]
  {
    var r := Transition(bs, bs[k].id, from, to);
    forall j | 0 <= j < |bs| ensures r[j] == bs[k := bs[k].(status := to)][j] {
      if j != k { assert bs[j].id != bs[k].id; }
    }
  }

  /** Confirming adds the booking's seats to its show's confirmed total with
      no capacity check: nothing bounds the result by total_seats. */
  lemma ConfirmAddsSeatsUnchecked(bs: seq<Booking>, next: nat, k: int)
    requires BookingKeys(bs, next)
    requires 0 <= k < |bs| && bs[k].status == Pending
    ensures ConfirmedSeats(Transition(bs, bs[k].id, {Pending}, Confirmed), bs[k].showId)
         == ConfirmedSeats(bs, bs[k].showId) + bs[k].seatsBooked
  {
    TransitionIsSingleRowUpdate(bs, next, k, {Pending}, Confirmed);
    ConfirmedSeatsUpdate(bs, k, Confirmed, bs[k].showId);
  }

  /** Cancelling a CONFIRMED booking gives its seats back to its show. */
  lemma CancelReleasesConfirmedSeats(bs: seq<Booking>, next: nat, k: int)
    requires BookingKeys(bs, next)
    requires 0 <= k < |bs| && bs[k].status == Confirmed
    ensures ConfirmedSeats(Transition(bs, bs[k].id, {Pending, Confirmed}, Cancelled), bs[k].showId)
         == ConfirmedSeats(bs, bs[k].showId) - bs[k].seatsBooked
  {
    TransitionIsSingleRowUpdate(bs, next, k, {Pending, Confirmed}, Cancelled);
    ConfirmedSeatsUpdate(bs, k, Cancelled, bs[k].showId);
  }

  // ---------------------------------------------------------------- expiry

  /** expirePendingBookings' default, and the argument the worker passes. */
  const DefaultExpiryMinutes := 2

  /** NOW() - INTERVAL 'm minutes', in seconds. */
  function Cutoff(now: int, expiryMinutes: int): int {
    now - expiryMinutes * 60
  }

  predicate Expirable(b: Booking, cutoff: int) {
    b.status == Pending && b.createdAt < cutoff
  }

  function ExpireRow(b: Booking, cutoff: int): Booking {
    if Expirable(b, cutoff) then b.(status := Failed) else b
  }

  /** UPDATE bookings SET status = 'FAILED' WHERE status = 'PENDING' AND
      created_at < cutoff. */
  function Expire(bs: seq<Booking>, cutoff: int): (r: seq<Booking>)
    ensures |r| == |bs|
    ensures forall k :: 0 <= k < |bs| ==> r[k] == ExpireRow(bs[k], cutoff)
  {
    seq(|bs|, k requires 0 <= k < |bs| => ExpireRow(bs[k], cutoff))
  }

  /** The number of rows the expiry updates. */
  function ExpirableCount(bs: seq<Booking>, cutoff: int): (r: nat)
    ensures r <= |bs|
    ensures r == 0 <==> forall k :: 0 <= k < |bs| ==> !Expirable(bs[k], cutoff)
  {
    if |bs| == 0 then 0
    else
      assert forall k :: 0 <= k < |bs| - 1 ==> bs[..|bs| - 1][k] == bs[k];
      ExpirableCount(bs[..|bs| - 1], cutoff) + if Expirable(bs[|bs| - 1], cutoff) then 1 else 0
  }

  /** The expiry turns exactly the PENDING rows older than the cutoff into
      FAILED: afterwards none is left, so a second run with the same cutoff
      updates nothing and changes nothing. */
  lemma {:induction false} ExpireLeavesNothingToExpire(bs: seq<Booking>, cutoff: int)
    ensures ExpirableCount(Expire(bs, cutoff), cutoff) == 0
    ensures Expire(Expire(bs, cutoff), cutoff) == Expire(bs, cutoff)
  {
    var e := Expire(bs, cutoff);
    if |bs| > 0 {
      var n := |bs| - 1;
      ExpireLeavesNothingToExpire(bs[..n], cutoff);
      assert e[..n] == Expire(bs[..n], cutoff);
    }
    assert forall k :: 0 <= k < |e| ==> Expire(e, cutoff)[k] == e[k];
  }

  /** Expiry never changes a show's availability: PENDING seats were never
      subtracted, so failing them frees nothing in the count. */
  lemma ExpireKeepsConfirmedSeats(bs: seq<Booking>, cutoff: int, showId: int)
    ensures ConfirmedSeats(Expire(bs, cutoff), showId) == ConfirmedSeats(bs, showId)
  {
    UnconfirmedMovesKeepConfirmedSeats(bs, Expire(bs, cutoff), showId);
  }

  /** Expiry only releases seat numbers: every seat held afterwards was held
      before. */
  lemma ExpireOnlyReleasesSeats(bs: seq<Booking>, cutoff: int, showId: int, seat: int)
    ensures SeatHeld(Expire(bs, cutoff), showId, seat) ==> SeatHeld(bs, showId, seat)
  {
    var e := Expire(bs, cutoff);
    if SeatHeld(e, showId, seat) {
      var i :| 0 <= i < |e| && e[i].showId == showId && HoldsSeats(e[i].status) && seat in e[i].seatNumbers;
      assert bs[i].showId == showId && HoldsSeats(bs[i].status) && seat in bs[i].seatNumbers;
    }
  }

  /** The seat numbers of an expired booking are free afterwards: no other
      booking of the show held them, and the expired one no longer does. */
  lemma ExpiredSeatsBecomeFree(bs: seq<Booking>, cutoff: int, i: int, seat: int)
    requires SeatsDisjoint(bs)
    requires 0 <= i < |bs| && Expirable(bs[i], cutoff) && seat in bs[i].seatNumbers
    ensures !SeatHeld(Expire(bs, cutoff), bs[i].showId, seat)
  {
  }

  /** Confirm, cancel and expire move every row along the state machine: no
      row leaves FAILED or CANCELLED, none returns to PENDING. */
  lemma OperationsFollowStateMachine(bs: seq<Booking>, id: int, cutoff: int)
    ensures forall k :: 0 <= k < |bs| ==>
      && AllowedMove(bs[k].status, Transition(bs, id, {Pending}, Confirmed)[k].status)
      && AllowedMove(bs[k].status, Transition(bs, id, {Pending, Confirmed}, Cancelled)[k].status)
      && AllowedMove(bs[k].status, Expire(bs, cutoff)[k].status)
  {
  }

  /** expirePendingBookings(expiryMinutes) at time now: the reaper's bulk
      update, row by row; returns how many rows it updated. */
  method ExpirePendingBookings(db: Database, expiryMinutes: int, now: int) returns (count: nat)
    requires db.Valid()
    modifies db`bookings
    ensures db.Valid()
    ensures db.bookings == Expire(old(db.bookings), Cutoff(now, expiryMinutes))
    ensures count == ExpirableCount(old(db.bookings), Cutoff(now, expiryMinutes))
  {
    var rows;
    rows, count := ExpireRows(db.bookings, Cutoff(now, expiryMinutes));
    ReleasingKeepsDisjoint(db.bookings, rows);
    db.bookings := rows;
  }

  /** The expiry UPDATE row by row, counting the rows it rewrites. */
  method ExpireRows(before: seq<Booking>, cutoff: int) returns (rows: seq<Booking>, count: nat)
    ensures rows == Expire(before, cutoff)
    ensures count == ExpirableCount(before, cutoff)
  {
    rows := before;
    count := 0;
    var i := 0;
    while i < |rows|
      invariant 0 <= i <= |rows| == |before|
      invariant forall k :: 0 <= k < i ==> rows[k] == ExpireRow(before[k], cutoff)
      invariant forall k :: i <= k < |rows| ==> rows[k] == before[k]
      invariant count == ExpirableCount(before[..i], cutoff)
    {
      var b := rows[i];
      assert before[..i + 1][..i] == before[..i];
      if b.status == Pending && b.createdAt < cutoff {
        rows := rows[i := b.(status := Failed)];
        count := count + 1;
      }
      i := i + 1;
    }
    assert before[..i] == before;
    assert rows == Expire(before, cutoff);
  }
}
