/** The rows of the three tables — movies, shows and bookings — and the
    integrity conditions the booking engine keeps over them. Timestamps are
    integer seconds. */
module Schema {
  import opened Wrappers

  /** A booking's disposition. PENDING and CONFIRMED bookings hold their seat
      numbers; FAILED and CANCELLED ones hold nothing. */
  datatype Status = Pending | Confirmed | Failed | Cancelled

  predicate HoldsSeats(s: Status) {
    s == Pending || s == Confirmed
  }

  datatype Movie = Movie(
    id: nat,
    title: string,
    description: Option<string>,   // NULL when absent
    durationMinutes: int,
    createdAt: int)

  datatype Show = Show(
    id: nat,
    movieId: int,
    screenName: string,
    startTime: int,
    totalSeats: int)

  /** seatNumbers is [] for a booking made by seat count alone (the column is
      NULL there, which unnest treats like an empty array). */
  datatype Booking = Booking(
    id: nat,
    showId: int,
    userEmail: string,
    seatsBooked: int,
    seatNumbers: seq<int>,
    status: Status,
    createdAt: int)

  predicate SeatListsDisjoint(a: seq<int>, b: seq<int>) {
    forall x :: x in a ==> x !in b
  }

  /** Two bookings of one show that both hold seats hold different seat numbers. */
  predicate NoSharedSeat(b: Booking, c: Booking) {
    b.showId == c.showId && HoldsSeats(b.status) && HoldsSeats(c.status)
    ==> SeatListsDisjoint(b.seatNumbers, c.seatNumbers)
  }

  /** Per show, the seat numbers of PENDING and CONFIRMED bookings are
      pairwise disjoint. */
  ghost predicate SeatsDisjoint(bs: seq<Booking>) {
    forall i, j :: 0 <= i < j < |bs| ==> NoSharedSeat(bs[i], bs[j])
  }

  /** SERIAL keys: positive, below the next value of the sequence, distinct. */
  ghost predicate BookingKeys(bs: seq<Booking>, next: nat) {
    && 0 < next
    && (forall i :: 0 <= i < |bs| ==> 0 < bs[i].id < next)
    && (forall i, j :: 0 <= i < j < |bs| ==> bs[i].id != bs[j].id)
  }

  ghost predicate ShowKeys(ss: seq<Show>, next: nat) {
    && 0 < next
    && (forall i :: 0 <= i < |ss| ==> 0 < ss[i].id < next)
    && (forall i, j :: 0 <= i < j < |ss| ==> ss[i].id != ss[j].id)
  }

  ghost predicate MovieKeys(ms: seq<Movie>, next: nat) {
    && 0 < next
    && (forall i :: 0 <= i < |ms| ==> 0 < ms[i].id < next)
    && (forall i, j :: 0 <= i < j < |ms| ==> ms[i].id != ms[j].id)
  }

  /** Rows whose statuses only lose their hold on seats keep the seat sets of
      holding bookings disjoint: the shape of every status update. */
  lemma {:induction false} ReleasingKeepsDisjoint(before: seq<Booking>, after: seq<Booking>)
    requires SeatsDisjoint(before)
    requires |after| == |before|
    requires forall k :: 0 <= k < |before| ==>
      && after[k].showId == before[k].showId
      && after[k].seatNumbers == before[k].seatNumbers
      && (HoldsSeats(after[k].status) ==> HoldsSeats(before[k].status))
    ensures SeatsDisjoint(after)
  {
    forall i, j | 0 <= i < j < |after| ensures NoSharedSeat(after[i], after[j]) {
      assert NoSharedSeat(before[i], before[j]);
    }
  }

  /** Appending a booking keeps the seat sets disjoint when it holds no seat
      number that a holding booking of its show already holds. */
  lemma {:induction false} AppendKeepsDisjoint(bs: seq<Booking>, b: Booking)
    requires SeatsDisjoint(bs)
    requires forall i :: 0 <= i < |bs| ==> NoSharedSeat(bs[i], b)
    ensures SeatsDisjoint(bs + [b])
  {
    var all := bs + [b];
    forall i, j | 0 <= i < j < |all| ensures NoSharedSeat(all[i], all[j]) {
      if j < |bs| {
        assert NoSharedSeat(bs[i], bs[j]);
      } else {
        assert NoSharedSeat(bs[i], b);
      }
    }
  }

  /** An INSERT under the next SERIAL value keeps the keys distinct. */
  lemma BookingKeysAppend(bs: seq<Booking>, b: Booking, next: nat)
    requires BookingKeys(bs, next) && b.id == next
    ensures BookingKeys(bs + [b], next + 1)
  {
    assert forall k :: 0 <= k < |bs| ==> (bs + [b])[k] == bs[k];
  }

  lemma ShowKeysAppend(ss: seq<Show>, s: Show, next: nat)
    requires ShowKeys(ss, next) && s.id == next
    ensures ShowKeys(ss + [s], next + 1)
  {
    assert forall k :: 0 <= k < |ss| ==> (ss + [s])[k] == ss[k];
  }

  lemma MovieKeysAppend(ms: seq<Movie>, m: Movie, next: nat)
    requires MovieKeys(ms, next) && m.id == next
    ensures MovieKeys(ms + [m], next + 1)
  {
    assert forall k :: 0 <= k < |ms| ==> (ms + [m])[k] == ms[k];
  }

  /** Putting a row with a fresh key in front of a keyed table keeps it keyed. */
  lemma ShowKeysCons(s: Show, ss: seq<Show>, next: nat)
    requires ShowKeys(ss, next) && 0 < s.id < next
    requires forall j :: 0 <= j < |ss| ==> ss[j].id != s.id
    ensures ShowKeys([s] + ss, next)
  {
    assert forall k :: 0 < k <= |ss| ==> ([s] + ss)[k] == ss[k - 1];
  }

  lemma MovieKeysCons(m: Movie, ms: seq<Movie>, next: nat)
    requires MovieKeys(ms, next) && 0 < m.id < next
    requires forall j :: 0 <= j < |ms| ==> ms[j].id != m.id
    ensures MovieKeys([m] + ms, next)
  {
    assert forall k :: 0 < k <= |ms| ==> ([m] + ms)[k] == ms[k - 1];
  }
}
