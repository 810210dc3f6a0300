/** The show table operations and the availability arithmetic
    (src/services/showService.js). */
module ShowService {
  import opened Wrappers
  import opened Schema
  import opened Store
  import opened Ordering

  /** SELECT * FROM shows WHERE id = $1 — the same row whether or not the
      query adds FOR UPDATE; None when there is no such show. */
  function GetShowById(shows: seq<Show>, id: int): (r: Option<Show>)
    ensures r.Some? ==> r.value in shows && r.value.id == id
    ensures r.None? <==> forall i :: 0 <= i < |shows| ==> shows[i].id != id
  {
    if |shows| == 0 then None
    else if shows[0].id == id then Some(shows[0])
    else GetShowById(shows[1..], id)
  }

  /** With distinct ids, the lookup finds exactly the row that carries the id. */
  lemma {:induction false} GetShowByIdFinds(shows: seq<Show>, next: nat, k: int)
    requires ShowKeys(shows, next)
    requires 0 <= k < |shows|
    ensures GetShowById(shows, shows[k].id) == Some(shows[k])
  {
    if k > 0 {
      assert shows[0].id != shows[k].id;
      GetShowByIdFinds(shows[1..], next, k - 1);
    }
  }

  /** What one booking row adds to SUM(seats_booked) WHERE show_id = $1 AND
      status = 'CONFIRMED'. */
  function Contribution(b: Booking, showId: int): int {
    if b.showId == showId && b.status == Confirmed then b.seatsBooked else 0
  }

  /** COALESCE(SUM(seats_booked), 0) over the CONFIRMED bookings of a show. */
  function ConfirmedSeats(bs: seq<Booking>, showId: int): (r: int)
    ensures (forall k :: 0 <= k < |bs| ==> bs[k].showId != showId || bs[k].status != Confirmed) ==> r == 0
    ensures (forall k :: 0 <= k < |bs| ==> bs[k].seatsBooked >= 0) ==> r >= 0
  {
    if |bs| == 0 then 0 else Contribution(bs[0], showId) + ConfirmedSeats(bs[1..], showId)
  }

  /** A new row adds exactly its own contribution to the confirmed sum: a
      PENDING or FAILED row adds nothing. */
  lemma {:induction false} ConfirmedSeatsAppend(bs: seq<Booking>, b: Booking, showId: int)
    ensures ConfirmedSeats(bs + [b], showId) == ConfirmedSeats(bs, showId) + Contribution(b, showId)
  {
    if |bs| > 0 {
      assert (bs + [b])[1..] == bs[1..] + [b];
      ConfirmedSeatsAppend(bs[1..], b, showId);
    }
  }

  /** Changing the status of one row changes the confirmed sum by the
      difference of that row's contributions and by nothing else. */
  lemma {:induction false} ConfirmedSeatsUpdate(bs: seq<Booking>, k: int, s: Status, showId: int)
    requires 0 <= k < |bs|
    ensures ConfirmedSeats(bs[k := bs[k].(status := s)], showId)
         == ConfirmedSeats(bs, showId) - Contribution(bs[k], showId) + Contribution(bs[k].(status := s), showId)
  {
    if k > 0 {
      assert bs[k := bs[k].(status := s)][1..] == bs[1..][k - 1 := bs[k].(status := s)];
      ConfirmedSeatsUpdate(bs[1..], k - 1, s, showId);
    }
  }

  /** Rows keeping their show, size and whether they are CONFIRMED keep the
      confirmed sum: moves among PENDING, FAILED and CANCELLED never change
      the availability of a show. */
  lemma {:induction false} UnconfirmedMovesKeepConfirmedSeats(before: seq<Booking>, after: seq<Booking>, showId: int)
    requires |after| == |before|
    requires forall k :: 0 <= k < |before| ==>
      && after[k].showId == before[k].showId
      && after[k].seatsBooked == before[k].seatsBooked
      && (after[k].status == Confirmed <==> before[k].status == Confirmed)
    ensures ConfirmedSeats(after, showId) == ConfirmedSeats(before, showId)
  {
    if |before| > 0 {
      UnconfirmedMovesKeepConfirmedSeats(before[1..], after[1..], showId);
    }
  }

  /** calculateAvailableSeats: 0 for an unknown show, otherwise the show's
      capacity minus the seats of its CONFIRMED bookings, without clamping. */
  function CalculateAvailableSeats(shows: seq<Show>, bs: seq<Booking>, showId: int): (r: int)
    ensures GetShowById(shows, showId).None? ==> r == 0
    ensures GetShowById(shows, showId).Some? ==> r == GetShowById(shows, showId).value.totalSeats - ConfirmedSeats(bs, showId)
  {
    match GetShowById(shows, showId)
    case None => 0
    case Some(show) => show.totalSeats - ConfirmedSeats(bs, showId)
  }

  /** Only CONFIRMED rows reduce availability: a ledger that differs only in
      rows that are not CONFIRMED reports the same available seats. */
  lemma AvailabilityCountsOnlyConfirmed(shows: seq<Show>, bs: seq<Booking>, extra: Booking, showId: int)
    requires extra.status != Confirmed
    ensures CalculateAvailableSeats(shows, bs + [extra], showId) == CalculateAvailableSeats(shows, bs, showId)
  {
    ConfirmedSeatsAppend(bs, extra, showId);
  }

  /** JOIN movies m ON s.movie_id = m.id keeps a show only if its movie exists. */
  predicate HasMovie(movies: seq<Movie>, movieId: int) {
    exists i :: 0 <= i < |movies| && movies[i].id == movieId
  }

  /** The shows of the join, in table order. */
  function ShowsWithMovie(shows: seq<Show>, movies: seq<Movie>): (r: seq<Show>)
    ensures forall s :: s in r <==> s in shows && HasMovie(movies, s.movieId)
  {
    if |shows| == 0 then []
    else
      var rest := ShowsWithMovie(shows[1..], movies);
      assert forall s :: s in shows <==> s == shows[0] || s in shows[1..];
      if HasMovie(movies, shows[0].movieId) then [shows[0]] + rest else rest
  }

  /** ... WHERE s.start_time > NOW() */
  function StartingAfter(shows: seq<Show>, now: int): (r: seq<Show>)
    ensures forall s :: s in r <==> s in shows && s.startTime > now
  {
    if |shows| == 0 then []
    else
      var rest := StartingAfter(shows[1..], now);
      assert forall s :: s in shows <==> s == shows[0] || s in shows[1..];
      if shows[0].startTime > now then [shows[0]] + rest else rest
  }

  /** The join keeps each show whose movie exists as often as the table
      holds it, and drops the others. */
  lemma {:induction false} ShowsWithMovieCounts(shows: seq<Show>, movies: seq<Movie>, s: Show)
    ensures multiset(ShowsWithMovie(shows, movies))[s] == if HasMovie(movies, s.movieId) then multiset(shows)[s] else 0
  {
    if |shows| > 0 {
      assert shows == [shows[0]] + shows[1..];
      ShowsWithMovieCounts(shows[1..], movies, s);
    }
  }

  /** The filter keeps each show that starts after now as often as the list
      holds it, and drops the others. */
  lemma {:induction false} StartingAfterCounts(shows: seq<Show>, now: int, s: Show)
    ensures multiset(StartingAfter(shows, now))[s] == if s.startTime > now then multiset(shows)[s] else 0
  {
    if |shows| > 0 {
      assert shows == [shows[0]] + shows[1..];
      StartingAfterCounts(shows[1..], now, s);
    }
  }

  function ByStartTime(s: Show): int { s.startTime }

  /** The upcoming shows of the join hold each show that starts after now and
      whose movie exists as often as the table does, and no other show. */
  lemma UpcomingCounts(shows: seq<Show>, movies: seq<Movie>, now: int, s: Show)
    ensures multiset(StartingAfter(GetAllShowsWithMovies(shows, movies), now))[s]
      == if s.startTime > now && HasMovie(movies, s.movieId) then multiset(shows)[s] else 0
  {
    var all := GetAllShowsWithMovies(shows, movies);
    StartingAfterCounts(all, now, s);
    ShowsWithMovieCounts(shows, movies, s);
    assert multiset(all)[s] == multiset(ShowsWithMovie(shows, movies))[s];
  }

  /** getAllShowsWithMovies: every show whose movie exists, by start time. */
  function GetAllShowsWithMovies(shows: seq<Show>, movies: seq<Movie>): (r: seq<Show>)
    ensures SortedBy(r, ByStartTime)
    ensures forall s :: s in r <==> s in shows && HasMovie(movies, s.movieId)
    ensures multiset(r) == multiset(ShowsWithMovie(shows, movies))
  {
    var joined := ShowsWithMovie(shows, movies);
    var r := SortBy(joined, ByStartTime);
    assert forall s :: s in r <==> s in multiset(joined);
    r
  }

  /** One row of the upcoming-shows listing. */
  datatype AvailableShow = AvailableShow(show: Show, bookedSeats: int, availableSeats: int)

  function Availability(s: Show, bs: seq<Booking>): AvailableShow {
    var booked := ConfirmedSeats(bs, s.id);
    AvailableShow(s, booked, s.totalSeats - booked)
  }

  /** The listing rows for a list of shows, in the same order. */
  function WithAvailability(shows: seq<Show>, bs: seq<Booking>): (r: seq<AvailableShow>)
    ensures |r| == |shows|
    ensures forall i :: 0 <= i < |r| ==> r[i] == Availability(shows[i], bs)
  {
    seq(|shows|, i requires 0 <= i < |shows| => Availability(shows[i], bs))
  }

  /** The shows of the listing rows, in order. */
  function RowShows(rows: seq<AvailableShow>): (r: seq<Show>)
    ensures |r| == |rows|
    ensures forall i :: 0 <= i < |r| ==> r[i] == rows[i].show
  {
    seq(|rows|, i requires 0 <= i < |rows| => rows[i].show)
  }

  /** getAvailableShows (and GET /shows): the shows starting after now whose
      movie exists, ordered by start time, each with the seats its CONFIRMED
      bookings take and the capacity left over. */
  function GetAvailableShows(shows: seq<Show>, movies: seq<Movie>, bs: seq<Booking>, now: int): (r: seq<AvailableShow>)
    ensures forall i, j :: 0 <= i < j < |r| ==> r[i].show.startTime <= r[j].show.startTime
    ensures forall i :: 0 <= i < |r| ==>
      && r[i].show.startTime > now
      && r[i].bookedSeats == ConfirmedSeats(bs, r[i].show.id)
      && r[i].availableSeats == r[i].show.totalSeats - r[i].bookedSeats
    ensures forall s :: s in shows && s.startTime > now && HasMovie(movies, s.movieId)
                    <==> exists i :: 0 <= i < |r| && r[i].show == s
  {
    var upcoming := StartingAfter(GetAllShowsWithMovies(shows, movies), now);
    UpcomingStaysSorted(GetAllShowsWithMovies(shows, movies), now);
    var r := WithAvailability(upcoming, bs);
    assert forall i :: 0 <= i < |r| ==> r[i].show == upcoming[i];
    assert forall s :: s in upcoming <==> exists i :: 0 <= i < |r| && r[i].show == s;
    r
  }

  /** Filtering a sorted list keeps it sorted. */
  lemma {:induction false} UpcomingStaysSorted(shows: seq<Show>, now: int)
    requires SortedBy(shows, ByStartTime)
    ensures SortedBy(StartingAfter(shows, now), ByStartTime)
  {
    if |shows| > 0 {
      UpcomingStaysSorted(shows[1..], now);
      var rest := StartingAfter(shows[1..], now);
      forall i | 0 <= i < |rest| ensures shows[0].startTime <= rest[i].startTime {
        assert rest[i] in shows[1..];
      }
    }
  }

  /** The listing holds each show that starts after now and whose movie
      exists as often as the table does (once, with distinct keys), and no
      other show. */
  lemma AvailableShowsCounts(shows: seq<Show>, movies: seq<Movie>, bs: seq<Booking>, now: int)
    ensures var listed := RowShows(GetAvailableShows(shows, movies, bs, now));
      forall s :: multiset(listed)[s] == (if s.startTime > now && HasMovie(movies, s.movieId) then multiset(shows)[s] else 0)
  {
    var upcoming := StartingAfter(GetAllShowsWithMovies(shows, movies), now);
    var r := GetAvailableShows(shows, movies, bs, now);
    assert RowShows(r) == upcoming;
    forall s: Show ensures multiset(upcoming)[s] == if s.startTime > now && HasMovie(movies, s.movieId) then multiset(shows)[s] else 0 {
      UpcomingCounts(shows, movies, now, s);
    }
  }

  /** With distinct keys, the listing (one row per GROUP BY s.id) names
      every show at most once. */
  lemma AvailableShowsListEachShowOnce(shows: seq<Show>, movies: seq<Movie>, bs: seq<Booking>, now: int, next: nat)
    requires ShowKeys(shows, next)
    ensures var r := GetAvailableShows(shows, movies, bs, now);
      forall i, j :: 0 <= i < j < |r| ==> r[i].show.id != r[j].show.id
  {
    var r := GetAvailableShows(shows, movies, bs, now);
    var listed := RowShows(r);
    forall i, j | 0 <= i < j < |r| ensures r[i].show.id != r[j].show.id {
      if r[i].show.id == r[j].show.id {
        SameIdSameShow(shows, next, r[i].show, r[j].show);
        RepeatedElementCountsTwice(listed, i, j);
        AvailableShowsCounts(shows, movies, bs, now);
        DistinctKeysCountOnce(shows, next, listed[i]);
        assert false;
      }
    }
  }

  /** With distinct keys, two rows of the table with one id are one row. */
  lemma SameIdSameShow(shows: seq<Show>, next: nat, a: Show, b: Show)
    requires ShowKeys(shows, next)
    requires a in shows && b in shows && a.id == b.id
    ensures a == b
  {
    var i :| 0 <= i < |shows| && shows[i] == a;
    var j :| 0 <= j < |shows| && shows[j] == b;
    assert i == j;
  }

  /** A value at two positions of a sequence occurs in it at least twice. */
  lemma RepeatedElementCountsTwice<T>(s: seq<T>, i: int, j: int)
    requires 0 <= i < j < |s| && s[i] == s[j]
    ensures multiset(s)[s[i]] >= 2
  {
    assert s == s[..j] + [s[j]] + s[j + 1..];
    assert s[..j][i] == s[i];
    assert multiset(s[..j])[s[i]] >= 1;
  }

  /** In a table with distinct keys, every row occurs once. */
  lemma {:induction false} DistinctKeysCountOnce(shows: seq<Show>, next: nat, s: Show)
    requires ShowKeys(shows, next)
    ensures multiset(shows)[s] <= 1
  {
    if |shows| > 0 {
      assert shows == [shows[0]] + shows[1..];
      DistinctKeysCountOnce(shows[1..], next, s);
      if shows[0] == s {
        assert s !in shows[1..];
      }
    }
  }

  /** Each reported availability is what calculateAvailableSeats computes
      for that show. */
  lemma AvailableShowsAgreeWithCalculation(shows: seq<Show>, movies: seq<Movie>, bs: seq<Booking>, now: int, next: nat, i: int)
    requires ShowKeys(shows, next)
    requires 0 <= i < |GetAvailableShows(shows, movies, bs, now)|
    ensures var row := GetAvailableShows(shows, movies, bs, now)[i];
      row.availableSeats == CalculateAvailableSeats(shows, bs, row.show.id)
  {
    var row := GetAvailableShows(shows, movies, bs, now)[i];
    assert row.show in shows;
    var k :| 0 <= k < |shows| && shows[k] == row.show;
    GetShowByIdFinds(shows, next, k);
  }

  /** createShow: inserts one row with exactly the given fields under the next
      id and returns it. */
  method CreateShow(db: Database, movieId: int, screenName: string, startTime: int, totalSeats: int)
    returns (show: Show)
    requires db.Valid()
    modifies db`shows, db`nextShowId
    ensures db.Valid()
    ensures show == Show(old(db.nextShowId), movieId, screenName, startTime, totalSeats)
    ensures db.shows == old(db.shows) + [show]
    ensures db.nextShowId == old(db.nextShowId) + 1
  {
    show := Show(db.nextShowId, movieId, screenName, startTime, totalSeats);
    ShowKeysAppend(db.shows, show, db.nextShowId);
    db.shows := db.shows + [show];
    db.nextShowId := db.nextShowId + 1;
  }

  /** SET col = COALESCE($k, col): a supplied (non-null) field overwrites,
      an absent one keeps the stored value. */
  function PatchShow(s: Show, screenName: Option<string>, startTime: Option<int>, totalSeats: Option<int>): (r: Show)
    ensures r.id == s.id && r.movieId == s.movieId
    ensures screenName.Some? ==> r.screenName == screenName.value
    ensures screenName.None? ==> r.screenName == s.screenName
    ensures startTime.Some? ==> r.startTime == startTime.value
    ensures startTime.None? ==> r.startTime == s.startTime
    ensures totalSeats.Some? ==> r.totalSeats == totalSeats.value
    ensures totalSeats.None? ==> r.totalSeats == s.totalSeats
  {
    s.(screenName := if screenName.Some? then screenName.value else s.screenName,
       startTime := if startTime.Some? then startTime.value else s.startTime,
       totalSeats := if totalSeats.Some? then totalSeats.value else s.totalSeats)
  }

  /** The UPDATE over the whole table: the row with that id is patched and
      every other row is left as it was. */
  function PatchShows(shows: seq<Show>, id: int, screenName: Option<string>, startTime: Option<int>, totalSeats: Option<int>): (r: seq<Show>)
    ensures |r| == |shows|
    ensures forall k :: 0 <= k < |shows| ==>
      r[k] == if shows[k].id == id then PatchShow(shows[k], screenName, startTime, totalSeats) else shows[k]
  {
    seq(|shows|, k requires 0 <= k < |shows| => if shows[k].id == id then PatchShow(shows[k], screenName, startTime, totalSeats) else shows[k])
  }

  /** updateShow: patches the row with that id and returns it, or returns
      None and changes nothing when there is no such show. */
  method UpdateShow(db: Database, id: int, screenName: Option<string>, startTime: Option<int>, totalSeats: Option<int>)
    returns (updated: Option<Show>)
    requires db.Valid()
    modifies db`shows
    ensures db.Valid()
    ensures db.shows == PatchShows(old(db.shows), id, screenName, startTime, totalSeats)
    ensures updated.None? <==> GetShowById(old(db.shows), id).None?
    ensures updated.Some? ==> updated.value == PatchShow(GetShowById(old(db.shows), id).value, screenName, startTime, totalSeats)
    ensures updated.None? ==> db.shows == old(db.shows)
  {
    var rows;
    rows, updated := PatchShowRows(db.shows, id, screenName, startTime, totalSeats);
    PatchedShowIsLookup(db.shows, db.nextShowId, id, screenName, startTime, totalSeats, updated);
    PatchShowsKeepsKeys(db.shows, db.nextShowId, id, screenName, startTime, totalSeats);
    db.shows := rows;
  }

  /** The UPDATE row by row: every row with that id is patched, and the
      patched row is reported. */
  method PatchShowRows(before: seq<Show>, id: int, screenName: Option<string>, startTime: Option<int>, totalSeats: Option<int>)
    returns (rows: seq<Show>, updated: Option<Show>)
    ensures rows == PatchShows(before, id, screenName, startTime, totalSeats)
    ensures updated.None? <==> forall k :: 0 <= k < |before| ==> before[k].id != id
    ensures updated.Some? ==> exists k :: 0 <= k < |before| && before[k].id == id
                                 && updated.value == PatchShow(before[k], screenName, startTime, totalSeats)
    ensures updated.None? ==> rows == before
  {
    rows := before;
    updated := None;
    var i := 0;
    while i < |rows|
      invariant 0 <= i <= |rows| == |before|
      invariant forall k :: 0 <= k < i ==>
        rows[k] == if before[k].id == id then PatchShow(before[k], screenName, startTime, totalSeats) else before[k]
      invariant forall k :: i <= k < |rows| ==> rows[k] == before[k]
      invariant updated.None? <==> forall k :: 0 <= k < i ==> before[k].id != id
      invariant updated.Some? ==> exists k :: 0 <= k < i && before[k].id == id
                                   && updated.value == PatchShow(before[k], screenName, startTime, totalSeats)
    {
      if rows[i].id == id {
        var row := PatchShow(rows[i], screenName, startTime, totalSeats);
        rows := rows[i := row];
        updated := Some(row);
      }
      i := i + 1;
    }
    assert rows == PatchShows(before, id, screenName, startTime, totalSeats);
    if updated.None? {
      assert rows == before;
    }
  }

  /** The row the loop reports is the patched row the lookup by id finds. */
  lemma PatchedShowIsLookup(shows: seq<Show>, next: nat, id: int, screenName: Option<string>, startTime: Option<int>, totalSeats: Option<int>, updated: Option<Show>)
    requires ShowKeys(shows, next)
    requires updated.None? <==> forall k :: 0 <= k < |shows| ==> shows[k].id != id
    requires updated.Some? ==> exists k :: 0 <= k < |shows| && shows[k].id == id
                                 && updated.value == PatchShow(shows[k], screenName, startTime, totalSeats)
    ensures updated.None? <==> GetShowById(shows, id).None?
    ensures updated.Some? ==> updated.value == PatchShow(GetShowById(shows, id).value, screenName, startTime, totalSeats)
  {
    if updated.Some? {
      var k :| 0 <= k < |shows| && shows[k].id == id && updated.value == PatchShow(shows[k], screenName, startTime, totalSeats);
      GetShowByIdFinds(shows, next, k);
    }
  }

  /** A patch never touches an id, so the keys stay as they were. */
  lemma PatchShowsKeepsKeys(shows: seq<Show>, next: nat, id: int, screenName: Option<string>, startTime: Option<int>, totalSeats: Option<int>)
    requires ShowKeys(shows, next)
    ensures ShowKeys(PatchShows(shows, id, screenName, startTime, totalSeats), next)
  {
    var after := PatchShows(shows, id, screenName, startTime, totalSeats);
    assert forall k :: 0 <= k < |shows| ==> after[k].id == shows[k].id;
  }

  /** DELETE FROM shows WHERE id = $1, as a filter that keeps table order. */
  function WithoutShow(shows: seq<Show>, id: int): (r: seq<Show>)
    ensures forall s :: s in r <==> s in shows && s.id != id
  {
    if |shows| == 0 then []
    else
      var rest := WithoutShow(shows[1..], id);
      assert forall s :: s in shows <==> s == shows[0] || s in shows[1..];
      if shows[0].id == id then rest else [shows[0]] + rest
  }

  /** Deleting rows keeps the remaining keys distinct. */
  lemma {:induction false} WithoutShowKeepsKeys(shows: seq<Show>, id: int, next: nat)
    requires ShowKeys(shows, next)
    ensures ShowKeys(WithoutShow(shows, id), next)
  {
    if |shows| > 0 {
      WithoutShowKeepsKeys(shows[1..], id, next);
      var rest := WithoutShow(shows[1..], id);
      forall j | 0 <= j < |rest| ensures rest[j].id != shows[0].id {
        assert rest[j] in shows[1..];
      }
      if shows[0].id != id {
        ShowKeysCons(shows[0], rest, next);
      }
    }
  }

  /** deleteShow: true iff a show with that id existed; afterwards it is gone
      and every other show is still there. */
  method DeleteShow(db: Database, id: int) returns (existed: bool)
    requires db.Valid()
    modifies db`shows
    ensures db.Valid()
    ensures existed <==> exists k :: 0 <= k < |old(db.shows)| && old(db.shows)[k].id == id
    ensures db.shows == WithoutShow(old(db.shows), id)
    ensures forall s :: s in db.shows <==> s in old(db.shows) && s.id != id
  {
    existed := GetShowById(db.shows, id).Some?;
    WithoutShowKeepsKeys(db.shows, id, db.nextShowId);
    db.shows := WithoutShow(db.shows, id);
  }
}
