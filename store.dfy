/** The database: the three tables and the values their SERIAL id sequences
    hand out next. Each service operation is a method over one Database. */
module Store {
  import opened Schema

  class Database {
    var movies: seq<Movie>
    var shows: seq<Show>
    var bookings: seq<Booking>
    var nextMovieId: nat
    var nextShowId: nat
    var nextBookingId: nat

    ghost predicate Valid()
      reads this
    {
      && MovieKeys(movies, nextMovieId)
      && ShowKeys(shows, nextShowId)
      && BookingKeys(bookings, nextBookingId)
      && SeatsDisjoint(bookings)
    }

    /** Empty tables; every SERIAL sequence starts at 1. */
    constructor ()
      ensures Valid()
      ensures movies == [] && shows == [] && bookings == []
      ensures nextMovieId == 1 && nextShowId == 1 && nextBookingId == 1
    {
      movies, shows, bookings := [], [], [];
      nextMovieId, nextShowId, nextBookingId := 1, 1, 1;
    }
  }
}
