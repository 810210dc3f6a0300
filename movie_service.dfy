/** The movie table operations (src/services/movieService.js). */
module MovieService {
  import opened Wrappers
  import opened Schema
  import opened Store
  import opened Ordering

  /** description || null: a missing or empty description is stored as NULL. */
  function StoredDescription(description: Option<string>): (r: Option<string>)
    ensures r.None? <==> description.None? || description.value == ""
    ensures r.Some? ==> r == description
  {
    if description.Some? && description.value != "" then description else None
  }

  /** createMovie: inserts one row under the next id and returns it. */
  method CreateMovie(db: Database, title: string, description: Option<string>, durationMinutes: int, now: int)
    returns (movie: Movie)
    requires db.Valid()
    modifies db`movies, db`nextMovieId
    ensures db.Valid()
    ensures movie == Movie(old(db.nextMovieId), title, StoredDescription(description), durationMinutes, now)
    ensures db.movies == old(db.movies) + [movie]
    ensures db.nextMovieId == old(db.nextMovieId) + 1
  {
    movie := Movie(db.nextMovieId, title, StoredDescription(description), durationMinutes, now);
    MovieKeysAppend(db.movies, movie, db.nextMovieId);
    db.movies := db.movies + [movie];
    db.nextMovieId := db.nextMovieId + 1;
  }

  function NewestMovieFirst(m: Movie): int { -m.createdAt }

  /** getAllMovies: every movie, newest created_at first. */
  function GetAllMovies(movies: seq<Movie>): (r: seq<Movie>)
    ensures forall i, j :: 0 <= i < j < |r| ==> r[i].createdAt >= r[j].createdAt
    ensures multiset(r) == multiset(movies)
  {
    var r := SortBy(movies, NewestMovieFirst);
    assert forall i, j :: 0 <= i < j < |r| ==> NewestMovieFirst(r[i]) <= NewestMovieFirst(r[j]);
    r
  }

  /** getMovieById: the row with that id, or None. */
  function GetMovieById(movies: seq<Movie>, id: int): (r: Option<Movie>)
    ensures r.Some? ==> r.value in movies && r.value.id == id
    ensures r.None? <==> forall i :: 0 <= i < |movies| ==> movies[i].id != id
  {
    if |movies| == 0 then None
    else if movies[0].id == id then Some(movies[0])
    else GetMovieById(movies[1..], id)
  }

  /** With distinct ids, the lookup finds exactly the row that carries the id. */
  lemma {:induction false} GetMovieByIdFinds(movies: seq<Movie>, next: nat, k: int)
    requires MovieKeys(movies, next)
    requires 0 <= k < |movies|
    ensures GetMovieById(movies, movies[k].id) == Some(movies[k])
  {
    if k > 0 {
      assert movies[0].id != movies[k].id;
      GetMovieByIdFinds(movies[1..], next, k - 1);
    }
  }

  /** SET col = COALESCE($k, col) for title, description and duration. */
  function PatchMovie(m: Movie, title: Option<string>, description: Option<string>, durationMinutes: Option<int>): (r: Movie)
    ensures r.id == m.id && r.createdAt == m.createdAt
    ensures title.Some? ==> r.title == title.value
    ensures title.None? ==> r.title == m.title
    ensures description.Some? ==> r.description == description
    ensures description.None? ==> r.description == m.description
    ensures durationMinutes.Some? ==> r.durationMinutes == durationMinutes.value
    ensures durationMinutes.None? ==> r.durationMinutes == m.durationMinutes
  {
    m.(title := if title.Some? then title.value else m.title,
       description := if description.Some? then description else m.description,
       durationMinutes := if durationMinutes.Some? then durationMinutes.value else m.durationMinutes)
  }

  /** The UPDATE over the whole table: the row with that id is patched and
      every other row is left as it was. */
  function PatchMovies(movies: seq<Movie>, id: int, title: Option<string>, description: Option<string>, durationMinutes: Option<int>): (r: seq<Movie>)
    ensures |r| == |movies|
    ensures forall k :: 0 <= k < |movies| ==>
      r[k] == if movies[k].id == id then PatchMovie(movies[k], title, description, durationMinutes) else movies[k]
  {
    seq(|movies|, k requires 0 <= k < |movies| => if movies[k].id == id then PatchMovie(movies[k], title, description, durationMinutes) else movies[k])
  }

  /** updateMovie: patches the row with that id and returns it, or returns
      None and changes nothing when there is no such movie. */
  method UpdateMovie(db: Database, id: int, title: Option<string>, description: Option<string>, durationMinutes: Option<int>)
    returns (updated: Option<Movie>)
    requires db.Valid()
    modifies db`movies
    ensures db.Valid()
    ensures db.movies == PatchMovies(old(db.movies), id, title, description, durationMinutes)
    ensures updated.None? <==> GetMovieById(old(db.movies), id).None?
    ensures updated.Some? ==> updated.value == PatchMovie(GetMovieById(old(db.movies), id).value, title, description, durationMinutes)
    ensures updated.None? ==> db.movies == old(db.movies)
  {
    var rows;
    rows, updated := PatchMovieRows(db.movies, id, title, description, durationMinutes);
    PatchedMovieIsLookup(db.movies, db.nextMovieId, id, title, description, durationMinutes, updated);
    PatchMoviesKeepsKeys(db.movies, db.nextMovieId, id, title, description, durationMinutes);
    db.movies := rows;
  }

  /** The UPDATE row by row: every row with that id is patched, and the
      patched row is reported. */
  method PatchMovieRows(before: seq<Movie>, id: int, title: Option<string>, description: Option<string>, durationMinutes: Option<int>)
    returns (rows: seq<Movie>, updated: Option<Movie>)
    ensures rows == PatchMovies(before, id, title, description, durationMinutes)
    ensures updated.None? <==> forall k :: 0 <= k < |before| ==> before[k].id != id
    ensures updated.Some? ==> exists k :: 0 <= k < |before| && before[k].id == id
                                 && updated.value == PatchMovie(before[k], title, description, durationMinutes)
    ensures updated.None? ==> rows == before
  {
    rows := before;
    updated := None;
    var i := 0;
    while i < |rows|
      invariant 0 <= i <= |rows| == |before|
      invariant forall k :: 0 <= k < i ==>
        rows[k] == if before[k].id == id then PatchMovie(before[k], title, description, durationMinutes) else before[k]
      invariant forall k :: i <= k < |rows| ==> rows[k] == before[k]
      invariant updated.None? <==> forall k :: 0 <= k < i ==> before[k].id != id
      invariant updated.Some? ==> exists k :: 0 <= k < i && before[k].id == id
                                   && updated.value == PatchMovie(before[k], title, description, durationMinutes)
    {
      if rows[i].id == id {
        var row := PatchMovie(rows[i], title, description, durationMinutes);
        rows := rows[i := row];
        updated := Some(row);
      }
      i := i + 1;
    }
    assert rows == PatchMovies(before, id, title, description, durationMinutes);
    if updated.None? {
      assert rows == before;
    }
  }

  /** The row the loop reports is the patched row the lookup by id finds. */
  lemma PatchedMovieIsLookup(movies: seq<Movie>, next: nat, id: int, title: Option<string>, description: Option<string>, durationMinutes: Option<int>, updated: Option<Movie>)
    requires MovieKeys(movies, next)
    requires updated.None? <==> forall k :: 0 <= k < |movies| ==> movies[k].id != id
    requires updated.Some? ==> exists k :: 0 <= k < |movies| && movies[k].id == id
                                 && updated.value == PatchMovie(movies[k], title, description, durationMinutes)
    ensures updated.None? <==> GetMovieById(movies, id).None?
    ensures updated.Some? ==> updated.value == PatchMovie(GetMovieById(movies, id).value, title, description, durationMinutes)
  {
    if updated.Some? {
      var k :| 0 <= k < |movies| && movies[k].id == id && updated.value == PatchMovie(movies[k], title, description, durationMinutes);
      GetMovieByIdFinds(movies, next, k);
    }
  }

  /** A patch never touches an id, so the keys stay as they were. */
  lemma PatchMoviesKeepsKeys(movies: seq<Movie>, next: nat, id: int, title: Option<string>, description: Option<string>, durationMinutes: Option<int>)
    requires MovieKeys(movies, next)
    ensures MovieKeys(PatchMovies(movies, id, title, description, durationMinutes), next)
  {
    var after := PatchMovies(movies, id, title, description, durationMinutes);
    assert forall k :: 0 <= k < |movies| ==> after[k].id == movies[k].id;
  }

  /** DELETE FROM movies WHERE id = $1, as a filter that keeps table order. */
  function WithoutMovie(movies: seq<Movie>, id: int): (r: seq<Movie>)
    ensures forall m :: m in r <==> m in movies && m.id != id
  {
    if |movies| == 0 then []
    else
      var rest := WithoutMovie(movies[1..], id);
      assert forall m :: m in movies <==> m == movies[0] || m in movies[1..];
      if movies[0].id == id then rest else [movies[0]] + rest
  }

  /** Deleting rows keeps the remaining keys distinct. */
  lemma {:induction false} WithoutMovieKeepsKeys(movies: seq<Movie>, id: int, next: nat)
    requires MovieKeys(movies, next)
    ensures MovieKeys(WithoutMovie(movies, id), next)
  {
    if |movies| > 0 {
      WithoutMovieKeepsKeys(movies[1..], id, next);
      var rest := WithoutMovie(movies[1..], id);
      forall j | 0 <= j < |rest| ensures rest[j].id != movies[0].id {
        assert rest[j] in movies[1..];
      }
      if movies[0].id != id {
        MovieKeysCons(movies[0], rest, next);
      }
    }
  }

  /** deleteMovie: true iff a movie with that id existed; afterwards it is
      gone and every other movie is still there. */
  method DeleteMovie(db: Database, id: int) returns (existed: bool)
    requires db.Valid()
    modifies db`movies
    ensures db.Valid()
    ensures existed <==> exists k :: 0 <= k < |old(db.movies)| && old(db.movies)[k].id == id
    ensures db.movies == WithoutMovie(old(db.movies), id)
    ensures forall m :: m in db.movies <==> m in old(db.movies) && m.id != id
  {
    existed := GetMovieById(db.movies, id).Some?;
    WithoutMovieKeepsKeys(db.movies, id, db.nextMovieId);
    db.movies := WithoutMovie(db.movies, id);
  }
}
