/**
 * The module-level state of movie-booking/app/storage.py as one object:
 * its dictionaries and counters are the fields of `Store`, and each
 * storage operation is a method that updates them in place.
 */
module MemoryStore {
  import opened Common
  import opened Schemas
  import opened Utils
  import opened SeatInventory
  import opened CartRules
  import opened Consistency
  import opened Storage

  // ---------------------------------------------------------------------
  // The store
  // ---------------------------------------------------------------------

  class Store {
    var movies: map<int, Movie>
    /** The keys of `_movies` in insertion order. */
    var movieOrder: seq<int>
    var showtimes: map<int, Showtime>
    /** The keys of `_showtimes` in insertion order. */
    var showtimeOrder: seq<int>
    var seats: SeatMaps
    var booked: map<int, set<string>>
    var meta: map<int, Meta>
    var carts: Carts
    /** The values the two `itertools.count(1)` counters yield next. */
    var nextMovie: int
    var nextShowtime: int

    ghost predicate Valid()
      reads this
    {
      Invariant(movies, movieOrder, showtimes, showtimeOrder, seats, booked, meta, carts, nextMovie, nextShowtime)
    }

    /** The empty store of a fresh process; both counters start at 1. */
    constructor ()
      ensures Valid()
      ensures movies == map[] && showtimes == map[] && seats == map[] && carts == map[]
      ensures nextMovie == 1 && nextShowtime == 1
    {
      movies, movieOrder := map[], [];
      showtimes, showtimeOrder := map[], [];
      seats, booked, meta, carts := map[], map[], map[], map[];
      nextMovie, nextShowtime := 1, 1;
    }

    /** `next(_movie_id_counter)`: an id no stored movie has, and every
        later id is larger. */
    method NextMovieId() returns (id: int)
      requires Valid()
      modifies this`nextMovie
      ensures Valid()
      ensures id == old(nextMovie) && nextMovie == id + 1
      ensures id !in movies
    {
      id := nextMovie;
      nextMovie := nextMovie + 1;
    }

    /** `next(_showtime_id_counter)`: an id no showtime and no cart line has. */
    method NextShowtimeId() returns (id: int)
      requires Valid()
      modifies this`nextShowtime
      ensures Valid()
      ensures id == old(nextShowtime) && nextShowtime == id + 1
      ensures id !in showtimes
      ensures forall u, i :: u in carts && 0 <= i < |carts[u]| ==> carts[u][i].showtimeId < id
    {
      id := nextShowtime;
      nextShowtime := nextShowtime + 1;
    }

    /** `_movies[m.id] = m`: a new key goes last, an existing one keeps its place. */
    method SaveMovie(m: Movie)
      requires Valid() && MovieValid(m) && m.id < nextMovie
      modifies this`movies, this`movieOrder
      ensures Valid()
      ensures movies == old(movies)[m.id := m]
      ensures movieOrder == if m.id in old(movies) then old(movieOrder) else old(movieOrder) + [m.id]
    {
      if m.id !in movies {
        movieOrder := movieOrder + [m.id];
      }
      movies := movies[m.id := m];
    }

    /** `_movies.get(movie_id)`. */
    function GetMovie(id: int): (r: Option<Movie>)
      reads this
      ensures r.Some? <==> id in movies
      ensures Valid() && r.Some? ==> r.value.id == id && MovieValid(r.value)
    {
      if id in movies then Some(movies[id]) else None
    }

    /** `list(_movies.values())`: every stored movie once, in insertion order. */
    function ListMovies(): (r: seq<Movie>)
      reads this
      requires OrderOf(movieOrder, movies.Keys) && MoviesKeyed(movies)
      ensures |r| == |movieOrder|
      ensures forall i :: 0 <= i < |r| ==> r[i] == movies[movieOrder[i]]
      ensures forall id :: id in movies ==> movies[id] in r
      ensures forall m :: m in r ==> m.id in movies && movies[m.id] == m
    {
      var order, ms := movieOrder, movies;
      assert forall i :: 0 <= i < |order| ==> order[i] in Elements(order);
      var r := seq(|order|, i requires 0 <= i < |order| => ms[order[i]]);
      assert forall id :: id in ms ==> ms[id] in r by {
        forall id | id in ms ensures ms[id] in r {
          assert id in Elements(order);
          var i :| 0 <= i < |order| && order[i] == id;
          assert r[i] == ms[id];
        }
      }
      assert forall m :: m in r ==> m.id in ms && ms[m.id] == m by {
        forall m | m in r ensures m.id in ms && ms[m.id] == m {
          var i :| 0 <= i < |r| && r[i] == m;
          assert order[i] in Elements(order);
          assert r[i] == ms[order[i]];
          assert ms[order[i]].id == order[i];
        }
      }
      r
    }

    /** The cascade of delete_movie: an unknown id changes nothing; a known
        one goes, with every showtime of it and that showtime's seat map,
        booked set and metadata. Everything else stays, in its order. */
    method DeleteMovie(movieId: int) returns (found: bool)
      requires Valid()
      modifies this`movies, this`movieOrder, this`showtimes, this`showtimeOrder, this`seats, this`booked, this`meta
      ensures Valid()
      ensures found <==> movieId in old(movies)
      ensures !found ==> (movies == old(movies) && movieOrder == old(movieOrder) && showtimes == old(showtimes)
        && showtimeOrder == old(showtimeOrder) && seats == old(seats) && booked == old(booked) && meta == old(meta))
      ensures found ==> movies == old(movies) - {movieId} && movieOrder == Drop(old(movieOrder), {movieId})
      ensures found ==> var kept := old(showtimes).Keys - ShowtimesOfMovie(old(showtimes), movieId);
        && showtimes == Restrict(old(showtimes), kept)
        && showtimeOrder == Drop(old(showtimeOrder), ShowtimesOfMovie(old(showtimes), movieId))
        && seats == Restrict(old(seats), kept)
        && booked == Restrict(old(booked), kept)
        && meta == Restrict(old(meta), kept)
    {
      if movieId !in movies {
        return false;
      }
      DeleteKeepsInvariant(movies, movieOrder, showtimes, showtimeOrder, seats, booked, meta, carts,
                           nextMovie, nextShowtime, movieId);
      showtimes, seats, booked, meta, showtimeOrder :=
        CascadeDelete(showtimes, seats, booked, meta, showtimeOrder, movieId);
      movies := movies - {movieId};
      movieOrder := Drop(movieOrder, {movieId});
      return true;
    }

    /** save_showtime for a showtime id that is not stored yet and that no
        cart line mentions: the showtime goes last in the order, its seat
        map covers its grid with the on-grid disabled codes blocked and the
        rest available, and its metadata and empty booked set are stored. */
    method SaveShowtime(st: Showtime)
      requires Valid() && ShowtimeValid(st)
      requires st.id !in showtimes && st.id < nextShowtime
      requires forall u, i :: u in carts && 0 <= i < |carts[u]| ==> carts[u][i].showtimeId != st.id
      modifies this`showtimes, this`showtimeOrder, this`seats, this`booked, this`meta
      ensures Valid()
      ensures showtimes == old(showtimes)[st.id := st] && showtimeOrder == old(showtimeOrder) + [st.id]
      ensures seats == old(seats)[st.id := InitialSeatMap(st.rows, st.cols, MetaFor(st).disabled)]
      ensures booked == old(booked)[st.id := {}] && meta == old(meta)[st.id := MetaFor(st)]
    {
      var seatMap := InitialMap(st);
      var aisles := OrEmpty(st.aislesCols);
      var vip := Elements(OrEmpty(st.vipSeats));
      var disabled := Elements(OrEmpty(st.disabledSeats));
      SaveShowtimeKeepsInvariant(movies, movieOrder, showtimes, showtimeOrder, seats, booked, meta, carts,
                                 nextMovie, nextShowtime, st);
      showtimes := showtimes[st.id := st];
      showtimeOrder := showtimeOrder + [st.id];
      seats := seats[st.id := seatMap];
      booked := booked[st.id := {}];
      meta := meta[st.id := Meta(aisles, vip, disabled)];
    }

    /** `list_showtimes(movie_id)`: exactly the showtimes of that movie, or
        all of them without a filter, each once, in insertion order. */
    function ListShowtimes(movieId: Option<int>): (r: seq<Showtime>)
      reads this
      requires OrderOf(showtimeOrder, showtimes.Keys) && ShowtimesKeyed(showtimes)
      ensures forall id :: id in showtimes && Matches(showtimes[id], movieId) ==> showtimes[id] in r
      ensures forall st :: st in r ==> Matches(st, movieId) && st.id in showtimes && showtimes[st.id] == st
      ensures var ids := FilteredIds(showtimeOrder, showtimes, movieId);
        && |r| == |ids|
        && (forall i :: 0 <= i < |r| ==> r[i] == showtimes[ids[i]])
        && Subsequence(ids, showtimeOrder)
      ensures forall i, j :: 0 <= i < j < |r| ==> r[i].id != r[j].id
      ensures movieId.None? ==> |r| == |showtimeOrder|
      ensures movieId.None? ==> forall i :: 0 <= i < |r| ==> r[i] == showtimes[showtimeOrder[i]]
    {
      var order, sts := showtimeOrder, showtimes;
      ListingInOrder(order, sts, movieId);
      if movieId.None? then FilteredAll(order, sts); Filtered(order, sts, movieId)
      else Filtered(order, sts, movieId)
    }

    /** `_carts.get(user_id, [])`. */
    function GetCart(u: string): (items: seq<CartLine>)
      reads this
      ensures u !in carts ==> items == []
      ensures u in carts ==> items == carts[u]
    {
      CartOf(carts, u)
    }

    /** `_carts[user_id] = items`: no other user's cart changes. */
    method SetCart(u: string, items: seq<CartLine>)
      modifies this`carts
      ensures carts == old(carts)[u := items]
      ensures forall v :: v != u ==> GetCart(v) == old(GetCart(v))
      ensures GetCart(u) == items
    {
      carts := carts[u := items];
    }
  }
}
