/**
 * The in-memory storage of the booking service (movie-booking/app/storage.py):
 * the module-level dictionaries, the two id counters and the operations
 * on them. Python dictionaries keep insertion order and the listing
 * operations expose it, so the movie and showtime dictionaries come with
 * the sequence of their keys in insertion order.
 */
module Storage {
  import opened Common
  import opened Schemas
  import opened Utils
  import opened SeatInventory
  import opened CartRules
  import opened Consistency

  /** `_showtime_meta[id]`: the aisles list and the vip and disabled sets. */
  datatype Meta = Meta(aisles: seq<int>, vip: set<string>, disabled: set<string>)

  /** An optional list, or the empty list when it is absent. */
  function OrEmpty<T>(o: Option<seq<T>>): (r: seq<T>)
    ensures o.None? ==> r == []
  {
    if o.Some? then o.value else []
  }

  /** The metadata save_showtime derives from a showtime. */
  function MetaFor(st: Showtime): Meta {
    Meta(OrEmpty(st.aislesCols), Elements(OrEmpty(st.vipSeats)), Elements(OrEmpty(st.disabledSeats)))
  }

  /** What is stored for a showtime: a seat map over exactly the codes of
      its grid, blocked exactly at its disabled seats, its metadata, and
      an empty booked set. */
  ghost predicate StoredShowtime(st: Showtime, m: SeatMap, booked: set<string>, meta: Meta) {
    && ShowtimeValid(st)
    && m.Keys == Elements(SeatCodes(st.rows, st.cols))
    && (forall s :: s in m ==> (m[s] == Blocked <==> s in meta.disabled))
    && booked == {}
    && meta == MetaFor(st)
  }

  /** `order` lists the keys `keys` once each. */
  predicate OrderOf(order: seq<int>, keys: set<int>) {
    Distinct(order) && Elements(order) == keys
  }

  predicate MoviesKeyed(movies: map<int, Movie>) {
    forall id :: id in movies ==> movies[id].id == id
  }

  predicate ShowtimesKeyed(showtimes: map<int, Showtime>) {
    forall id :: id in showtimes ==> showtimes[id].id == id
  }

  /** Every stored movie is keyed by its own id, below the counter, and valid. */
  ghost predicate MoviesStored(movies: map<int, Movie>, next: int) {
    && MoviesKeyed(movies)
    && (forall id :: id in movies ==> id < next && MovieValid(movies[id]))
  }

  /** The four per-showtime dictionaries share their keys, every stored
      showtime is keyed by its own id, below the counter, with what
      save_showtime stored for it. */
  ghost predicate ShowtimesStored(showtimes: map<int, Showtime>, seats: SeatMaps, booked: map<int, set<string>>,
                                  meta: map<int, Meta>, next: int) {
    && seats.Keys == showtimes.Keys && booked.Keys == showtimes.Keys && meta.Keys == showtimes.Keys
    && ShowtimesKeyed(showtimes)
    && (forall id :: id in showtimes ==> id < next)
    && (forall id :: id in showtimes ==> StoredShowtime(showtimes[id], seats[id], booked[id], meta[id]))
  }

  /** Every cart line names a showtime id the counter has issued. */
  predicate CartsIssued(carts: Carts, next: int) {
    forall u, i :: u in carts && 0 <= i < |carts[u]| ==> carts[u][i].showtimeId < next
  }

  /** The seat-map changes of the workflow keep what is stored for every showtime. */
  lemma StoredAfterEvolve(showtimes: map<int, Showtime>, seats: SeatMaps, seats': SeatMaps,
                          booked: map<int, set<string>>, meta: map<int, Meta>, next: int)
    requires ShowtimesStored(showtimes, seats, booked, meta, next)
    requires Evolves(seats, seats')
    ensures ShowtimesStored(showtimes, seats', booked, meta, next)
  {
    forall id | id in showtimes ensures StoredShowtime(showtimes[id], seats'[id], booked[id], meta[id]) {
      assert forall s :: s in seats'[id] ==> s in seats[id];
    }
  }

  /** delete_movie's restriction of the four dictionaries keeps them stored. */
  lemma StoredAfterRestrict(showtimes: map<int, Showtime>, seats: SeatMaps, booked: map<int, set<string>>,
                            meta: map<int, Meta>, next: int, keys: set<int>)
    requires ShowtimesStored(showtimes, seats, booked, meta, next)
    ensures ShowtimesStored(Restrict(showtimes, keys), Restrict(seats, keys), Restrict(booked, keys),
                            Restrict(meta, keys), next)
  {
  }

  /** save_showtime's new entries are stored. */
  lemma StoredAfterAdd(showtimes: map<int, Showtime>, seats: SeatMaps, booked: map<int, set<string>>,
                       meta: map<int, Meta>, next: int, st: Showtime)
    requires ShowtimesStored(showtimes, seats, booked, meta, next)
    requires ShowtimeValid(st) && st.id < next
    ensures ShowtimesStored(showtimes[st.id := st],
                            seats[st.id := InitialSeatMap(st.rows, st.cols, MetaFor(st).disabled)],
                            booked[st.id := {}], meta[st.id := MetaFor(st)], next)
  {
    var m := InitialSeatMap(st.rows, st.cols, MetaFor(st).disabled);
    forall code | code in m ensures m[code] == Blocked <==> code in MetaFor(st).disabled {
      InitialSeatMapShape(st.rows, st.cols, MetaFor(st).disabled, code);
    }
    InitialSeatMapShape(st.rows, st.cols, MetaFor(st).disabled, "");
    assert StoredShowtime(st, m, {}, MetaFor(st));
    var showtimes', seats', booked', meta' :=
      showtimes[st.id := st], seats[st.id := m], booked[st.id := {}], meta[st.id := MetaFor(st)];
    forall id | id in showtimes' ensures StoredShowtime(showtimes'[id], seats'[id], booked'[id], meta'[id]) {
      if id != st.id {
        assert showtimes'[id] == showtimes[id] && seats'[id] == seats[id];
        assert booked'[id] == booked[id] && meta'[id] == meta[id];
      }
    }
  }

  lemma RestrictRemove<V>(m: map<int, V>, keys: set<int>, k: int)
    ensures Restrict(m, keys - {k}) == Restrict(m, keys) - {k}
  {
  }

  // ---------------------------------------------------------------------
  // Insertion order
  // ---------------------------------------------------------------------

  /** The key order after popping the keys in `gone`. */
  function Drop(xs: seq<int>, gone: set<int>): seq<int> {
    if xs == [] then []
    else if xs[0] in gone then Drop(xs[1..], gone)
    else [xs[0]] + Drop(xs[1..], gone)
  }

  /** Popping keys leaves the other keys, each still once. */
  lemma {:induction false} DropKeeps(xs: seq<int>, gone: set<int>)
    ensures Elements(Drop(xs, gone)) == Elements(xs) - gone
    ensures Distinct(xs) ==> Distinct(Drop(xs, gone))
  {
    if xs != [] {
      var rest := Drop(xs[1..], gone);
      DropKeeps(xs[1..], gone);
      assert Elements(xs) == {xs[0]} + Elements(xs[1..]);
      if xs[0] !in gone {
        assert Distinct(xs) ==> xs[0] !in Elements(rest);
        assert Elements([xs[0]] + rest) == {xs[0]} + Elements(rest);
        if Distinct(xs) {
          var r := [xs[0]] + rest;
          forall i, j | 0 <= i < j < |r| ensures r[i] != r[j] {
            if i == 0 { assert r[j] == rest[j - 1] && rest[j - 1] in Elements(rest); }
            else { assert r[i] == rest[i - 1] && r[j] == rest[j - 1]; }
          }
        }
      }
    }
  }

  lemma {:induction false} DropAppend(a: seq<int>, b: seq<int>, gone: set<int>)
    ensures Drop(a + b, gone) == Drop(a, gone) + Drop(b, gone)
  {
    if a == [] {
      assert a + b == b;
    } else {
      var x, ab := a[0], a + b;
      assert ab[0] == x && ab[1..] == a[1..] + b;
      DropAppend(a[1..], b, gone);
      var da, db := Drop(a[1..], gone), Drop(b, gone);
      assert Drop(ab[1..], gone) == da + db;
      if x !in gone {
        assert [x] + (da + db) == ([x] + da) + db;
      }
    }
  }

  lemma {:induction false} DropNothing(xs: seq<int>, gone: set<int>)
    requires Elements(xs) !! gone
    ensures Drop(xs, gone) == xs
  {
    if xs != [] {
      assert xs[0] in Elements(xs);
      assert Elements(xs[1..]) <= Elements(xs);
      DropNothing(xs[1..], gone);
    }
  }

  /** `map` restricted to the keys in `keys`. */
  function Restrict<V>(m: map<int, V>, keys: set<int>): (r: map<int, V>)
    ensures r.Keys == m.Keys * keys
    ensures forall k :: k in r ==> r[k] == m[k]
  {
    map k | k in m && k in keys :: m[k]
  }

  /** The showtimes delete_movie removes along with a movie. */
  function ShowtimesOfMovie(showtimes: map<int, Showtime>, movieId: int): set<int> {
    set id | id in showtimes && showtimes[id].movieId == movieId
  }

  predicate Matches(st: Showtime, movieId: Option<int>) {
    movieId.None? || st.movieId == movieId.value
  }

  /** The keys whose showtimes the comprehension of list_showtimes keeps,
      in the order it meets them: exactly the keys of matching showtimes. */
  function FilteredIds(order: seq<int>, showtimes: map<int, Showtime>, movieId: Option<int>): (ids: seq<int>)
    requires Elements(order) <= showtimes.Keys
    ensures |ids| <= |order|
    ensures forall id :: id in ids <==> id in order && Matches(showtimes[id], movieId)
  {
    if order == [] then []
    else
      assert Elements(order[1..]) <= Elements(order);
      assert forall id :: id in order <==> id == order[0] || id in order[1..];
      var rest := FilteredIds(order[1..], showtimes, movieId);
      if Matches(showtimes[order[0]], movieId) then [order[0]] + rest else rest
  }

  /** The comprehension of list_showtimes over the showtimes in `order`:
      the showtimes of the kept keys, one after another. It lists every
      matching showtime and nothing else. */
  function Filtered(order: seq<int>, showtimes: map<int, Showtime>, movieId: Option<int>): (r: seq<Showtime>)
    requires Elements(order) <= showtimes.Keys
    ensures |r| == |FilteredIds(order, showtimes, movieId)| <= |order|
    ensures forall i :: 0 <= i < |r| ==> r[i] == showtimes[FilteredIds(order, showtimes, movieId)[i]]
    ensures forall id :: id in order && Matches(showtimes[id], movieId) ==> showtimes[id] in r
    ensures forall st :: st in r ==> Matches(st, movieId) && exists id :: id in order && showtimes[id] == st
  {
    var ids := FilteredIds(order, showtimes, movieId);
    assert forall k :: 0 <= k < |ids| ==> ids[k] in ids;
    var r := seq(|ids|, k requires 0 <= k < |ids| => showtimes[ids[k]]);
    assert forall id :: id in order && Matches(showtimes[id], movieId) ==> showtimes[id] in r by {
      forall id | id in order && Matches(showtimes[id], movieId) ensures showtimes[id] in r {
        var k :| 0 <= k < |ids| && ids[k] == id;
        assert r[k] == showtimes[id];
      }
    }
    assert forall st :: st in r ==> Matches(st, movieId) && exists id :: id in order && showtimes[id] == st by {
      forall st | st in r ensures Matches(st, movieId) && exists id :: id in order && showtimes[id] == st {
        var k :| 0 <= k < |r| && r[k] == st;
        var id := ids[k];
        assert id in ids && r[k] == showtimes[id];
        assert id in order && showtimes[id] == st;
      }
    }
    r
  }

  /** The kept keys come in insertion order. */
  lemma {:induction false} FilteredIdsInOrder(order: seq<int>, showtimes: map<int, Showtime>, movieId: Option<int>)
    requires Elements(order) <= showtimes.Keys
    ensures Subsequence(FilteredIds(order, showtimes, movieId), order)
  {
    if order != [] {
      var x, tail := order[0], order[1..];
      assert Elements(tail) <= Elements(order);
      FilteredIdsInOrder(tail, showtimes, movieId);
      var rest := FilteredIds(tail, showtimes, movieId);
      assert order == [x] + tail;
      if Matches(showtimes[x], movieId) {
        assert ([x] + rest)[1..] == rest;
      } else {
        SubsequenceCons(rest, tail, x);
      }
    }
  }

  /** No key is kept twice when the insertion order holds each key once. */
  lemma {:induction false} FilteredIdsDistinct(order: seq<int>, showtimes: map<int, Showtime>, movieId: Option<int>)
    requires Elements(order) <= showtimes.Keys && Distinct(order)
    ensures Distinct(FilteredIds(order, showtimes, movieId))
  {
    if order != [] {
      var x, tail := order[0], order[1..];
      assert Elements(tail) <= Elements(order);
      assert Distinct(tail) by {
        forall i, j | 0 <= i < j < |tail| ensures tail[i] != tail[j] {
          assert tail[i] == order[i + 1] && tail[j] == order[j + 1];
        }
      }
      FilteredIdsDistinct(tail, showtimes, movieId);
      if Matches(showtimes[x], movieId) {
        var rest := FilteredIds(tail, showtimes, movieId);
        var ids := [x] + rest;
        assert x !in rest;
        forall i, j | 0 <= i < j < |ids| ensures ids[i] != ids[j] {
          assert ids[j] == rest[j - 1];
          if i > 0 { assert ids[i] == rest[i - 1]; }
        }
      }
    }
  }

  /** With every stored showtime in the order, the listing holds every
      matching showtime and, under their own ids, only matching ones. */
  lemma ListedExactly(order: seq<int>, showtimes: map<int, Showtime>, movieId: Option<int>)
    requires OrderOf(order, showtimes.Keys) && ShowtimesKeyed(showtimes)
    ensures var r := Filtered(order, showtimes, movieId);
      && (forall id :: id in showtimes && Matches(showtimes[id], movieId) ==> showtimes[id] in r)
      && (forall st :: st in r ==> Matches(st, movieId) && st.id in showtimes && showtimes[st.id] == st)
  {
    var r := Filtered(order, showtimes, movieId);
    forall id | id in showtimes && Matches(showtimes[id], movieId) ensures showtimes[id] in r {
      assert id in Elements(order);
    }
    forall st | st in r ensures Matches(st, movieId) && st.id in showtimes && showtimes[st.id] == st {
      var id :| id in order && showtimes[id] == st;
      assert id in Elements(order);
    }
  }

  /** With each key once in the order, no showtime is listed twice. */
  lemma ListedOnce(order: seq<int>, showtimes: map<int, Showtime>, movieId: Option<int>)
    requires OrderOf(order, showtimes.Keys) && ShowtimesKeyed(showtimes)
    ensures var r := Filtered(order, showtimes, movieId);
      forall i, j :: 0 <= i < j < |r| ==> r[i].id != r[j].id
  {
    var ids := FilteredIds(order, showtimes, movieId);
    var r := Filtered(order, showtimes, movieId);
    FilteredIdsDistinct(order, showtimes, movieId);
    assert forall i :: 0 <= i < |r| ==> ids[i] in ids && r[i].id == ids[i];
  }

  /** list_showtimes on a store whose showtimes sit under their own ids and
      whose order holds each key once: it lists every matching showtime and
      nothing else, in insertion order, and none twice. */
  lemma ListingInOrder(order: seq<int>, showtimes: map<int, Showtime>, movieId: Option<int>)
    requires OrderOf(order, showtimes.Keys) && ShowtimesKeyed(showtimes)
    ensures var r := Filtered(order, showtimes, movieId);
      && (forall id :: id in showtimes && Matches(showtimes[id], movieId) ==> showtimes[id] in r)
      && (forall st :: st in r ==> Matches(st, movieId) && st.id in showtimes && showtimes[st.id] == st)
      && Subsequence(FilteredIds(order, showtimes, movieId), order)
      && (forall i, j :: 0 <= i < j < |r| ==> r[i].id != r[j].id)
  {
    ListedExactly(order, showtimes, movieId);
    FilteredIdsInOrder(order, showtimes, movieId);
    ListedOnce(order, showtimes, movieId);
  }

  /** Without a movie filter the listing is every showtime in insertion order. */
  lemma {:induction false} FilteredAll(order: seq<int>, showtimes: map<int, Showtime>)
    requires Elements(order) <= showtimes.Keys
    ensures |Filtered(order, showtimes, None)| == |order|
    ensures forall i :: 0 <= i < |order| ==> Filtered(order, showtimes, None)[i] == showtimes[order[i]]
  {
    KeepsAllIds(order, showtimes);
  }

  lemma {:induction false} KeepsAllIds(order: seq<int>, showtimes: map<int, Showtime>)
    requires Elements(order) <= showtimes.Keys
    ensures FilteredIds(order, showtimes, None) == order
  {
    if order != [] {
      assert Elements(order[1..]) <= Elements(order);
      KeepsAllIds(order[1..], showtimes);
      assert order == [order[0]] + order[1..];
    }
  }

  /** Popping key `xs[i]` from the order `Drop(xs[..i], gone) + xs[i..]`. */
  lemma PopOrder(xs: seq<int>, i: int, gone: set<int>)
    requires Distinct(xs) && 0 <= i < |xs| && xs[i] in gone
    ensures Drop(Drop(xs[..i], gone) + xs[i..], {xs[i]}) == Drop(xs[..i + 1], gone) + xs[i + 1..]
  {
    var x := xs[i];
    var a, b := xs[..i], xs[i + 1..];
    assert xs[..i + 1] == a + [x];
    assert xs[i..] == [x] + b;
    DropAppend(a, [x], gone);
    assert Drop([x], gone) == [];
    assert x !in Elements(a) by {
      forall j | 0 <= j < i ensures a[j] != x { assert a[j] == xs[j]; }
    }
    assert x !in Elements(b) by {
      forall j | 0 <= j < |b| ensures b[j] != x { assert b[j] == xs[i + 1 + j]; }
    }
    var da := Drop(a, gone);
    DropKeeps(a, gone);
    DropAppend(da, [x] + b, {x});
    DropAppend([x], b, {x});
    DropNothing(da, {x});
    DropNothing(b, {x});
    assert Drop([x], {x}) == [];
    assert da + [] == da;
  }

  /** The four dictionaries and the key order after the cascade of
      delete_movie has looked at the showtimes `order0[..i]`. */
  ghost predicate Cascaded(showtimes0: map<int, Showtime>, seats0: SeatMaps, booked0: map<int, set<string>>,
                           meta0: map<int, Meta>, order0: seq<int>, movieId: int, i: int,
                           showtimes: map<int, Showtime>, seats: SeatMaps, booked: map<int, set<string>>,
                           meta: map<int, Meta>, order: seq<int>)
    requires 0 <= i <= |order0|
  {
    var gone := ShowtimesOfMovie(showtimes0, movieId);
    var live := showtimes0.Keys - gone * Elements(order0[..i]);
    && showtimes == Restrict(showtimes0, live)
    && seats == Restrict(seats0, live)
    && booked == Restrict(booked0, live)
    && meta == Restrict(meta0, live)
    && order == Drop(order0[..i], gone) + order0[i..]
  }

  /** Before the cascade has looked at anything, nothing is gone. */
  lemma CascadeStart(showtimes0: map<int, Showtime>, seats0: SeatMaps, booked0: map<int, set<string>>,
                     meta0: map<int, Meta>, order0: seq<int>, movieId: int)
    requires seats0.Keys == showtimes0.Keys && booked0.Keys == showtimes0.Keys && meta0.Keys == showtimes0.Keys
    ensures Cascaded(showtimes0, seats0, booked0, meta0, order0, movieId, 0,
                     showtimes0, seats0, booked0, meta0, order0)
  {
    assert order0[..0] == [];
    assert order0[0..] == order0;
  }

  /** Looking at showtime `order0[i]` pops it from all four dictionaries
      and from the order iff it belongs to the movie. */
  lemma CascadeStep(showtimes0: map<int, Showtime>, seats0: SeatMaps, booked0: map<int, set<string>>,
                    meta0: map<int, Meta>, order0: seq<int>, movieId: int, i: int,
                    showtimes: map<int, Showtime>, seats: SeatMaps, booked: map<int, set<string>>,
                    meta: map<int, Meta>, order: seq<int>)
    requires OrderOf(order0, showtimes0.Keys) && 0 <= i < |order0|
    requires Cascaded(showtimes0, seats0, booked0, meta0, order0, movieId, i, showtimes, seats, booked, meta, order)
    ensures order0[i] in showtimes0
    ensures showtimes0[order0[i]].movieId == movieId ==>
      var sid := order0[i];
      Cascaded(showtimes0, seats0, booked0, meta0, order0, movieId, i + 1,
               showtimes - {sid}, seats - {sid}, booked - {sid}, meta - {sid}, Drop(order, {sid}))
    ensures showtimes0[order0[i]].movieId != movieId ==>
      Cascaded(showtimes0, seats0, booked0, meta0, order0, movieId, i + 1, showtimes, seats, booked, meta, order)
  {
    var xs, sid := order0, order0[i];
    assert sid in Elements(xs);
    var gone := ShowtimesOfMovie(showtimes0, movieId);
    assert xs[..i + 1] == xs[..i] + [sid];
    assert Elements(xs[..i + 1]) == Elements(xs[..i]) + {sid};
    var live := showtimes0.Keys - gone * Elements(xs[..i]);
    OrderStep(xs, i, gone);
    if sid in gone {
      assert showtimes0.Keys - gone * Elements(xs[..i + 1]) == live - {sid};
      RestrictRemove(showtimes0, live, sid);
      RestrictRemove(seats0, live, sid);
      RestrictRemove(booked0, live, sid);
      RestrictRemove(meta0, live, sid);
    } else {
      assert showtimes0.Keys - gone * Elements(xs[..i + 1]) == live;
    }
  }

  /** Once the cascade has looked at every showtime, exactly the movie's
      showtimes are gone. */
  lemma CascadeDone(showtimes0: map<int, Showtime>, seats0: SeatMaps, booked0: map<int, set<string>>,
                    meta0: map<int, Meta>, order0: seq<int>, movieId: int,
                    showtimes: map<int, Showtime>, seats: SeatMaps, booked: map<int, set<string>>,
                    meta: map<int, Meta>, order: seq<int>)
    requires OrderOf(order0, showtimes0.Keys)
    requires Cascaded(showtimes0, seats0, booked0, meta0, order0, movieId, |order0|,
                      showtimes, seats, booked, meta, order)
    ensures var kept := showtimes0.Keys - ShowtimesOfMovie(showtimes0, movieId);
      && showtimes == Restrict(showtimes0, kept)
      && seats == Restrict(seats0, kept)
      && booked == Restrict(booked0, kept)
      && meta == Restrict(meta0, kept)
    ensures order == Drop(order0, ShowtimesOfMovie(showtimes0, movieId))
  {
    var gone := ShowtimesOfMovie(showtimes0, movieId);
    assert order0[..|order0|] == order0;
    assert order0[|order0|..] == [];
    assert showtimes0.Keys - gone * Elements(order0) == showtimes0.Keys - gone;
    assert Drop(order0, gone) + [] == Drop(order0, gone);
  }

  /** One step of the cascade on the key order. */
  lemma OrderStep(xs: seq<int>, i: int, gone: set<int>)
    requires Distinct(xs) && 0 <= i < |xs|
    ensures Drop(xs[..i + 1], gone) + xs[i + 1..]
      == if xs[i] in gone then Drop(Drop(xs[..i], gone) + xs[i..], {xs[i]})
         else Drop(xs[..i], gone) + xs[i..]
  {
    if xs[i] in gone {
      PopOrder(xs, i, gone);
    } else {
      assert xs[..i + 1] == xs[..i] + [xs[i]];
      assert xs[i..] == [xs[i]] + xs[i + 1..];
      DropAppend(xs[..i], [xs[i]], gone);
      assert Drop([xs[i]], gone) == [xs[i]];
    }
  }

  /** The invariant of the storage dictionaries and counters. */
  ghost predicate Invariant(movies: map<int, Movie>, movieOrder: seq<int>,
                            showtimes: map<int, Showtime>, showtimeOrder: seq<int>,
                            seats: SeatMaps, booked: map<int, set<string>>, meta: map<int, Meta>,
                            carts: Carts, nextMovie: int, nextShowtime: int) {
    && OrderOf(movieOrder, movies.Keys)
    && OrderOf(showtimeOrder, showtimes.Keys)
    && MoviesStored(movies, nextMovie)
    && ShowtimesStored(showtimes, seats, booked, meta, nextShowtime)
    && CartsIssued(carts, nextShowtime)
    && Consistent(seats, carts)
  }

  /** delete_movie keeps the invariant. */
  lemma DeleteKeepsInvariant(movies: map<int, Movie>, movieOrder: seq<int>,
                             showtimes: map<int, Showtime>, showtimeOrder: seq<int>,
                             seats: SeatMaps, booked: map<int, set<string>>, meta: map<int, Meta>,
                             carts: Carts, nextMovie: int, nextShowtime: int, movieId: int)
    requires Invariant(movies, movieOrder, showtimes, showtimeOrder, seats, booked, meta, carts, nextMovie, nextShowtime)
    ensures var gone := ShowtimesOfMovie(showtimes, movieId);
      var kept := showtimes.Keys - gone;
      Invariant(movies - {movieId}, Drop(movieOrder, {movieId}),
                Restrict(showtimes, kept), Drop(showtimeOrder, gone),
                Restrict(seats, kept), Restrict(booked, kept), Restrict(meta, kept),
                carts, nextMovie, nextShowtime)
  {
    var kept := showtimes.Keys - ShowtimesOfMovie(showtimes, movieId);
    DropKeeps(movieOrder, {movieId});
    DropKeeps(showtimeOrder, ShowtimesOfMovie(showtimes, movieId));
    RestrictPreserves(seats, carts, kept);
    StoredAfterRestrict(showtimes, seats, booked, meta, nextShowtime, kept);
  }

  /** save_showtime of a fresh id keeps the invariant. */
  lemma SaveShowtimeKeepsInvariant(movies: map<int, Movie>, movieOrder: seq<int>,
                                   showtimes: map<int, Showtime>, showtimeOrder: seq<int>,
                                   seats: SeatMaps, booked: map<int, set<string>>, meta: map<int, Meta>,
                                   carts: Carts, nextMovie: int, nextShowtime: int, st: Showtime)
    requires Invariant(movies, movieOrder, showtimes, showtimeOrder, seats, booked, meta, carts, nextMovie, nextShowtime)
    requires ShowtimeValid(st) && st.id !in showtimes && st.id < nextShowtime
    requires forall u, i :: u in carts && 0 <= i < |carts[u]| ==> carts[u][i].showtimeId != st.id
    ensures Invariant(movies, movieOrder, showtimes[st.id := st], showtimeOrder + [st.id],
                      seats[st.id := InitialSeatMap(st.rows, st.cols, MetaFor(st).disabled)],
                      booked[st.id := {}], meta[st.id := MetaFor(st)], carts, nextMovie, nextShowtime)
  {
    var m := InitialSeatMap(st.rows, st.cols, MetaFor(st).disabled);
    AddMapPreserves(seats, carts, st.id, m);
    StoredAfterAdd(showtimes, seats, booked, meta, nextShowtime, st);
    OrderAppend(showtimeOrder, showtimes.Keys, st.id);
  }

  /** add_to_cart keeps the invariant. */
  lemma ReserveKeepsInvariant(movies: map<int, Movie>, movieOrder: seq<int>,
                              showtimes: map<int, Showtime>, showtimeOrder: seq<int>,
                              seats: SeatMaps, booked: map<int, set<string>>, meta: map<int, Meta>,
                              carts: Carts, nextMovie: int, nextShowtime: int, u: string, line: CartLine)
    requires Invariant(movies, movieOrder, showtimes, showtimeOrder, seats, booked, meta, carts, nextMovie, nextShowtime)
    requires line.showtimeId in seats
    requires forall s :: s in line.seats ==> Reservable(seats[line.showtimeId], s)
    ensures Invariant(movies, movieOrder, showtimes, showtimeOrder,
                      seats[line.showtimeId := Mark(seats[line.showtimeId], line.seats, Reserved)], booked, meta,
                      carts[u := CartOf(carts, u) + [line]], nextMovie, nextShowtime)
  {
    var after := seats[line.showtimeId := Mark(seats[line.showtimeId], line.seats, Reserved)];
    ReservePreserves(seats, carts, u, line);
    StoredAfterEvolve(showtimes, seats, after, booked, meta, nextShowtime);
    var items := CartOf(carts, u) + [line];
    forall i | 0 <= i < |items| ensures items[i].showtimeId < nextShowtime {
      if i < |items| - 1 {
        assert items[i] == CartOf(carts, u)[i];
      }
    }
    IssuedAfterSet(carts, u, items, nextShowtime);
  }

  /** remove_from_cart keeps the invariant. */
  lemma ReleaseKeepsInvariant(movies: map<int, Movie>, movieOrder: seq<int>,
                              showtimes: map<int, Showtime>, showtimeOrder: seq<int>,
                              seats: SeatMaps, booked: map<int, set<string>>, meta: map<int, Meta>,
                              carts: Carts, nextMovie: int, nextShowtime: int, u: string,
                              cartItemId: Option<string>, req: Option<seq<string>>)
    requires Invariant(movies, movieOrder, showtimes, showtimeOrder, seats, booked, meta, carts, nextMovie, nextShowtime)
    requires u in carts && WritesLive(seats.Keys, Releases(carts[u], cartItemId, req))
    ensures Invariant(movies, movieOrder, showtimes, showtimeOrder,
                      MarkLines(seats, Releases(carts[u], cartItemId, req), Available), booked, meta,
                      carts[u := Remaining(carts[u], cartItemId, req)], nextMovie, nextShowtime)
  {
    var items := carts[u];
    ReleasePreserves(seats, carts, u, cartItemId, req);
    var after := MarkLines(seats, Releases(items, cartItemId, req), Available);
    StoredAfterEvolve(showtimes, seats, after, booked, meta, nextShowtime);
    RemainingIssued(carts, u, cartItemId, req, nextShowtime);
  }

  /** Writing a cart whose lines name issued showtimes keeps every cart issued. */
  lemma IssuedAfterSet(carts: Carts, u: string, items: seq<CartLine>, next: int)
    requires CartsIssued(carts, next)
    requires forall i :: 0 <= i < |items| ==> items[i].showtimeId < next
    ensures CartsIssued(carts[u := items], next)
  {
  }

  /** The lines left by a removal name showtimes the cart already named. */
  lemma RemainingIssued(carts: Carts, u: string, cartItemId: Option<string>, req: Option<seq<string>>, next: int)
    requires CartsIssued(carts, next) && u in carts
    ensures CartsIssued(carts[u := Remaining(carts[u], cartItemId, req)], next)
  {
    var items := carts[u];
    var rest := Remaining(items, cartItemId, req);
    RemainingComesFromCart(items, cartItemId, req);
    forall i | 0 <= i < |rest| ensures rest[i].showtimeId < next {
      assert rest[i] in rest;
      var o :| o in items && o.id == rest[i].id && o.showtimeId == rest[i].showtimeId
        && Subsequence(rest[i].seats, o.seats);
      var k :| 0 <= k < |items| && items[k] == o;
    }
    IssuedAfterSet(carts, u, rest, next);
  }

  /** checkout keeps the invariant. */
  lemma BookKeepsInvariant(movies: map<int, Movie>, movieOrder: seq<int>,
                           showtimes: map<int, Showtime>, showtimeOrder: seq<int>,
                           seats: SeatMaps, booked: map<int, set<string>>, meta: map<int, Meta>,
                           carts: Carts, nextMovie: int, nextShowtime: int, u: string)
    requires Invariant(movies, movieOrder, showtimes, showtimeOrder, seats, booked, meta, carts, nextMovie, nextShowtime)
    requires u in carts && LinesLive(seats.Keys, carts[u])
    ensures Invariant(movies, movieOrder, showtimes, showtimeOrder,
                      MarkLines(seats, carts[u], Booked), booked, meta, carts[u := []], nextMovie, nextShowtime)
  {
    LiveWrites(seats.Keys, carts[u]);
    BookPreserves(seats, carts, u);
    StoredAfterEvolve(showtimes, seats, MarkLines(seats, carts[u], Booked), booked, meta, nextShowtime);
  }

  lemma OrderAppend(order: seq<int>, keys: set<int>, k: int)
    requires OrderOf(order, keys) && k !in keys
    ensures OrderOf(order + [k], keys + {k})
  {
    assert Elements(order + [k]) == Elements(order) + {k};
  }

  /** The loop of delete_movie over a snapshot of `_showtimes`: every
      showtime of the movie is popped from the four per-showtime
      dictionaries and from the key order; nothing else is. */
  method CascadeDelete(showtimes0: map<int, Showtime>, seats0: SeatMaps, booked0: map<int, set<string>>,
                       meta0: map<int, Meta>, order0: seq<int>, movieId: int)
    returns (showtimes: map<int, Showtime>, seats: SeatMaps, booked: map<int, set<string>>,
             meta: map<int, Meta>, order: seq<int>)
    requires OrderOf(order0, showtimes0.Keys)
    requires seats0.Keys == showtimes0.Keys && booked0.Keys == showtimes0.Keys && meta0.Keys == showtimes0.Keys
    ensures var kept := showtimes0.Keys - ShowtimesOfMovie(showtimes0, movieId);
      && showtimes == Restrict(showtimes0, kept)
      && seats == Restrict(seats0, kept)
      && booked == Restrict(booked0, kept)
      && meta == Restrict(meta0, kept)
    ensures order == Drop(order0, ShowtimesOfMovie(showtimes0, movieId))
  {
    showtimes, seats, booked, meta, order := showtimes0, seats0, booked0, meta0, order0;
    var snapshot := order0;
    CascadeStart(showtimes0, seats0, booked0, meta0, snapshot, movieId);
    var i := 0;
    while i < |snapshot|
      invariant 0 <= i <= |snapshot|
      invariant Cascaded(showtimes0, seats0, booked0, meta0, snapshot, movieId, i,
                         showtimes, seats, booked, meta, order)
    {
      var sid := snapshot[i];
      CascadeStep(showtimes0, seats0, booked0, meta0, snapshot, movieId, i, showtimes, seats, booked, meta, order);
      if showtimes0[sid].movieId == movieId {
        showtimes := showtimes - {sid};
        seats := seats - {sid};
        booked := booked - {sid};
        meta := meta - {sid};
        order := Drop(order, {sid});
      }
      i := i + 1;
    }
    CascadeDone(showtimes0, seats0, booked0, meta0, snapshot, movieId, showtimes, seats, booked, meta, order);
  }

  /** The seat map of save_showtime: every grid code available, then each
      disabled code that is on the grid blocked. */
  method InitialMap(st: Showtime) returns (seatMap: SeatMap)
    requires ShowtimeValid(st)
    ensures seatMap == InitialSeatMap(st.rows, st.cols, MetaFor(st).disabled)
  {
    var codes := SeatCodes(st.rows, st.cols);
    seatMap := map code | code in codes :: Available;
    var disabled := Elements(OrEmpty(st.disabledSeats));
    var todo := disabled;
    while todo != {}
      invariant todo <= disabled
      invariant seatMap.Keys == Elements(codes)
      invariant forall c :: c in seatMap ==> seatMap[c] == if c in disabled - todo then Blocked else Available
      decreases todo
    {
      var code :| code in todo;
      if code in seatMap {
        seatMap := seatMap[code := Blocked];
      }
      todo := todo - {code};
    }
  }

}
