/**
 * The operations of crud.py on the store. Each raises an `HTTPException`
 * in the source; here it returns `Err` and leaves the store as it was.
 * The loops over seat lists and cart lines are methods over values, each
 * proved equal to the function that specifies it; the store operations
 * run them on the store's current dictionaries and write the results
 * back, as the source writes into the stored dictionaries in place.
 */
module Crud {
  import opened Common
  import opened Errors
  import opened Schemas
  import opened Utils
  import opened SeatInventory
  import opened CartRules
  import opened Consistency
  import opened Storage
  import opened MemoryStore

  // ---------------------------------------------------------------------
  // The loops, over values
  // ---------------------------------------------------------------------

  /** Gives every listed seat the status, one seat after another. */
  method MarkSeats(m: SeatMap, ss: seq<string>, status: SeatStatus) returns (r: SeatMap)
    ensures r == Mark(m, ss, status)
  {
    r := m;
    var i := 0;
    while i < |ss|
      invariant 0 <= i <= |ss|
      invariant Mark(r, ss[i..], status) == Mark(m, ss, status)
    {
      assert ss[i..][1..] == ss[i + 1..];
      r := r[ss[i] := status];
      i := i + 1;
    }
  }

  /** Makes available again the seats of a line that the request names. */
  method ReleaseRequested(m: SeatMap, ss: seq<string>, req: seq<string>) returns (r: SeatMap)
    ensures r == Mark(m, Requested(ss, req), Available)
  {
    r := m;
    var i := 0;
    while i < |ss|
      invariant 0 <= i <= |ss|
      invariant Mark(r, Requested(ss[i..], req), Available) == Mark(m, Requested(ss, req), Available)
    {
      assert ss[i..][1..] == ss[i + 1..];
      var rest := Requested(ss[i + 1..], req);
      if ss[i] in req {
        assert Requested(ss[i..], req) == [ss[i]] + rest;
        assert ([ss[i]] + rest)[1..] == rest;
        r := r[ss[i] := Available];
      } else {
        assert Requested(ss[i..], req) == [] + rest == rest;
      }
      i := i + 1;
    }
  }

  /** MarkLines takes one line at a time. */
  lemma MarkLinesStep(seats: SeatMaps, lines: seq<CartLine>, i: int, status: SeatStatus)
    requires 0 <= i < |lines| && WritesLive(seats.Keys, lines[i..])
    ensures WritesLive(seats.Keys, lines[i + 1..])
    ensures var l := lines[i];
      MarkLines(seats, lines[i..], status)
      == MarkLines(if l.showtimeId in seats then seats[l.showtimeId := Mark(seats[l.showtimeId], l.seats, status)]
                   else seats, lines[i + 1..], status)
  {
    assert lines[i..][0] == lines[i] && lines[i..][1..] == lines[i + 1..];
  }

  /** Marking no seats changes nothing. */
  lemma MarkNothing(seats: SeatMaps, id: int, status: SeatStatus)
    requires id in seats
    ensures seats[id := Mark(seats[id], [], status)] == seats
  {
  }

  /** One pass of remove_from_cart's loop: the line's released seats become
      available, and what is kept of the line is returned. The seat map of
      a deleted showtime is missing; the pass writes into it only when it
      releases a seat, so only then must the showtime be live. */
  method ReleaseLine(seats: SeatMaps, l: CartLine, cartItemId: Option<string>, req: Option<seq<string>>)
    returns (seats': SeatMaps, kept: seq<CartLine>, touched: bool)
    requires ReleasedSeats(l, cartItemId, req) != [] ==> l.showtimeId in seats
    ensures seats' == if l.showtimeId in seats
      then seats[l.showtimeId := Mark(seats[l.showtimeId], ReleasedSeats(l, cartItemId, req), Available)]
      else seats
    ensures kept == RemainderOf(l, cartItemId, req)
    ensures touched == Touched(l, cartItemId, req)
  {
    var stid := l.showtimeId;
    seats', kept, touched := seats, [l], false;
    if IdMatches(cartItemId, l.id) {
      if stid in seats {
        var m := MarkSeats(seats[stid], l.seats, Available);
        seats' := seats[stid := m];
      }
      kept, touched := [], true;
    } else if SeatsGiven(req) {
      var keep := Keep(l.seats, req.value);
      if |keep| != |l.seats| {
        KeepShorterIffRequested(l.seats, req.value);
        var s :| s in l.seats && s in req.value;
        assert s in ReleasedSeats(l, cartItemId, req);
        var m := ReleaseRequested(seats[stid], l.seats, req.value);
        seats', kept, touched := seats[stid := m], [], true;
        if keep != [] {
          kept := [CartLine(l.id, stid, keep)];
        }
      } else if stid in seats {
        MarkNothing(seats, stid, Available);
      }
    } else if stid in seats {
      MarkNothing(seats, stid, Available);
    }
  }

  /** What remove_from_cart's loop has done after the first i lines. */
  ghost predicate Released(seats0: SeatMaps, items: seq<CartLine>, cartItemId: Option<string>,
                           req: Option<seq<string>>, i: int,
                           seats: SeatMaps, newItems: seq<CartLine>, changed: bool)
  {
    var rels := Releases(items, cartItemId, req);
    && 0 <= i <= |items|
    && WritesLive(seats0.Keys, rels)
    && seats.Keys == seats0.Keys && WritesLive(seats.Keys, rels[i..])
    && MarkLines(seats, rels[i..], Available) == MarkLines(seats0, rels, Available)
    && newItems + Remaining(items[i..], cartItemId, req) == Remaining(items, cartItemId, req)
    && (changed <==> exists j :: 0 <= j < i && Touched(items[j], cartItemId, req))
  }

  lemma ReleasedStart(seats0: SeatMaps, items: seq<CartLine>, cartItemId: Option<string>, req: Option<seq<string>>)
    requires WritesLive(seats0.Keys, Releases(items, cartItemId, req))
    ensures Released(seats0, items, cartItemId, req, 0, seats0, [], false)
  {
    var rels := Releases(items, cartItemId, req);
    assert rels[0..] == rels && items[0..] == items;
  }

  lemma ReleasedStep(seats0: SeatMaps, items: seq<CartLine>, cartItemId: Option<string>, req: Option<seq<string>>,
                     i: int, seats: SeatMaps, newItems: seq<CartLine>, changed: bool)
    requires Released(seats0, items, cartItemId, req, i, seats, newItems, changed) && i < |items|
    ensures ReleasedSeats(items[i], cartItemId, req) != [] ==> items[i].showtimeId in seats
    ensures var l := items[i];
      Released(seats0, items, cartItemId, req, i + 1,
               if l.showtimeId in seats
               then seats[l.showtimeId := Mark(seats[l.showtimeId], ReleasedSeats(l, cartItemId, req), Available)]
               else seats,
               newItems + RemainderOf(l, cartItemId, req), changed || Touched(l, cartItemId, req))
  {
    var rels := Releases(items, cartItemId, req);
    var l := items[i];
    assert items[i..][0] == l && items[i..][1..] == items[i + 1..];
    assert rels[i].seats == ReleasedSeats(l, cartItemId, req) && rels[i].showtimeId == l.showtimeId;
    MarkLinesStep(seats, rels, i, Available);
    var kept := RemainderOf(l, cartItemId, req);
    var rest := Remaining(items[i + 1..], cartItemId, req);
    assert Remaining(items[i..], cartItemId, req) == kept + rest;
    assert newItems + (kept + rest) == (newItems + kept) + rest;
    var changed' := changed || Touched(l, cartItemId, req);
    assert changed' <==> exists j :: 0 <= j < i + 1 && Touched(items[j], cartItemId, req) by {
      if changed' && !changed {
        assert Touched(items[i], cartItemId, req);
      }
    }
  }

  lemma ReleasedDone(seats0: SeatMaps, items: seq<CartLine>, cartItemId: Option<string>, req: Option<seq<string>>,
                     seats: SeatMaps, newItems: seq<CartLine>, changed: bool)
    requires Released(seats0, items, cartItemId, req, |items|, seats, newItems, changed)
    ensures WritesLive(seats0.Keys, Releases(items, cartItemId, req))
    ensures seats == MarkLines(seats0, Releases(items, cartItemId, req), Available)
    ensures newItems == Remaining(items, cartItemId, req)
    ensures changed == AnyTouched(items, cartItemId, req)
  {
    var rels := Releases(items, cartItemId, req);
    assert rels[|items|..] == [] && items[|items|..] == [];
    if AnyTouched(items, cartItemId, req) {
      var l :| l in items && Touched(l, cartItemId, req);
      var j :| 0 <= j < |items| && items[j] == l;
    }
  }

  /** The loop of remove_from_cart over the user's lines. */
  method ReleaseLines(seats0: SeatMaps, items: seq<CartLine>, cartItemId: Option<string>, req: Option<seq<string>>)
    returns (seats: SeatMaps, newItems: seq<CartLine>, changed: bool)
    requires WritesLive(seats0.Keys, Releases(items, cartItemId, req))
    ensures seats == MarkLines(seats0, Releases(items, cartItemId, req), Available)
    ensures newItems == Remaining(items, cartItemId, req)
    ensures changed == AnyTouched(items, cartItemId, req)
  {
    seats, newItems, changed := seats0, [], false;
    ReleasedStart(seats0, items, cartItemId, req);
    var i := 0;
    while i < |items|
      invariant Released(seats0, items, cartItemId, req, i, seats, newItems, changed)
    {
      ReleasedStep(seats0, items, cartItemId, req, i, seats, newItems, changed);
      var kept, touched;
      seats, kept, touched := ReleaseLine(seats, items[i], cartItemId, req);
      newItems := newItems + kept;
      changed := changed || touched;
      i := i + 1;
    }
    ReleasedDone(seats0, items, cartItemId, req, seats, newItems, changed);
  }

  /** The seat of one line that checkout's check trips over. */
  method FindUnreserved(m: SeatMap, ss: seq<string>) returns (r: Option<string>)
    ensures r == UnreservedIn(m, ss)
  {
    var i := 0;
    while i < |ss|
      invariant 0 <= i <= |ss|
      invariant UnreservedIn(m, ss[i..]) == UnreservedIn(m, ss)
    {
      assert ss[i..][0] == ss[i] && ss[i..][1..] == ss[i + 1..];
      if !IsReservedIn(m, ss[i]) {
        return Some(ss[i]);
      }
      i := i + 1;
    }
    assert ss[i..] == [];
    return None;
  }

  /** What checkout's first loop has done after the first i lines: they
      passed the check, and they are priced and added up. */
  ghost predicate Priced(showtimes: map<int, Showtime>, seats: SeatMaps, items: seq<CartLine>, i: int,
                         enriched: seq<CartItem>, total: real)
  {
    && 0 <= i <= |items|
    && LinesLive(showtimes.Keys, items) && LinesLive(seats.Keys, items)
    && LinesLive(showtimes.Keys, items[i..]) && LinesLive(seats.Keys, items[i..])
    && FirstUnreserved(seats, items[i..]) == FirstUnreserved(seats, items)
    && total + CartTotal(showtimes, items[i..]) == CartTotal(showtimes, items)
    && enriched == CartItems(showtimes, items)[..i]
  }

  lemma PricedStart(showtimes: map<int, Showtime>, seats: SeatMaps, items: seq<CartLine>)
    requires LinesLive(showtimes.Keys, items) && LinesLive(seats.Keys, items)
    ensures Priced(showtimes, seats, items, 0, [], 0.0)
  {
    assert items[0..] == items;
  }

  /** A line that fails the check decides the error. */
  lemma PricedStop(showtimes: map<int, Showtime>, seats: SeatMaps, items: seq<CartLine>, i: int,
                   enriched: seq<CartItem>, total: real)
    requires Priced(showtimes, seats, items, i, enriched, total) && i < |items|
    ensures items[i].showtimeId in seats && items[i].showtimeId in showtimes
    ensures UnreservedIn(seats[items[i].showtimeId], items[i].seats).Some? ==>
      FirstUnreserved(seats, items) == UnreservedIn(seats[items[i].showtimeId], items[i].seats)
  {
    assert items[i..][0] == items[i];
  }

  /** A line that passes the check is priced and added. */
  lemma PricedStep(showtimes: map<int, Showtime>, seats: SeatMaps, items: seq<CartLine>, i: int,
                   enriched: seq<CartItem>, total: real)
    requires Priced(showtimes, seats, items, i, enriched, total) && i < |items|
    requires UnreservedIn(seats[items[i].showtimeId], items[i].seats).None?
    ensures var l := items[i];
      var subtotal := Subtotal(showtimes[l.showtimeId].price, l);
      Priced(showtimes, seats, items, i + 1, enriched + [CartItem(l.id, l.showtimeId, l.seats, subtotal)],
             total + subtotal)
  {
    assert items[i..][0] == items[i] && items[i..][1..] == items[i + 1..];
    var all := CartItems(showtimes, items);
    assert all[..i + 1] == all[..i] + [all[i]];
  }

  lemma PricedDone(showtimes: map<int, Showtime>, seats: SeatMaps, items: seq<CartLine>,
                   enriched: seq<CartItem>, total: real)
    requires Priced(showtimes, seats, items, |items|, enriched, total)
    ensures FirstUnreserved(seats, items).None?
    ensures enriched == CartItems(showtimes, items) && total == CartTotal(showtimes, items)
  {
    assert items[|items|..] == [];
    assert CartItems(showtimes, items)[..|items|] == CartItems(showtimes, items);
  }

  /** The first loop of checkout: check every seat line by line, price each
      line and add up the total. */
  method PriceCart(showtimes: map<int, Showtime>, seats: SeatMaps, items: seq<CartLine>)
    returns (r: Result<(seq<CartItem>, real), Error>)
    requires LinesLive(showtimes.Keys, items) && LinesLive(seats.Keys, items)
    ensures FirstUnreserved(seats, items).Some? ==> r == Err(SeatNotReserved(FirstUnreserved(seats, items).value))
    ensures FirstUnreserved(seats, items).None? ==> r == Ok((CartItems(showtimes, items), CartTotal(showtimes, items)))
  {
    var enriched: seq<CartItem> := [];
    var total := 0.0;
    PricedStart(showtimes, seats, items);
    var i := 0;
    while i < |items|
      invariant Priced(showtimes, seats, items, i, enriched, total)
    {
      var l := items[i];
      PricedStop(showtimes, seats, items, i, enriched, total);
      var bad := FindUnreserved(seats[l.showtimeId], l.seats);
      if bad.Some? {
        return Err(SeatNotReserved(bad.value));
      }
      PricedStep(showtimes, seats, items, i, enriched, total);
      var subtotal := Subtotal(showtimes[l.showtimeId].price, l);
      total := total + subtotal;
      enriched := enriched + [CartItem(l.id, l.showtimeId, l.seats, subtotal)];
      i := i + 1;
    }
    PricedDone(showtimes, seats, items, enriched, total);
    return Ok((enriched, total));
  }

  /** The loop of get_cart_summary. */
  method Summarize(showtimes: map<int, Showtime>, items: seq<CartLine>) returns (enriched: seq<CartItem>, total: real)
    requires LinesLive(showtimes.Keys, items)
    ensures enriched == CartItems(showtimes, items)
    ensures total == CartTotal(showtimes, items) == SumSubtotals(enriched)
    ensures PricesNonNegative(showtimes) ==> total >= 0.0
  {
    enriched, total := [], 0.0;
    var i := 0;
    while i < |items|
      invariant 0 <= i <= |items|
      invariant LinesLive(showtimes.Keys, items[i..])
      invariant total + CartTotal(showtimes, items[i..]) == CartTotal(showtimes, items)
      invariant enriched == CartItems(showtimes, items)[..i]
    {
      var l := items[i];
      assert items[i..][0] == l && items[i..][1..] == items[i + 1..];
      var subtotal := Subtotal(showtimes[l.showtimeId].price, l);
      total := total + subtotal;
      enriched := enriched + [CartItem(l.id, l.showtimeId, l.seats, subtotal)];
      assert CartItems(showtimes, items)[..i + 1] == CartItems(showtimes, items)[..i] + [CartItems(showtimes, items)[i]];
      i := i + 1;
    }
    assert items[i..] == [];
    assert CartItems(showtimes, items)[..i] == CartItems(showtimes, items);
    CartTotalIsSumOfItems(showtimes, items);
  }

  /** The finalising loop of checkout: every seat of every line booked. */
  method BookLines(seats0: SeatMaps, items: seq<CartLine>) returns (seats: SeatMaps)
    requires LinesLive(seats0.Keys, items)
    ensures seats == MarkLines(seats0, items, Booked)
  {
    seats := seats0;
    var i := 0;
    assert items[0..] == items;
    while i < |items|
      invariant 0 <= i <= |items|
      invariant seats.Keys == seats0.Keys && LinesLive(seats.Keys, items[i..])
      invariant MarkLines(seats, items[i..], Booked) == MarkLines(seats0, items, Booked)
    {
      var l := items[i];
      LiveWrites(seats.Keys, items[i..]);
      MarkLinesStep(seats, items, i, Booked);
      var m := MarkSeats(seats[l.showtimeId], l.seats, Booked);
      seats := seats[l.showtimeId := m];
      i := i + 1;
    }
    assert items[i..] == [];
  }

  /** One pass of the inner layout loop: the cells built so far, then the rest of the row from column c. */
  lemma RowStep(cells: seq<SeatCell>, m: SeatMap, vip: set<string>, disabled: set<string>, r: int, c: int, cols: int)
    requires 1 <= r <= 26 && c <= cols
    ensures cells + LayoutRow(m, vip, disabled, r, c, cols)
      == (cells + ColumnCells(m, vip, disabled, r, c)) + LayoutRow(m, vip, disabled, r, c + 1, cols)
  {
    assert LayoutRow(m, vip, disabled, r, c, cols)
      == ColumnCells(m, vip, disabled, r, c) + LayoutRow(m, vip, disabled, r, c + 1, cols);
  }

  /** The inner loop of get_seat_layout: the cells of row r. */
  method BuildRow(m: SeatMap, vip: set<string>, disabled: set<string>, r: int, cols: int)
    returns (cells: seq<SeatCell>)
    requires 1 <= r <= 26
    ensures cells == LayoutRow(m, vip, disabled, r, 1, cols)
  {
    cells := [];
    var c := 1;
    while c <= cols
      invariant 1 <= c <= if cols >= 1 then cols + 1 else 1
      invariant cells + LayoutRow(m, vip, disabled, r, c, cols) == LayoutRow(m, vip, disabled, r, 1, cols)
    {
      var code := CodeFromRowCol(r, c);
      RowStep(cells, m, vip, disabled, r, c, cols);
      ghost var before := cells;
      if code in m {
        cells := cells + [SeatCell(r, c, code, m[code], SeatTypeFor(code, vip, disabled))];
      }
      assert cells == before + ColumnCells(m, vip, disabled, r, c);
      c := c + 1;
    }
    assert cells + [] == cells;
  }

  /** The outer loop of get_seat_layout: one row after another. */
  method BuildGrid(m: SeatMap, vip: set<string>, disabled: set<string>, rows: int, cols: int)
    returns (grid: seq<seq<SeatCell>>)
    requires rows <= 26
    ensures grid == LayoutGrid(m, vip, disabled, rows, cols)
  {
    grid := [];
    var r := 1;
    while r <= rows
      invariant 1 <= r <= if rows >= 1 then rows + 1 else 1
      invariant |grid| == r - 1
      invariant forall i :: 0 <= i < r - 1 ==> grid[i] == LayoutRow(m, vip, disabled, i + 1, 1, cols)
    {
      var cells := BuildRow(m, vip, disabled, r, cols);
      grid := grid + [cells];
      r := r + 1;
    }
    assert |grid| == |LayoutGrid(m, vip, disabled, rows, cols)|;
  }

  // ---------------------------------------------------------------------
  // Movies and showtimes
  // ---------------------------------------------------------------------

  /** create_movie: the next id, stored. */
  method CreateMovie(store: Store, data: MovieCreate) returns (m: Movie)
    requires store.Valid() && MovieCreateValid(data)
    modifies store`movies, store`movieOrder, store`nextMovie
    ensures store.Valid()
    ensures m == NewMovie(old(store.nextMovie), data) && m.id !in old(store.movies)
    ensures store.movies == old(store.movies)[m.id := m] && store.movieOrder == old(store.movieOrder) + [m.id]
    ensures store.nextMovie == old(store.nextMovie) + 1
  {
    var id := store.NextMovieId();
    m := NewMovie(id, data);
    store.SaveMovie(m);
  }

  /** update_movie: a missing movie is a 404; otherwise the supplied fields
      overwrite and the movie keeps its id. */
  method UpdateMovie(store: Store, movieId: int, data: MovieUpdate) returns (r: Result<Movie, Error>)
    requires store.Valid() && MovieUpdateValid(data)
    modifies store`movies, store`movieOrder
    ensures store.Valid()
    ensures movieId !in old(store.movies) ==> r == Err(MovieNotFound) && unchanged(store)
    ensures movieId in old(store.movies) ==>
      && r == Ok(ApplyUpdate(old(store.movies)[movieId], data))
      && store.movies == old(store.movies)[movieId := r.value]
      && store.movieOrder == old(store.movieOrder)
  {
    var found := store.GetMovie(movieId);
    if found.None? {
      return Err(MovieNotFound);
    }
    var updated := ApplyUpdate(found.value, data);
    ApplyUpdateProperties(found.value, data);
    store.SaveMovie(updated);
    return Ok(updated);
  }

  /** delete_movie: a missing movie is a 404; otherwise the storage cascade. */
  method DeleteMovie(store: Store, movieId: int) returns (r: Result<(), Error>)
    requires store.Valid()
    modifies store`movies, store`movieOrder, store`showtimes, store`showtimeOrder, store`seats, store`booked,
             store`meta
    ensures store.Valid()
    ensures r.Err? <==> movieId !in old(store.movies)
    ensures r.Err? ==> r.error == MovieNotFound && unchanged(store)
    ensures r.Ok? ==>
      var gone := ShowtimesOfMovie(old(store.showtimes), movieId);
      var kept := old(store.showtimes).Keys - gone;
      && store.movies == old(store.movies) - {movieId}
      && store.movieOrder == Drop(old(store.movieOrder), {movieId})
      && store.showtimes == Restrict(old(store.showtimes), kept)
      && store.showtimeOrder == Drop(old(store.showtimeOrder), gone)
      && store.seats == Restrict(old(store.seats), kept)
      && store.booked == Restrict(old(store.booked), kept)
      && store.meta == Restrict(old(store.meta), kept)
  {
    var found := store.DeleteMovie(movieId);
    if !found {
      return Err(MovieNotFound);
    }
    return Ok(());
  }

  /** create_showtime: a missing movie is a 404; otherwise the next id,
      stored with a fresh seat map. */
  method CreateShowtime(store: Store, movieId: int, data: ShowtimeCreate) returns (r: Result<Showtime, Error>)
    requires store.Valid() && ShowtimeCreateValid(data)
    modifies store`showtimes, store`showtimeOrder, store`seats, store`booked, store`meta, store`nextShowtime
    ensures store.Valid()
    ensures movieId !in old(store.movies) ==> r == Err(MovieNotFound) && unchanged(store)
    ensures movieId in old(store.movies) ==>
      && r == Ok(NewShowtime(old(store.nextShowtime), movieId, data))
      && r.value.id !in old(store.showtimes)
      && store.nextShowtime == old(store.nextShowtime) + 1
      && store.showtimes == old(store.showtimes)[r.value.id := r.value]
      && store.showtimeOrder == old(store.showtimeOrder) + [r.value.id]
      && store.seats == old(store.seats)[r.value.id := InitialSeatMap(data.rows, data.cols, MetaFor(r.value).disabled)]
      && store.booked == old(store.booked)[r.value.id := {}]
      && store.meta == old(store.meta)[r.value.id := MetaFor(r.value)]
  {
    var found := store.GetMovie(movieId);
    if found.None? {
      return Err(MovieNotFound);
    }
    var id := store.NextShowtimeId();
    var st := NewShowtime(id, movieId, data);
    store.SaveShowtime(st);
    return Ok(st);
  }

  // ---------------------------------------------------------------------
  // Seats and layout
  // ---------------------------------------------------------------------

  /** get_seats_status: the stored seat map, which covers exactly the
      showtime's grid and is blocked exactly at its disabled seats. */
  function GetSeatsStatus(store: Store, showtimeId: int): (r: Result<SeatMap, Error>)
    reads store
    ensures r.Err? <==> showtimeId !in store.seats
    ensures r.Err? ==> r.error == ShowtimeNotFound
    ensures store.Valid() && r.Ok? ==>
      var st := store.showtimes[showtimeId];
      && r.value.Keys == Elements(SeatCodes(st.rows, st.cols))
      && forall s :: s in r.value ==> (r.value[s] == Blocked <==> s in store.meta[showtimeId].disabled)
  {
    if showtimeId in store.seats then Ok(store.seats[showtimeId]) else Err(ShowtimeNotFound)
  }

  /** get_seat_layout: a full rows x cols grid whose cell [r - 1][c - 1] is
      seat (r, c) with its current status and its seat type. */
  method GetSeatLayout(store: Store, showtimeId: int) returns (r: Result<SeatLayout, Error>)
    requires store.Valid()
    ensures r.Err? <==> showtimeId !in store.showtimes
    ensures r.Err? ==> r.error == ShowtimeNotFound
    ensures r.Ok? ==>
      var st := store.showtimes[showtimeId];
      var m, meta := store.seats[showtimeId], store.meta[showtimeId];
      && r.value == SeatLayout(showtimeId, st.rows, st.cols, st.screenSide, meta.aisles,
                               LayoutGrid(m, meta.vip, meta.disabled, st.rows, st.cols))
      && |r.value.grid| == st.rows
      && (forall i :: 0 <= i < st.rows ==> |r.value.grid[i]| == st.cols)
      && (forall i, j :: 0 <= i < st.rows && 0 <= j < st.cols ==>
            && r.value.grid[i][j].code == CodeFromRowCol(i + 1, j + 1)
            && CodeFromRowCol(i + 1, j + 1) in m
            && r.value.grid[i][j].status == m[CodeFromRowCol(i + 1, j + 1)]
            && r.value.grid[i][j].seatType == SeatTypeFor(CodeFromRowCol(i + 1, j + 1), meta.vip, meta.disabled))
  {
    if showtimeId !in store.showtimes || showtimeId !in store.seats || showtimeId !in store.meta {
      return Err(ShowtimeNotFound);
    }
    var st, m, meta := store.showtimes[showtimeId], store.seats[showtimeId], store.meta[showtimeId];
    StoredLayoutInputs(store, showtimeId);
    var grid := BuildGrid(m, meta.vip, meta.disabled, st.rows, st.cols);
    LayoutOfCompleteMap(m, meta.vip, meta.disabled, st.rows, st.cols);
    return Ok(SeatLayout(showtimeId, st.rows, st.cols, st.screenSide, meta.aisles, grid));
  }

  /** A stored showtime has a valid grid and a seat map over all of it. */
  lemma StoredLayoutInputs(store: Store, showtimeId: int)
    requires store.Valid() && showtimeId in store.showtimes
    ensures showtimeId in store.seats && showtimeId in store.meta
    ensures var st := store.showtimes[showtimeId];
      && ShowtimeValid(st)
      && store.seats[showtimeId].Keys == Elements(SeatCodes(st.rows, st.cols))
  {
  }

  // ---------------------------------------------------------------------
  // Cart and checkout
  // ---------------------------------------------------------------------

  /** add_to_cart: a missing showtime is a 404; the first requested seat
      that is missing or not available is a 400 and nothing changes;
      otherwise every requested seat is reserved, one line goes at the end
      of the user's cart, and the subtotal counts every requested seat. */
  method AddToCart(store: Store, user: string, showtimeId: int, ss: seq<string>, token: string)
    returns (r: Result<(string, real), Error>)
    requires store.Valid()
    modifies store`seats, store`carts
    ensures store.Valid()
    ensures showtimeId !in old(store.showtimes) ==> r == Err(ShowtimeNotFound) && unchanged(store)
    ensures showtimeId in old(store.showtimes) && ReservationError(old(store.seats)[showtimeId], ss).Some? ==>
      r == Err(ReservationError(old(store.seats)[showtimeId], ss).value) && unchanged(store)
    ensures showtimeId in old(store.showtimes) && ReservationError(old(store.seats)[showtimeId], ss).None? ==> r.Ok?
    ensures r.Ok? ==>
      && showtimeId in old(store.showtimes)
      && ReservationError(old(store.seats)[showtimeId], ss).None?
      && r.value == (PrefixSlice(token, 8), old(store.showtimes)[showtimeId].price * (|ss| as real))
      && store.seats == old(store.seats)[showtimeId := Mark(old(store.seats)[showtimeId], ss, Reserved)]
      && store.carts == old(store.carts)[user := old(store.GetCart(user)) + [CartLine(r.value.0, showtimeId, ss)]]
  {
    if showtimeId !in store.seats || showtimeId !in store.showtimes || showtimeId !in store.meta {
      return Err(ShowtimeNotFound);
    }
    var m := store.seats[showtimeId];
    var bad := ReservationError(m, ss);
    if bad.Some? {
      return Err(bad.value);
    }
    var subtotal := store.showtimes[showtimeId].price * (|ss| as real);
    var itemId := PrefixSlice(token, 8);
    var line := CartLine(itemId, showtimeId, ss);
    var items := store.GetCart(user);
    ReserveKeepsInvariant(store.movies, store.movieOrder, store.showtimes, store.showtimeOrder, store.seats,
                          store.booked, store.meta, store.carts, store.nextMovie, store.nextShowtime, user, line);
    m := MarkSeats(m, ss, Reserved);
    store.seats := store.seats[showtimeId := m];
    store.SetCart(user, items + [line]);
    assert unchanged(store`movies, store`movieOrder, store`showtimes, store`showtimeOrder,
                     store`booked, store`meta, store`nextMovie, store`nextShowtime);
    return Ok((itemId, subtotal));
  }

  /** When no line is touched, the release loop writes nothing. */
  lemma {:induction false} ReleaseNothing(seats: SeatMaps, items: seq<CartLine>,
                                          cartItemId: Option<string>, req: Option<seq<string>>)
    requires !AnyTouched(items, cartItemId, req)
    ensures WritesLive(seats.Keys, Releases(items, cartItemId, req))
    ensures MarkLines(seats, Releases(items, cartItemId, req), Available) == seats
    decreases |items|
  {
    if items != [] {
      var rels := Releases(items, cartItemId, req);
      assert items[0] in items && rels[0].seats == [];
      assert rels[1..] == Releases(items[1..], cartItemId, req);
      assert forall l :: l in items[1..] ==> l in items;
      ReleaseNothing(seats, items[1..], cartItemId, req);
      assert forall k :: 1 <= k < |rels| ==> rels[k] == rels[1..][k - 1];
      if items[0].showtimeId in seats {
        MarkNothing(seats, items[0].showtimeId, Available);
      }
    }
  }

  /** remove_from_cart: when no line carries the id and no line holds a
      requested seat it is a 400 and nothing changes; otherwise the matched
      and requested seats become available and the cart keeps the rest. */
  method RemoveFromCart(store: Store, user: string, cartItemId: Option<string>, req: Option<seq<string>>)
    returns (r: Result<(), Error>)
    requires store.Valid() && WritesLive(store.seats.Keys, Releases(store.GetCart(user), cartItemId, req))
    modifies store`seats, store`carts
    ensures store.Valid()
    ensures r.Err? <==> !AnyTouched(old(store.GetCart(user)), cartItemId, req)
    ensures r.Err? ==> r.error == NothingToRemove && unchanged(store)
    ensures r.Ok? ==>
      && store.seats == MarkLines(old(store.seats), Releases(old(store.GetCart(user)), cartItemId, req), Available)
      && store.carts == old(store.carts)[user := Remaining(old(store.GetCart(user)), cartItemId, req)]
  {
    var items := store.GetCart(user);
    var seats, newItems, changed := ReleaseLines(store.seats, items, cartItemId, req);
    UntouchedCartUnchanged(items, cartItemId, req);
    if !changed && |newItems| == |items| {
      ReleaseNothing(store.seats, items, cartItemId, req);
      return Err(NothingToRemove);
    }
    ReleaseKeepsInvariant(store.movies, store.movieOrder, store.showtimes, store.showtimeOrder, store.seats,
                          store.booked, store.meta, store.carts, store.nextMovie, store.nextShowtime, user,
                          cartItemId, req);
    store.seats := seats;
    store.SetCart(user, newItems);
    assert store.seats == MarkLines(old(store.seats), Releases(old(store.carts)[user], cartItemId, req), Available);
    assert store.carts == old(store.carts)[user := Remaining(old(store.carts)[user], cartItemId, req)];
    assert unchanged(store`movies, store`movieOrder, store`showtimes, store`showtimeOrder,
                     store`booked, store`meta, store`nextMovie, store`nextShowtime);
    return Ok(());
  }

  /** get_cart_summary: every line priced at its showtime's price, and the
      total is the sum of those subtotals. */
  method GetCartSummary(store: Store, user: string) returns (items: seq<CartItem>, total: real)
    requires LinesLive(store.showtimes.Keys, store.GetCart(user))
    ensures |items| == |store.GetCart(user)|
    ensures items == CartItems(store.showtimes, store.GetCart(user))
    ensures total == CartTotal(store.showtimes, store.GetCart(user)) == SumSubtotals(items)
    ensures store.Valid() ==> total >= 0.0
  {
    if store.Valid() {
      StoredPricesNonNegative(store);
    }
    items, total := Summarize(store.showtimes, store.GetCart(user));
  }

  lemma StoredPricesNonNegative(store: Store)
    requires store.Valid()
    ensures PricesNonNegative(store.showtimes)
  {
    forall id | id in store.showtimes ensures store.showtimes[id].price >= 0.0 {
      assert StoredShowtime(store.showtimes[id], store.seats[id], store.booked[id], store.meta[id]);
    }
  }

  /** The second half of checkout: every seat of the user's cart is
      booked, and the cart is emptied. */
  method BookCart(store: Store, user: string)
    requires store.Valid() && user in store.carts && LinesLive(store.seats.Keys, store.carts[user])
    modifies store`seats, store`carts
    ensures store.Valid()
    ensures store.seats == MarkLines(old(store.seats), old(store.carts)[user], Booked)
    ensures store.carts == old(store.carts)[user := []]
  {
    BookKeepsInvariant(store.movies, store.movieOrder, store.showtimes, store.showtimeOrder, store.seats,
                       store.booked, store.meta, store.carts, store.nextMovie, store.nextShowtime, user);
    var seats := BookLines(store.seats, store.carts[user]);
    store.seats := seats;
    store.SetCart(user, []);
    assert unchanged(store`movies, store`movieOrder, store`showtimes, store`showtimeOrder,
                     store`booked, store`meta, store`nextMovie, store`nextShowtime);
  }

  /** The booking code `BKG-` followed by the first ten hex digits, upper-cased. */
  function BookingCode(hexToken: string): (code: string)
    ensures |code| == 4 + |PrefixSlice(hexToken, 10)| <= 14
    ensures code[..4] == "BKG-" && code[4..] == Upper(hexToken[..|code| - 4])
  {
    "BKG-" + Upper(PrefixSlice(hexToken, 10))
  }

  /** checkout: an empty cart is a 400 and changes nothing. Any other cart
      checks out: every seat of the cart is booked, the cart is emptied,
      and the booking records the total, the promo discount and the amount
      paid. The check that every seat is still reserved (PriceCart) cannot
      fail on a store that keeps its invariant (CheckoutNeverStale), so
      its 400 is never raised here. */
  method Checkout(store: Store, user: string, promo: Option<string>, hexToken: string, timestamp: string)
    returns (r: Result<Booking, Error>)
    requires store.Valid() && LinesLive(store.seats.Keys, store.GetCart(user))
    modifies store`seats, store`carts
    ensures store.Valid()
    ensures old(store.GetCart(user)) == [] ==> r == Err(CartEmpty) && unchanged(store)
    ensures old(store.GetCart(user)) != [] ==> r.Ok?
    ensures r.Ok? ==>
      var items := old(store.GetCart(user));
      var total := CartTotal(old(store.showtimes), items);
      && items != []
      && r.value == Booking(BookingCode(hexToken), user, total, ApplyPromo(total, promo),
                            AmountPaid(total, ApplyPromo(total, promo)), CartItems(old(store.showtimes), items),
                            timestamp)
      && store.seats == MarkLines(old(store.seats), items, Booked)
      && store.carts == old(store.carts)[user := []]
  {
    var items := store.GetCart(user);
    if items == [] {
      return Err(CartEmpty);
    }
    CheckoutNeverStale(store, user, promo);
    var priced := PriceCart(store.showtimes, store.seats, items);
    var (enriched, total) := priced.value;
    var discount := ApplyPromo(total, promo);
    var paid := AmountPaid(total, discount);
    BookCart(store, user);
    var code := BookingCode(hexToken);
    return Ok(Booking(code, user, total, discount, paid, enriched, timestamp));
  }

  /** Under the invariant a non-empty cart always checks out: its seats are
      still reserved, and the amount paid is the total less the discount. */
  lemma CheckoutNeverStale(store: Store, user: string, promo: Option<string>)
    requires store.Valid() && LinesLive(store.seats.Keys, store.GetCart(user))
    ensures FirstUnreserved(store.seats, store.GetCart(user)).None?
    ensures var total := CartTotal(store.showtimes, store.GetCart(user));
      && total >= 0.0
      && AmountPaid(total, ApplyPromo(total, promo)) == total - ApplyPromo(total, promo)
  {
    CartSeatsStayReserved(store.seats, store.carts, user);
    StoredPricesNonNegative(store);
    AmountPaidOfPromo(CartTotal(store.showtimes, store.GetCart(user)), promo);
  }
}
