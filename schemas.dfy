/**
 * The records of the booking service (schemas.py): seat statuses, screen
 * sides, movies and their partial updates, showtimes with their field
 * bounds and the `day`/`time` validators, cart lines, the cart summary,
 * the checkout response and the seat layout. The two copies of schemas.py
 * in the repository are identical; this module models both.
 */
module Schemas {
  import opened Common
  import Utils

  // ---------------------------------------------------------------------
  // Enums
  // ---------------------------------------------------------------------

  /** SeatStatus: available, reserved, booked, blocked. */
  datatype SeatStatus = Available | Reserved | Booked | Blocked

  /** ScreenSide: top, bottom, left, right. */
  datatype ScreenSide = Top | Bottom | Left | Right

  // ---------------------------------------------------------------------
  // Movies
  // ---------------------------------------------------------------------

  /** MovieCreate (and MovieBase): every field but `id`. */
  datatype MovieCreate = MovieCreate(
    title: string,
    synopsis: Option<string>,
    durationMin: int,
    rating: Option<string>,
    genre: Option<string>)

  datatype Movie = Movie(
    id: int,
    title: string,
    synopsis: Option<string>,
    durationMin: int,
    rating: Option<string>,
    genre: Option<string>)

  /** MovieUpdate: `Some` for a field the request supplied, `None` for one it left unset. */
  datatype MovieUpdate = MovieUpdate(
    title: Option<string>,
    synopsis: Option<string>,
    durationMin: Option<int>,
    rating: Option<string>,
    genre: Option<string>)

  /** The `ge=1` bound on duration_min. */
  predicate MovieCreateValid(d: MovieCreate) {
    d.durationMin >= 1
  }

  predicate MovieValid(m: Movie) {
    m.durationMin >= 1
  }

  /** MovieUpdate keeps the `ge=1` bound for a supplied duration. */
  predicate MovieUpdateValid(u: MovieUpdate) {
    u.durationMin.None? || u.durationMin.value >= 1
  }

  /** The movie create_movie builds from a request and a fresh id. */
  function NewMovie(id: int, d: MovieCreate): (m: Movie)
    ensures m.id == id
    ensures MovieCreateValid(d) ==> MovieValid(m)
  {
    Movie(id, d.title, d.synopsis, d.durationMin, d.rating, d.genre)
  }

  function Override<T>(old_: T, patch: Option<T>): T {
    if patch.Some? then patch.value else old_
  }

  function OverrideOptional<T>(old_: Option<T>, patch: Option<T>): Option<T> {
    if patch.Some? then patch else old_
  }

  /** The partial update of update_movie: every supplied field overwrites,
      every other field and the id are kept. */
  function ApplyUpdate(m: Movie, u: MovieUpdate): (r: Movie)
    ensures r.id == m.id
  {
    Movie(m.id, Override(m.title, u.title), OverrideOptional(m.synopsis, u.synopsis),
          Override(m.durationMin, u.durationMin), OverrideOptional(m.rating, u.rating),
          OverrideOptional(m.genre, u.genre))
  }

  const NoChanges: MovieUpdate := MovieUpdate(None, None, None, None, None)

  /** A partial update keeps a movie valid, changes nothing when it supplies
      nothing, and applying it twice is the same as applying it once. */
  lemma ApplyUpdateProperties(m: Movie, u: MovieUpdate)
    ensures MovieValid(m) && MovieUpdateValid(u) ==> MovieValid(ApplyUpdate(m, u))
    ensures ApplyUpdate(m, NoChanges) == m
    ensures ApplyUpdate(ApplyUpdate(m, u), u) == ApplyUpdate(m, u)
    ensures u.title.Some? ==> ApplyUpdate(m, u).title == u.title.value
    ensures u.title.None? ==> ApplyUpdate(m, u).title == m.title
    ensures u.durationMin.Some? ==> ApplyUpdate(m, u).durationMin == u.durationMin.value
    ensures u.durationMin.None? ==> ApplyUpdate(m, u).durationMin == m.durationMin
    ensures u.synopsis.Some? ==> ApplyUpdate(m, u).synopsis == u.synopsis
    ensures u.synopsis.None? ==> ApplyUpdate(m, u).synopsis == m.synopsis
    ensures u.rating.Some? ==> ApplyUpdate(m, u).rating == u.rating
    ensures u.rating.None? ==> ApplyUpdate(m, u).rating == m.rating
    ensures u.genre.Some? ==> ApplyUpdate(m, u).genre == u.genre
    ensures u.genre.None? ==> ApplyUpdate(m, u).genre == m.genre
  {
  }

  // ---------------------------------------------------------------------
  // str.split on a one-character separator
  // ---------------------------------------------------------------------

  function Count(s: string, d: char): nat {
    if s == [] then 0 else (if s[0] == d then 1 else 0) + Count(s[1..], d)
  }

  /** Python's split on one separator character: the pieces between occurrences of d, one more piece than
      there are occurrences; no piece contains d. */
  function Split(s: string, d: char): (parts: seq<string>)
    ensures |parts| == Count(s, d) + 1
    ensures forall k :: 0 <= k < |parts| ==> d !in parts[k]
  {
    if s == [] then [""]
    else
      var rest := Split(s[1..], d);
      if s[0] == d then [""] + rest else [[s[0]] + rest[0]] + rest[1..]
  }

  /** The pieces glued back together with the separator between them. */
  function Join(parts: seq<string>, d: char): string
    requires |parts| >= 1
  {
    if |parts| == 1 then parts[0] else parts[0] + [d] + Join(parts[1..], d)
  }

  /** Joining the pieces of a split gives the string back. */
  lemma {:induction false} JoinSplit(s: string, d: char)
    ensures Join(Split(s, d), d) == s
  {
    if s != [] {
      JoinSplit(s[1..], d);
      var rest := Split(s[1..], d);
      if s[0] != d {
        if |rest| == 1 {
          assert Split(s, d) == [[s[0]] + rest[0]];
        } else {
          assert Split(s, d)[1..] == rest[1..];
        }
      } else {
        assert Split(s, d)[1..] == rest;
      }
    }
  }

  /** Splitting a join of separator-free pieces gives the pieces back. */
  lemma {:induction false} SplitJoin(parts: seq<string>, d: char)
    requires |parts| >= 1
    requires forall k :: 0 <= k < |parts| ==> d !in parts[k]
    ensures Split(Join(parts, d), d) == parts
  {
    if |parts| == 1 {
      SplitPiece(parts[0], d, []);
      assert parts[0] + [] == parts[0];
    } else {
      SplitJoin(parts[1..], d);
      var tail := [d] + Join(parts[1..], d);
      assert tail[0] == d && tail[1..] == Join(parts[1..], d);
      assert Split(tail, d) == [""] + parts[1..];
      SplitPiece(parts[0], d, tail);
      assert Join(parts, d) == parts[0] + tail;
      assert parts[0] + "" == parts[0];
      assert [parts[0]] + parts[1..] == parts;
    }
  }

  /** A separator-free prefix glues onto the first piece. */
  lemma {:induction false} SplitPiece(p: string, d: char, tail: string)
    requires d !in p
    ensures Split(p + tail, d) == [p + Split(tail, d)[0]] + Split(tail, d)[1..]
  {
    if p != [] {
      SplitPiece(p[1..], d, tail);
      var s := p + tail;
      assert s != [] && s[0] == p[0] && p[0] != d;
      assert s[1..] == p[1..] + tail;
      assert [p[0]] + (p[1..] + Split(tail, d)[0]) == p + Split(tail, d)[0];
    } else {
      var t := Split(tail, d);
      assert p + tail == tail && p + t[0] == t[0] && t == [t[0]] + t[1..];
    }
  }

  lemma {:induction false} CountAppend(a: string, b: string, d: char)
    ensures Count(a + b, d) == Count(a, d) + Count(b, d)
  {
    if a != [] {
      CountAppend(a[1..], b, d);
      assert (a + b)[1..] == a[1..] + b;
    } else {
      assert a + b == b;
    }
  }

  // ---------------------------------------------------------------------
  // Showtimes
  // ---------------------------------------------------------------------

  /** The `_day` validator: exactly three '-'-separated pieces. */
  predicate DayValid(day: string) {
    |Split(day, '-')| == 3
  }

  /** The `_time` validator: exactly two ':'-separated pieces. */
  predicate TimeValid(time: string) {
    |Split(time, ':')| == 2
  }

  lemma ValidatorsCountSeparators(day: string, time: string)
    ensures DayValid(day) <==> Count(day, '-') == 2
    ensures TimeValid(time) <==> Count(time, ':') == 1
  {
  }

  // The validators only count separators: they accept the documented
  // formats and also strings that are not dates or times at all.

  lemma DocumentedFormatsAccepted()
    ensures DayValid("2025-10-15") && TimeValid("19:00")
  {
    CountAppend("2025-10", "-15", '-');
    CountAppend("2025", "-10", '-');
    assert "2025-10-15" == "2025-10" + "-15" && "2025-10" == "2025" + "-10";
    CountAppend("19", ":00", ':');
    assert "19:00" == "19" + ":00";
  }

  lemma NonDatesAccepted()
    ensures DayValid("--") && TimeValid("x:")
  {
  }

  lemma OtherSeparatorsRejected()
    ensures !DayValid("2025/10/15") && !TimeValid("19:00:00")
  {
    CountAppend("19", ":00", ':');
    assert "19:00" == "19" + ":00";
    CountAppend("19:00", ":00", ':');
    assert "19:00:00" == "19:00" + ":00";
  }

  /** ShowtimeCreate (and ShowtimeBase). */
  datatype ShowtimeCreate = ShowtimeCreate(
    day: string,
    time: string,
    studio: string,
    price: real,
    rows: int,
    cols: int,
    screenSide: ScreenSide,
    aislesCols: Option<seq<int>>,
    vipSeats: Option<seq<string>>,
    disabledSeats: Option<seq<string>>)

  datatype Showtime = Showtime(
    id: int,
    movieId: int,
    day: string,
    time: string,
    studio: string,
    price: real,
    rows: int,
    cols: int,
    screenSide: ScreenSide,
    aislesCols: Option<seq<int>>,
    vipSeats: Option<seq<string>>,
    disabledSeats: Option<seq<string>>)

  /** The field bounds and validators of ShowtimeBase. */
  predicate ShowtimeFieldsValid(day: string, time: string, price: real, rows: int, cols: int) {
    && DayValid(day) && TimeValid(time)
    && price >= 0.0
    && 1 <= rows <= 26
    && 1 <= cols <= 20
  }

  predicate ShowtimeCreateValid(d: ShowtimeCreate) {
    ShowtimeFieldsValid(d.day, d.time, d.price, d.rows, d.cols)
  }

  predicate ShowtimeValid(st: Showtime) {
    ShowtimeFieldsValid(st.day, st.time, st.price, st.rows, st.cols)
  }

  /** The showtime create_showtime builds from a request, a fresh id and the movie id. */
  function NewShowtime(id: int, movieId: int, d: ShowtimeCreate): (st: Showtime)
    ensures st.id == id && st.movieId == movieId
    ensures st.rows == d.rows && st.cols == d.cols && st.price == d.price
    ensures ShowtimeCreateValid(d) ==> ShowtimeValid(st)
  {
    Showtime(id, movieId, d.day, d.time, d.studio, d.price, d.rows, d.cols,
             d.screenSide, d.aislesCols, d.vipSeats, d.disabledSeats)
  }

  // ---------------------------------------------------------------------
  // Cart, checkout and layout records
  // ---------------------------------------------------------------------

  /** One stored cart line `(cart_item_id, showtime_id, seats)`. */
  datatype CartLine = CartLine(id: string, showtimeId: int, seats: seq<string>)

  /** CartItem: a cart line with its subtotal. */
  datatype CartItem = CartItem(id: string, showtimeId: int, seats: seq<string>, subtotal: real)

  /** Cart: the summary of one user's cart. */
  datatype Cart = Cart(userId: string, items: seq<CartItem>, total: real)

  /** CheckoutResponse: the booking record built by checkout. */
  datatype Booking = Booking(
    bookingCode: string,
    userId: string,
    totalBeforeDiscount: real,
    discountAmount: real,
    totalPaid: real,
    items: seq<CartItem>,
    timestamp: string)

  /** SeatCell: one cell of the layout grid. */
  datatype SeatCell = SeatCell(row: int, col: int, code: string, status: SeatStatus, seatType: Utils.SeatType)

  /** SeatLayout without its static legend. */
  datatype SeatLayout = SeatLayout(
    showtimeId: int,
    rows: int,
    cols: int,
    screenSide: ScreenSide,
    aislesCols: seq<int>,
    grid: seq<seq<SeatCell>>)
}
