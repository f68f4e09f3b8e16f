/**
 * Seat maps: the status of every seat code of one showtime, how
 * save_showtime initialises them, how the workflow overwrites statuses,
 * and the 2-D layout rendered from them by get_seat_layout.
 */
module SeatInventory {
  import opened Common
  import opened Schemas
  import opened Utils

  /** One showtime's seat map, from seat code to status. */
  type SeatMap = map<string, SeatStatus>

  /** `_seats_status`: showtime id -> seat map. */
  type SeatMaps = map<int, SeatMap>

  /** A seat of a given showtime. */
  type SeatRef = (int, string)

  // ---------------------------------------------------------------------
  // Initialisation (save_showtime)
  // ---------------------------------------------------------------------

  function Elements<T>(s: seq<T>): set<T> {
    set x | x in s
  }

  /** The seat map save_showtime stores: every grid code, `blocked` when it
      is disabled and `available` otherwise. */
  function InitialSeatMap(rows: int, cols: int, disabled: set<string>): SeatMap {
    map c | c in SeatCodes(rows, cols) :: if c in disabled then Blocked else Available
  }

  /** The keys of a fresh seat map are exactly the grid positions; a seat
      is blocked iff it is disabled, every other seat is available, and
      disabled codes that are not on the grid add nothing. */
  lemma InitialSeatMapShape(rows: int, cols: int, disabled: set<string>, code: string)
    requires 1 <= rows <= 26
    ensures var m := InitialSeatMap(rows, cols, disabled);
      && (code in m <==> exists r, c :: 1 <= r <= rows && 1 <= c <= cols && code == CodeFromRowCol(r, c))
      && (code in m ==> (m[code] == Blocked <==> code in disabled))
      && (code in m ==> (m[code] == Available <==> code !in disabled))
      && m.Keys == Elements(SeatCodes(rows, cols))
      && m.Keys == InitialSeatMap(rows, cols, {}).Keys
  {
    SeatCodesMembership(rows, cols, code);
  }

  // ---------------------------------------------------------------------
  // Status writes
  // ---------------------------------------------------------------------

  /** Gives every listed seat the status, one after another. A code not yet in the map is
      added, as a Python dict assignment does. */
  function Mark(m: SeatMap, ss: seq<string>, status: SeatStatus): (r: SeatMap)
    ensures r.Keys == m.Keys + Elements(ss)
    ensures forall s :: s in r ==> r[s] == if s in ss then status else m[s]
    decreases |ss|
  {
    if ss == [] then m else Mark(m[ss[0] := status], ss[1..], status)
  }

  /** The seats a list of cart lines refers to. */
  function LineSeats(l: CartLine): set<SeatRef> {
    set s | s in l.seats :: (l.showtimeId, s)
  }

  /** The seats held by a sequence of cart lines. */
  function Held(lines: seq<CartLine>): set<SeatRef> {
    if lines == [] then {} else LineSeats(lines[0]) + Held(lines[1..])
  }

  /** A seat is held iff some line holds it. */
  lemma {:induction false} HeldMembers(lines: seq<CartLine>)
    ensures forall i :: 0 <= i < |lines| ==> LineSeats(lines[i]) <= Held(lines)
    ensures forall p :: p in Held(lines) ==> exists i :: 0 <= i < |lines| && p in LineSeats(lines[i])
  {
    if lines != [] {
      HeldMembers(lines[1..]);
      forall p | p in Held(lines) ensures exists i :: 0 <= i < |lines| && p in LineSeats(lines[i]) {
        if p !in LineSeats(lines[0]) {
          var i :| 0 <= i < |lines[1..]| && p in LineSeats(lines[1..][i]);
          assert lines[i + 1] == lines[1..][i];
        }
      }
    }
  }

  lemma HeldAppend(a: seq<CartLine>, b: seq<CartLine>)
    ensures Held(a + b) == Held(a) + Held(b)
  {
    HeldMembers(a);
    HeldMembers(b);
    HeldMembers(a + b);
    var h := Held(a + b);
    forall p | p in Held(a) + Held(b) ensures p in h {
      if p in Held(a) {
        var i :| 0 <= i < |a| && p in LineSeats(a[i]);
        assert (a + b)[i] == a[i];
      } else {
        var i :| 0 <= i < |b| && p in LineSeats(b[i]);
        assert (a + b)[|a| + i] == b[i];
      }
    }
    forall p | p in h ensures p in Held(a) + Held(b) {
      var i :| 0 <= i < |a + b| && p in LineSeats((a + b)[i]);
      if i < |a| { assert (a + b)[i] == a[i]; } else { assert (a + b)[i] == b[i - |a|]; }
    }
  }

  /** Every line refers to a showtime in `live`. */
  predicate LinesLive(live: set<int>, lines: seq<CartLine>) {
    forall i :: 0 <= i < |lines| ==> lines[i].showtimeId in live
  }

  /** Every line that holds a seat refers to a showtime in `live`: the
      lines of a release or a booking that write into a seat map. */
  predicate WritesLive(live: set<int>, lines: seq<CartLine>) {
    forall i :: 0 <= i < |lines| && lines[i].seats != [] ==> lines[i].showtimeId in live
  }

  lemma LiveWrites(live: set<int>, lines: seq<CartLine>)
    requires LinesLive(live, lines)
    ensures WritesLive(live, lines)
  {
  }

  /** Marks every seat of every line, line after line. A line without
      seats writes nothing, so its showtime may be one that is gone. */
  function MarkLines(seats: SeatMaps, lines: seq<CartLine>, status: SeatStatus): (r: SeatMaps)
    requires WritesLive(seats.Keys, lines)
    ensures r.Keys == seats.Keys
    ensures forall id, s :: id in r ==> (s in r[id] <==> s in seats[id] || (id, s) in Held(lines))
    ensures forall id, s :: id in r && s in r[id] ==>
      r[id][s] == if (id, s) in Held(lines) then status else seats[id][s]
    decreases |lines|
  {
    if lines == [] then seats
    else
      var l := lines[0];
      var seats' := if l.showtimeId in seats then seats[l.showtimeId := Mark(seats[l.showtimeId], l.seats, status)]
                    else seats;
      assert forall i :: 0 <= i < |lines[1..]| ==> lines[1..][i] == lines[i + 1];
      MarkLines(seats', lines[1..], status)
  }

  // ---------------------------------------------------------------------
  // Layout (get_seat_layout)
  // ---------------------------------------------------------------------

  /** The cells of row r from column c on; a code missing from the seat
      map is skipped (the `continue` of the source). */
  function LayoutRow(m: SeatMap, vip: set<string>, disabled: set<string>, r: int, c: int, cols: int)
    : seq<SeatCell>
    requires -25 <= r <= 26
    decreases cols - c
  {
    if c > cols then []
    else ColumnCells(m, vip, disabled, r, c) + LayoutRow(m, vip, disabled, r, c + 1, cols)
  }

  /** What column c adds to row r: its cell when the code is on the map, nothing otherwise. */
  function ColumnCells(m: SeatMap, vip: set<string>, disabled: set<string>, r: int, c: int): seq<SeatCell>
    requires -25 <= r <= 26
  {
    var code := CodeFromRowCol(r, c);
    if code in m then [SeatCell(r, c, code, m[code], SeatTypeFor(code, vip, disabled))] else []
  }

  /** grid[r - 1] is row r, for r in 1..rows. */
  function LayoutGrid(m: SeatMap, vip: set<string>, disabled: set<string>, rows: int, cols: int)
    : (grid: seq<seq<SeatCell>>)
    requires rows <= 26
    ensures |grid| == if rows > 0 then rows else 0
  {
    seq(if rows > 0 then rows else 0, i requires 0 <= i < rows => LayoutRow(m, vip, disabled, i + 1, 1, cols))
  }

  /** The cell a complete seat map shows at row r, column c. */
  function CellAt(m: SeatMap, vip: set<string>, disabled: set<string>, r: int, c: int): SeatCell
    requires 1 <= r <= 26 && CodeFromRowCol(r, c) in m
  {
    var code := CodeFromRowCol(r, c);
    SeatCell(r, c, code, m[code], SeatTypeFor(code, vip, disabled))
  }

  lemma {:induction false} LayoutRowFull(m: SeatMap, vip: set<string>, disabled: set<string>, r: int, c: int, cols: int)
    requires 1 <= r <= 26 && 1 <= c
    requires forall k :: c <= k <= cols ==> CodeFromRowCol(r, k) in m
    ensures |LayoutRow(m, vip, disabled, r, c, cols)| == if cols >= c then cols - c + 1 else 0
    ensures forall j :: 0 <= j < |LayoutRow(m, vip, disabled, r, c, cols)| ==>
      LayoutRow(m, vip, disabled, r, c, cols)[j] == CellAt(m, vip, disabled, r, c + j)
    decreases cols - c
  {
    if c <= cols {
      LayoutRowFull(m, vip, disabled, r, c + 1, cols);
      var rest := LayoutRow(m, vip, disabled, r, c + 1, cols);
      var row := [CellAt(m, vip, disabled, r, c)] + rest;
      assert ColumnCells(m, vip, disabled, r, c) == [CellAt(m, vip, disabled, r, c)];
      assert LayoutRow(m, vip, disabled, r, c, cols) == row;
      forall j | 0 < j < |row| ensures row[j] == CellAt(m, vip, disabled, r, c + j) {
        assert row[j] == rest[j - 1];
      }
    }
  }

  /** A seat map over exactly the grid codes holds the code of every seat of the grid. */
  lemma CompleteMapHolds(m: SeatMap, rows: int, cols: int, r: int, c: int)
    requires 1 <= rows <= 26 && 0 <= cols
    requires m.Keys == Elements(SeatCodes(rows, cols))
    requires 1 <= r <= rows && 1 <= c <= cols
    ensures CodeFromRowCol(r, c) in m
  {
    SeatCodesAt(rows, cols, r, c);
    assert SeatCodes(rows, cols)[(r - 1) * cols + (c - 1)] in Elements(SeatCodes(rows, cols));
  }

  /** With a seat map that holds the code of every seat of the grid, the
      layout is the full rows x cols grid and cell [r - 1][c - 1] is seat
      (r, c), with its status and its seat type. */
  lemma LayoutOfFullMap(m: SeatMap, vip: set<string>, disabled: set<string>, rows: int, cols: int)
    requires 1 <= rows <= 26 && 0 <= cols
    requires forall r, c :: 1 <= r <= rows && 1 <= c <= cols ==> CodeFromRowCol(r, c) in m
    ensures |LayoutGrid(m, vip, disabled, rows, cols)| == rows
    ensures forall i :: 0 <= i < rows ==> |LayoutGrid(m, vip, disabled, rows, cols)[i]| == cols
    ensures forall i, j :: 0 <= i < rows && 0 <= j < cols ==>
      LayoutGrid(m, vip, disabled, rows, cols)[i][j] == CellAt(m, vip, disabled, i + 1, j + 1)
  {
    var grid := LayoutGrid(m, vip, disabled, rows, cols);
    forall i | 0 <= i < rows ensures |grid[i]| == cols {
      FullMapRow(m, vip, disabled, rows, cols, i);
    }
    forall i, j | 0 <= i < rows && 0 <= j < cols
      ensures grid[i][j] == CellAt(m, vip, disabled, i + 1, j + 1)
    {
      FullMapRow(m, vip, disabled, rows, cols, i);
    }
  }

  /** Row i of the layout of a full map is the full row i + 1. */
  lemma FullMapRow(m: SeatMap, vip: set<string>, disabled: set<string>, rows: int, cols: int, i: int)
    requires 1 <= rows <= 26 && 0 <= cols && 0 <= i < rows
    requires forall r, c :: 1 <= r <= rows && 1 <= c <= cols ==> CodeFromRowCol(r, c) in m
    ensures |LayoutGrid(m, vip, disabled, rows, cols)[i]| == cols
    ensures forall j :: 0 <= j < cols ==>
      LayoutGrid(m, vip, disabled, rows, cols)[i][j] == CellAt(m, vip, disabled, i + 1, j + 1)
  {
    assert LayoutGrid(m, vip, disabled, rows, cols)[i] == LayoutRow(m, vip, disabled, i + 1, 1, cols);
    LayoutRowFull(m, vip, disabled, i + 1, 1, cols);
  }

  /** A seat map over exactly the grid codes, as save_showtime stores it,
      gives the full rows x cols grid: cell [r - 1][c - 1] is seat (r, c),
      with its status and its seat type. */
  lemma LayoutOfCompleteMap(m: SeatMap, vip: set<string>, disabled: set<string>, rows: int, cols: int)
    requires 1 <= rows <= 26 && 0 <= cols
    requires m.Keys == Elements(SeatCodes(rows, cols))
    ensures |LayoutGrid(m, vip, disabled, rows, cols)| == rows
    ensures forall i :: 0 <= i < rows ==> |LayoutGrid(m, vip, disabled, rows, cols)[i]| == cols
    ensures forall r, c :: 1 <= r <= rows && 1 <= c <= cols ==> CodeFromRowCol(r, c) in m
    ensures forall i, j :: 0 <= i < rows && 0 <= j < cols ==>
      LayoutGrid(m, vip, disabled, rows, cols)[i][j] == CellAt(m, vip, disabled, i + 1, j + 1)
  {
    forall r, c | 1 <= r <= rows && 1 <= c <= cols ensures CodeFromRowCol(r, c) in m {
      CompleteMapHolds(m, rows, cols, r, c);
    }
    LayoutOfFullMap(m, vip, disabled, rows, cols);
  }
}
