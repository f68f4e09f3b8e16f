/**
 * The agreement between the seat maps and the carts that the cart
 * workflow keeps: a seat is `reserved` exactly when one cart line holds
 * it, no seat is held twice, and the status changes the workflow makes
 * never unblock, block or un-book a seat. Stated on values, with one
 * preservation lemma per operation that writes seat maps or carts.
 */
module Consistency {
  import opened Common
  import opened Schemas
  import opened Utils
  import opened SeatInventory
  import opened CartRules

  /** `_carts`: user id -> cart lines. */
  type Carts = map<string, seq<CartLine>>

  /** A user's cart; a user without one has the empty cart. */
  function CartOf(carts: Carts, u: string): (items: seq<CartLine>)
    ensures u !in carts ==> items == []
  {
    if u in carts then carts[u] else []
  }

  /** No two lines of one cart hold the same seat. */
  predicate LinesDisjoint(lines: seq<CartLine>) {
    lines == [] || (LineSeats(lines[0]) !! Held(lines[1..]) && LinesDisjoint(lines[1..]))
  }

  predicate CartsDisjoint(carts: Carts) {
    forall u, v :: u in carts && v in carts && u != v ==> Held(carts[u]) !! Held(carts[v])
  }

  /** A held seat of a live showtime is on its map and reserved. */
  ghost predicate HeldReserved(seats: SeatMaps, carts: Carts) {
    forall u, id, s :: u in carts && id in seats && (id, s) in Held(carts[u]) ==>
      s in seats[id] && seats[id][s] == Reserved
  }

  /** A reserved seat is held by some cart. */
  ghost predicate ReservedHeld(seats: SeatMaps, carts: Carts) {
    forall id, s :: id in seats && s in seats[id] && seats[id][s] == Reserved ==>
      exists u :: u in carts && (id, s) in Held(carts[u])
  }

  ghost predicate Consistent(seats: SeatMaps, carts: Carts) {
    && (forall u :: u in carts ==> LinesDisjoint(carts[u]))
    && CartsDisjoint(carts)
    && HeldReserved(seats, carts)
    && ReservedHeld(seats, carts)
  }

  /** The seat maps after an operation: the same showtimes and seat codes,
      exactly the same seats blocked, and every booked seat still booked. */
  predicate Evolves(before: SeatMaps, after: SeatMaps) {
    && after.Keys == before.Keys
    && (forall id :: id in before ==> after[id].Keys == before[id].Keys)
    && (forall id, s :: id in before && s in before[id] ==>
          (after[id][s] == Blocked <==> before[id][s] == Blocked))
    && (forall id, s :: id in before && s in before[id] && before[id][s] == Booked ==>
          after[id][s] == Booked)
  }

  // ---------------------------------------------------------------------
  // Held sets of carts
  // ---------------------------------------------------------------------

  lemma HeldSingle(l: CartLine)
    ensures Held([l]) == LineSeats(l)
  {
    assert [l][1..] == [];
  }

  lemma {:induction false} LinesDisjointAppend(a: seq<CartLine>, b: seq<CartLine>)
    ensures LinesDisjoint(a + b) <==> LinesDisjoint(a) && LinesDisjoint(b) && Held(a) !! Held(b)
  {
    if a == [] {
      assert a + b == b;
    } else {
      LinesDisjointAppend(a[1..], b);
      assert (a + b)[0] == a[0] && (a + b)[1..] == a[1..] + b;
      HeldAppend(a[1..], b);
    }
  }

  lemma HeldOfLineRefs(lines: seq<CartLine>, id: int, s: string)
    requires (id, s) in Held(lines)
    ensures exists i :: 0 <= i < |lines| && lines[i].showtimeId == id && s in lines[i].seats
  {
    var i :| 0 <= i < |lines| && (id, s) in LineSeats(lines[i]);
  }

  // ---------------------------------------------------------------------
  // remove_from_cart splits a cart into what stays and what is released
  // ---------------------------------------------------------------------

  function ReleasedLine(l: CartLine, cartItemId: Option<string>, req: Option<seq<string>>): CartLine {
    CartLine(l.id, l.showtimeId, ReleasedSeats(l, cartItemId, req))
  }

  /** One line: what stays is what it held minus what is released. */
  lemma RemainderSplit(l: CartLine, cartItemId: Option<string>, req: Option<seq<string>>)
    ensures LineSeats(ReleasedLine(l, cartItemId, req)) <= LineSeats(l)
    ensures Held(RemainderOf(l, cartItemId, req)) == LineSeats(l) - LineSeats(ReleasedLine(l, cartItemId, req))
  {
    var rel := LineSeats(ReleasedLine(l, cartItemId, req));
    if IdMatches(cartItemId, l.id) {
      assert rel == LineSeats(l);
    } else if Shrinks(l, req) {
      var keep := Keep(l.seats, req.value);
      assert forall p :: p in rel <==> p.0 == l.showtimeId && p.1 in l.seats && p.1 in req.value;
      if keep != [] {
        HeldSingle(CartLine(l.id, l.showtimeId, keep));
      } else {
        assert forall s :: s in l.seats ==> s in req.value;
      }
    } else {
      assert rel == {};
      HeldSingle(l);
    }
  }

  /** The release writes of a cart are those of its first line, then
      those of the rest. */
  lemma HeldReleasesCons(items: seq<CartLine>, cartItemId: Option<string>, req: Option<seq<string>>)
    requires items != []
    ensures Held(Releases(items, cartItemId, req))
      == LineSeats(ReleasedLine(items[0], cartItemId, req)) + Held(Releases(items[1..], cartItemId, req))
  {
    var rels := Releases(items, cartItemId, req);
    assert rels[0] == ReleasedLine(items[0], cartItemId, req);
    assert rels[1..] == Releases(items[1..], cartItemId, req);
  }

  /** What stays of one line is at most one line. */
  lemma RemainderDisjoint(l: CartLine, cartItemId: Option<string>, req: Option<seq<string>>)
    ensures LinesDisjoint(RemainderOf(l, cartItemId, req))
  {
    var here := RemainderOf(l, cartItemId, req);
    if here != [] {
      assert here[1..] == [];
    }
  }

  /** A cart whose lines are disjoint: the seats still held after removal
      are the seats held before minus the released ones, and the lines
      left are still disjoint. */
  lemma {:induction false} HeldRemaining(items: seq<CartLine>, cartItemId: Option<string>, req: Option<seq<string>>)
    requires LinesDisjoint(items)
    ensures Held(Releases(items, cartItemId, req)) <= Held(items)
    ensures Held(Remaining(items, cartItemId, req)) == Held(items) - Held(Releases(items, cartItemId, req))
    ensures LinesDisjoint(Remaining(items, cartItemId, req))
  {
    if items != [] {
      var l, tail := items[0], items[1..];
      HeldRemaining(tail, cartItemId, req);
      RemainderSplit(l, cartItemId, req);
      HeldReleasesCons(items, cartItemId, req);
      RemainderDisjoint(l, cartItemId, req);
      var here := RemainderOf(l, cartItemId, req);
      var rest := Remaining(tail, cartItemId, req);
      assert Remaining(items, cartItemId, req) == here + rest;
      HeldAppend(here, rest);
      LinesDisjointAppend(here, rest);
      var lineSeats, tailHeld := LineSeats(l), Held(tail);
      var r0, rt := LineSeats(ReleasedLine(l, cartItemId, req)), Held(Releases(tail, cartItemId, req));
      assert Held(items) == lineSeats + tailHeld;
      assert lineSeats !! tailHeld;
      assert (lineSeats - r0) + (tailHeld - rt) == (lineSeats + tailHeld) - (r0 + rt);
    }
  }

  // ---------------------------------------------------------------------
  // Preservation, operation by operation
  // ---------------------------------------------------------------------

  /** add_to_cart: reserving available seats under a new last line keeps
      the seat maps and carts consistent. */
  lemma ReservePreserves(seats: SeatMaps, carts: Carts, u: string, line: CartLine)
    requires Consistent(seats, carts)
    requires line.showtimeId in seats
    requires forall s :: s in line.seats ==> Reservable(seats[line.showtimeId], s)
    ensures var after := seats[line.showtimeId := Mark(seats[line.showtimeId], line.seats, Reserved)];
      Consistent(after, carts[u := CartOf(carts, u) + [line]]) && Evolves(seats, after)
  {
    var stid := line.showtimeId;
    var after := seats[stid := Mark(seats[stid], line.seats, Reserved)];
    var carts' := carts[u := CartOf(carts, u) + [line]];
    ReserveFree(seats, carts, line);
    ReserveDisjoint(carts, u, line);
    ReserveReservedHeld(seats, carts, u, line);
    ReserveHeldReserved(seats, carts, u, line);
    ReserveEvolves(seats, line);
  }

  lemma ReserveHeldReserved(seats: SeatMaps, carts: Carts, u: string, line: CartLine)
    requires HeldReserved(seats, carts)
    requires line.showtimeId in seats
    requires Held(CartOf(carts, u) + [line]) == Held(CartOf(carts, u)) + LineSeats(line)
    ensures var after := seats[line.showtimeId := Mark(seats[line.showtimeId], line.seats, Reserved)];
      HeldReserved(after, carts[u := CartOf(carts, u) + [line]])
  {
    var stid := line.showtimeId;
    var after := seats[stid := Mark(seats[stid], line.seats, Reserved)];
    var carts' := carts[u := CartOf(carts, u) + [line]];
    forall v, id, s | v in carts' && id in after && (id, s) in Held(carts'[v])
      ensures s in after[id] && after[id][s] == Reserved
    {
      if v == u && (id, s) in LineSeats(line) {
        assert id == stid && s in line.seats;
      } else {
        assert v in carts && (id, s) in Held(carts[v]);
      }
    }
  }

  /** Reserving available seats neither blocks, unblocks nor un-books. */
  lemma ReserveEvolves(seats: SeatMaps, line: CartLine)
    requires line.showtimeId in seats
    requires forall s :: s in line.seats ==> Reservable(seats[line.showtimeId], s)
    ensures Evolves(seats, seats[line.showtimeId := Mark(seats[line.showtimeId], line.seats, Reserved)])
  {
    var m := seats[line.showtimeId];
    assert Mark(m, line.seats, Reserved).Keys == m.Keys;
  }

  /** The seats of a new line are held by no cart, since they are available. */
  lemma ReserveFree(seats: SeatMaps, carts: Carts, line: CartLine)
    requires HeldReserved(seats, carts)
    requires line.showtimeId in seats
    requires forall s :: s in line.seats ==> Reservable(seats[line.showtimeId], s)
    ensures forall v :: v in carts ==> Held(carts[v]) !! LineSeats(line)
  {
    forall v | v in carts ensures Held(carts[v]) !! LineSeats(line) {
      forall p | p in LineSeats(line) ensures p !in Held(carts[v]) {
        assert seats[line.showtimeId][p.1] == Available;
      }
    }
  }

  /** Appending a line whose seats no cart holds keeps the carts disjoint. */
  lemma ReserveDisjoint(carts: Carts, u: string, line: CartLine)
    requires forall v :: v in carts ==> LinesDisjoint(carts[v])
    requires CartsDisjoint(carts)
    requires forall v :: v in carts ==> Held(carts[v]) !! LineSeats(line)
    ensures var carts' := carts[u := CartOf(carts, u) + [line]];
      (forall v :: v in carts' ==> LinesDisjoint(carts'[v])) && CartsDisjoint(carts')
    ensures Held(CartOf(carts, u) + [line]) == Held(CartOf(carts, u)) + LineSeats(line)
  {
    var items := CartOf(carts, u);
    HeldAppend(items, [line]);
    HeldSingle(line);
    assert Held(items) !! LineSeats(line) by {
      if u !in carts { assert Held(items) == {}; }
    }
    assert LinesDisjoint(items + [line]) by {
      LinesDisjointAppend(items, [line]);
      assert [line][1..] == [];
    }
  }

  lemma ReserveReservedHeld(seats: SeatMaps, carts: Carts, u: string, line: CartLine)
    requires ReservedHeld(seats, carts)
    requires line.showtimeId in seats
    requires Held(CartOf(carts, u) + [line]) == Held(CartOf(carts, u)) + LineSeats(line)
    ensures var after := seats[line.showtimeId := Mark(seats[line.showtimeId], line.seats, Reserved)];
      ReservedHeld(after, carts[u := CartOf(carts, u) + [line]])
  {
    var stid := line.showtimeId;
    var after := seats[stid := Mark(seats[stid], line.seats, Reserved)];
    var carts' := carts[u := CartOf(carts, u) + [line]];
    forall id, s | id in after && s in after[id] && after[id][s] == Reserved
      ensures exists v :: v in carts' && (id, s) in Held(carts'[v])
    {
      if id == stid && s in line.seats {
        assert (id, s) in Held(carts'[u]);
      } else {
        var v :| v in carts && (id, s) in Held(carts[v]);
        assert (id, s) in Held(carts'[v]);
      }
    }
  }

  // remove_from_cart and checkout both settle part of one user's cart:
  // the seats of `lines`, all held by that user, get a status other than
  // reserved, and the cart keeps exactly the other seats as `rest`.

  predicate Settles(seats: SeatMaps, carts: Carts, u: string, lines: seq<CartLine>, rest: seq<CartLine>,
                    status: SeatStatus) {
    && u in carts
    && WritesLive(seats.Keys, lines)
    && Held(lines) <= Held(carts[u])
    && Held(rest) == Held(carts[u]) - Held(lines)
    && (status == Available || status == Booked)
  }

  lemma SettleHeldReserved(seats: SeatMaps, carts: Carts, u: string, lines: seq<CartLine>, rest: seq<CartLine>,
                           status: SeatStatus)
    requires CartsDisjoint(carts) && HeldReserved(seats, carts)
    requires Settles(seats, carts, u, lines, rest, status)
    ensures HeldReserved(MarkLines(seats, lines, status), carts[u := rest])
  {
    var after := MarkLines(seats, lines, status);
    var carts' := carts[u := rest];
    forall v, id, s | v in carts' && id in after && (id, s) in Held(carts'[v])
      ensures s in after[id] && after[id][s] == Reserved
    {
      assert (id, s) in Held(carts[v]) && (id, s) !in Held(lines);
    }
  }

  lemma SettleReservedHeld(seats: SeatMaps, carts: Carts, u: string, lines: seq<CartLine>, rest: seq<CartLine>,
                           status: SeatStatus)
    requires ReservedHeld(seats, carts)
    requires Settles(seats, carts, u, lines, rest, status)
    ensures ReservedHeld(MarkLines(seats, lines, status), carts[u := rest])
  {
    var after := MarkLines(seats, lines, status);
    var carts' := carts[u := rest];
    forall id, s | id in after && s in after[id] && after[id][s] == Reserved
      ensures exists v :: v in carts' && (id, s) in Held(carts'[v])
    {
      assert (id, s) !in Held(lines);
      var v :| v in carts && (id, s) in Held(carts[v]);
      assert (id, s) in Held(carts'[v]);
    }
  }

  lemma SettleEvolves(seats: SeatMaps, carts: Carts, u: string, lines: seq<CartLine>, rest: seq<CartLine>,
                      status: SeatStatus)
    requires HeldReserved(seats, carts)
    requires Settles(seats, carts, u, lines, rest, status)
    ensures Evolves(seats, MarkLines(seats, lines, status))
  {
    forall id, s | id in seats && (id, s) in Held(lines) ensures s in seats[id] && seats[id][s] == Reserved {
      assert (id, s) in Held(carts[u]);
    }
  }

  lemma SettlePreserves(seats: SeatMaps, carts: Carts, u: string, lines: seq<CartLine>, rest: seq<CartLine>,
                        status: SeatStatus)
    requires Consistent(seats, carts)
    requires Settles(seats, carts, u, lines, rest, status)
    requires LinesDisjoint(rest)
    ensures Consistent(MarkLines(seats, lines, status), carts[u := rest])
    ensures Evolves(seats, MarkLines(seats, lines, status))
  {
    SettleHeldReserved(seats, carts, u, lines, rest, status);
    SettleReservedHeld(seats, carts, u, lines, rest, status);
    SettleEvolves(seats, carts, u, lines, rest, status);
  }

  /** remove_from_cart: releasing what a removal takes out of a cart keeps
      the seat maps and carts consistent. Only the lines that release a
      seat need a live showtime; the others may name one that is gone. */
  lemma ReleasePreserves(seats: SeatMaps, carts: Carts, u: string,
                         cartItemId: Option<string>, req: Option<seq<string>>)
    requires Consistent(seats, carts)
    requires u in carts && WritesLive(seats.Keys, Releases(carts[u], cartItemId, req))
    ensures var after := MarkLines(seats, Releases(carts[u], cartItemId, req), Available);
      Consistent(after, carts[u := Remaining(carts[u], cartItemId, req)]) && Evolves(seats, after)
  {
    var items := carts[u];
    HeldRemaining(items, cartItemId, req);
    SettlePreserves(seats, carts, u, Releases(items, cartItemId, req), Remaining(items, cartItemId, req), Available);
  }

  /** checkout: booking every seat of a cart and emptying it keeps the seat
      maps and carts consistent. */
  lemma BookPreserves(seats: SeatMaps, carts: Carts, u: string)
    requires Consistent(seats, carts)
    requires u in carts && LinesLive(seats.Keys, carts[u])
    ensures var after := MarkLines(seats, carts[u], Booked);
      Consistent(after, carts[u := []]) && Evolves(seats, after)
  {
    LiveWrites(seats.Keys, carts[u]);
    SettlePreserves(seats, carts, u, carts[u], [], Booked);
  }

  /** Under the invariant, checkout never meets a seat that is no longer
      reserved: every seat of a live cart is reserved. */
  lemma CartSeatsStayReserved(seats: SeatMaps, carts: Carts, u: string)
    requires HeldReserved(seats, carts)
    requires LinesLive(seats.Keys, CartOf(carts, u))
    ensures FirstUnreserved(seats, CartOf(carts, u)).None?
  {
    if u in carts {
      var items := carts[u];
      HeldMembers(items);
      forall i, s | 0 <= i < |items| && s in items[i].seats
        ensures IsReservedIn(seats[items[i].showtimeId], s)
      {
        assert (items[i].showtimeId, s) in LineSeats(items[i]);
        assert (items[i].showtimeId, s) in Held(carts[u]);
      }
    }
  }

  /** delete_movie: dropping whole seat maps keeps the invariant; the cart
      lines of dropped showtimes are no longer checked against anything. */
  lemma RestrictPreserves(seats: SeatMaps, carts: Carts, kept: set<int>)
    requires Consistent(seats, carts)
    ensures Consistent(map id | id in seats && id in kept :: seats[id], carts)
  {
  }

  /** save_showtime: a fresh seat map that no cart refers to has no
      reserved seat, so adding it keeps the invariant. */
  lemma AddMapPreserves(seats: SeatMaps, carts: Carts, id: int, m: SeatMap)
    requires Consistent(seats, carts)
    requires forall s :: s in m ==> m[s] != Reserved
    requires forall u, i :: u in carts && 0 <= i < |carts[u]| ==> carts[u][i].showtimeId != id
    ensures Consistent(seats[id := m], carts)
  {
    forall u, s | u in carts && (id, s) in Held(carts[u]) ensures false {
      HeldOfLineRefs(carts[u], id, s);
    }
  }
}
