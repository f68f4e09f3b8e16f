/**
 * The rules of the cart workflow in crud.py, as functions of the state
 * they read: which seat makes add_to_cart fail, what remove_from_cart
 * keeps and releases, which seat makes checkout fail, and the totals.
 */
module CartRules {
  import opened Common
  import opened Errors
  import opened Schemas
  import opened Utils
  import opened SeatInventory

  // ---------------------------------------------------------------------
  // add_to_cart: validation of the whole batch
  // ---------------------------------------------------------------------

  predicate Reservable(m: SeatMap, s: string) {
    s in m && m[s] == Available
  }

  /** The exception of the validation loop: the first requested seat that
      is missing or not available, in request order. */
  function ReservationError(m: SeatMap, ss: seq<string>): (e: Option<Error>)
    ensures e.None? <==> forall s :: s in ss ==> Reservable(m, s)
    ensures e.Some? ==> exists k :: (0 <= k < |ss| && !Reservable(m, ss[k])
      && (forall j :: 0 <= j < k ==> Reservable(m, ss[j]))
      && e.value == (if ss[k] !in m then SeatDoesNotExist(ss[k]) else SeatNotAvailable(ss[k])))
  {
    if ss == [] then None
    else if !Reservable(m, ss[0]) then
      assert ss[0] in ss;
      Some(if ss[0] !in m then SeatDoesNotExist(ss[0]) else SeatNotAvailable(ss[0]))
    else
      var e := ReservationError(m, ss[1..]);
      assert forall s :: s in ss ==> s == ss[0] || s in ss[1..];
      if e.Some? then
        var k :| 0 <= k < |ss[1..]| && !Reservable(m, ss[1..][k])
          && (forall j :: 0 <= j < k ==> Reservable(m, ss[1..][j]))
          && e.value == (if ss[1..][k] !in m then SeatDoesNotExist(ss[1..][k]) else SeatNotAvailable(ss[1..][k]));
        assert !Reservable(m, ss[k + 1]) && forall j :: 0 <= j < k + 1 ==> Reservable(m, ss[j]);
        e
      else e
  }

  // ---------------------------------------------------------------------
  // remove_from_cart
  // ---------------------------------------------------------------------

  /** A removal by id names this line; an absent or empty id names no line. */
  predicate IdMatches(cartItemId: Option<string>, cid: string) {
    cartItemId.Some? && cartItemId.value != "" && cid == cartItemId.value
  }

  /** The partial mode runs only for a given, non-empty list of seats. */
  predicate SeatsGiven(req: Option<seq<string>>) {
    req.Some? && req.value != []
  }

  /** The seats of a line that a partial removal keeps, in their order. */
  function Keep(ss: seq<string>, req: seq<string>): (r: seq<string>)
    ensures |r| <= |ss|
    ensures forall s :: s in r <==> s in ss && s !in req
  {
    if ss == [] then []
    else (if ss[0] !in req then [ss[0]] else []) + Keep(ss[1..], req)
  }

  /** The seats of a line the release loop writes: those also requested. */
  function Requested(ss: seq<string>, req: seq<string>): (r: seq<string>)
    ensures forall s :: s in r <==> s in ss && s in req
  {
    if ss == [] then []
    else (if ss[0] in req then [ss[0]] else []) + Requested(ss[1..], req)
  }

  /** The partial mode changes a line iff the line holds a requested seat. */
  lemma {:induction false} KeepShorterIffRequested(ss: seq<string>, req: seq<string>)
    ensures |Keep(ss, req)| != |ss| <==> exists s :: s in ss && s in req
  {
    if ss != [] {
      KeepShorterIffRequested(ss[1..], req);
      assert forall s :: s in ss <==> s == ss[0] || s in ss[1..];
    }
  }

  /** The partial mode touches this line: it keeps fewer seats than the line has. */
  predicate Shrinks(l: CartLine, req: Option<seq<string>>) {
    SeatsGiven(req) && |Keep(l.seats, req.value)| != |l.seats|
  }

  predicate Touched(l: CartLine, cartItemId: Option<string>, req: Option<seq<string>>) {
    IdMatches(cartItemId, l.id) || Shrinks(l, req)
  }

  /** What the loop body appends to `new_items` for one line. */
  function RemainderOf(l: CartLine, cartItemId: Option<string>, req: Option<seq<string>>): seq<CartLine> {
    if IdMatches(cartItemId, l.id) then []
    else if Shrinks(l, req) then
      var keep := Keep(l.seats, req.value);
      if keep != [] then [CartLine(l.id, l.showtimeId, keep)] else []
    else [l]
  }

  /** `new_items` after the whole loop. */
  function Remaining(items: seq<CartLine>, cartItemId: Option<string>, req: Option<seq<string>>)
    : (r: seq<CartLine>)
    ensures |r| <= |items|
  {
    if items == [] then []
    else RemainderOf(items[0], cartItemId, req) + Remaining(items[1..], cartItemId, req)
  }

  /** The seats one line sets back to available: all of them when the id
      matches, the requested ones when the partial mode touches it. */
  function ReleasedSeats(l: CartLine, cartItemId: Option<string>, req: Option<seq<string>>): seq<string> {
    if IdMatches(cartItemId, l.id) then l.seats
    else if Shrinks(l, req) then Requested(l.seats, req.value)
    else []
  }

  /** The release writes of every line, as lines of their own. */
  function Releases(items: seq<CartLine>, cartItemId: Option<string>, req: Option<seq<string>>)
    : (r: seq<CartLine>)
    ensures |r| == |items|
    ensures forall i :: 0 <= i < |items| ==> r[i].showtimeId == items[i].showtimeId
  {
    seq(|items|, i requires 0 <= i < |items| =>
      CartLine(items[i].id, items[i].showtimeId, ReleasedSeats(items[i], cartItemId, req)))
  }

  predicate AnyTouched(items: seq<CartLine>, cartItemId: Option<string>, req: Option<seq<string>>) {
    exists l :: l in items && Touched(l, cartItemId, req)
  }

  /** The error condition of remove_from_cart: nothing changed and no line was dropped. */
  predicate NothingToRemoveIn(items: seq<CartLine>, cartItemId: Option<string>, req: Option<seq<string>>) {
    !AnyTouched(items, cartItemId, req) && |Remaining(items, cartItemId, req)| == |items|
  }

  /** The error is raised exactly when no line was touched, and then the
      cart would have stayed as it was. */
  lemma {:induction false} UntouchedCartUnchanged(items: seq<CartLine>, cartItemId: Option<string>, req: Option<seq<string>>)
    ensures NothingToRemoveIn(items, cartItemId, req) <==> !AnyTouched(items, cartItemId, req)
    ensures !AnyTouched(items, cartItemId, req) ==> Remaining(items, cartItemId, req) == items
  {
    if items != [] {
      UntouchedCartUnchanged(items[1..], cartItemId, req);
      assert forall l :: l in items[1..] ==> l in items;
      assert items[0] in items;
      if !AnyTouched(items, cartItemId, req) {
        assert [items[0]] + items[1..] == items;
      }
    }
  }

  /** After removal, no line carries the matched id, and no line holds a
      requested seat. */
  lemma {:induction false} RemainingDropsTargets(items: seq<CartLine>, cartItemId: Option<string>, req: Option<seq<string>>)
    ensures forall l :: l in Remaining(items, cartItemId, req) ==> !IdMatches(cartItemId, l.id)
    ensures SeatsGiven(req) ==>
      forall l, s :: l in Remaining(items, cartItemId, req) && s in l.seats ==> s !in req.value
  {
    if items != [] {
      RemainingDropsTargets(items[1..], cartItemId, req);
      var l := items[0];
      if SeatsGiven(req) && !IdMatches(cartItemId, l.id) && !Shrinks(l, req) {
        KeepShorterIffRequested(l.seats, req.value);
      }
    }
  }

  /** Every line that neither matches nor intersects stays, unchanged. */
  lemma {:induction false} RemainingKeepsUntouched(items: seq<CartLine>, cartItemId: Option<string>, req: Option<seq<string>>)
    ensures forall l :: l in items && !Touched(l, cartItemId, req) ==> l in Remaining(items, cartItemId, req)
  {
    if items != [] {
      RemainingKeepsUntouched(items[1..], cartItemId, req);
      assert forall l :: l in items <==> l == items[0] || l in items[1..];
    }
  }

  /** `xs` is `ys` with some elements left out, the rest in their order. */
  predicate Subsequence<T(==)>(xs: seq<T>, ys: seq<T>)
    decreases |ys|
  {
    if xs == [] then true
    else if ys == [] then false
    else if xs[0] == ys[0] then Subsequence(xs[1..], ys[1..])
    else Subsequence(xs, ys[1..])
  }

  /** Putting an element in front keeps a subsequence. */
  lemma {:induction false} SubsequenceCons<T>(xs: seq<T>, ys: seq<T>, y: T)
    requires Subsequence(xs, ys)
    ensures Subsequence(xs, [y] + ys)
    decreases |ys|, 1
  {
    assert ([y] + ys)[1..] == ys;
    if xs != [] && xs[0] == y {
      SubsequenceDropFirst(xs, ys);
    }
  }

  lemma {:induction false} SubsequenceDropFirst<T>(xs: seq<T>, ys: seq<T>)
    requires xs != [] && Subsequence(xs, ys)
    ensures Subsequence(xs[1..], ys)
    decreases |ys|, 0
  {
    if xs[0] == ys[0] {
      SubsequenceCons(xs[1..], ys[1..], ys[0]);
    } else {
      SubsequenceDropFirst(xs, ys[1..]);
      SubsequenceCons(xs[1..], ys[1..], ys[0]);
    }
    assert [ys[0]] + ys[1..] == ys;
  }

  lemma {:induction false} SubsequenceOfLonger<T>(xs: seq<T>, ys: seq<T>, zs: seq<T>)
    requires Subsequence(xs, ys)
    ensures Subsequence(xs, zs + ys)
    decreases |zs|
  {
    if zs != [] {
      SubsequenceOfLonger(xs, ys, zs[1..]);
      SubsequenceCons(xs, zs[1..] + ys, zs[0]);
      assert [zs[0]] + (zs[1..] + ys) == zs + ys;
    } else {
      assert zs + ys == ys;
    }
  }

  /** Kept seats are the line's seats in their original order. */
  lemma {:induction false} KeepIsSubsequence(ss: seq<string>, req: seq<string>)
    ensures Subsequence(Keep(ss, req), ss)
  {
    if ss != [] {
      KeepIsSubsequence(ss[1..], req);
      if ss[0] !in req {
        assert ([ss[0]] + Keep(ss[1..], req))[1..] == Keep(ss[1..], req);
      } else {
        assert Keep(ss, req) == Keep(ss[1..], req);
      }
    }
  }

  function UntouchedLines(items: seq<CartLine>, cartItemId: Option<string>, req: Option<seq<string>>)
    : seq<CartLine>
  {
    if items == [] then []
    else
      (if Touched(items[0], cartItemId, req) then [] else [items[0]])
      + UntouchedLines(items[1..], cartItemId, req)
  }

  /** Lines that were not touched keep their relative order. */
  lemma {:induction false} RemainingKeepsOrder(items: seq<CartLine>, cartItemId: Option<string>, req: Option<seq<string>>)
    ensures Subsequence(UntouchedLines(items, cartItemId, req), Remaining(items, cartItemId, req))
  {
    if items != [] {
      RemainingKeepsOrder(items[1..], cartItemId, req);
      var u, r := UntouchedLines(items[1..], cartItemId, req), Remaining(items[1..], cartItemId, req);
      if Touched(items[0], cartItemId, req) {
        SubsequenceOfLonger(u, r, RemainderOf(items[0], cartItemId, req));
        assert UntouchedLines(items, cartItemId, req) == u;
      } else {
        assert UntouchedLines(items, cartItemId, req) == [items[0]] + u;
        assert Remaining(items, cartItemId, req) == [items[0]] + r;
        assert ([items[0]] + u)[1..] == u && ([items[0]] + r)[1..] == r;
      }
    }
  }

  /** Each remaining line comes from a line of the cart, with the same id and
      showtime, and its seats in their original order. */
  lemma {:induction false} RemainingComesFromCart(items: seq<CartLine>, cartItemId: Option<string>, req: Option<seq<string>>)
    ensures forall l :: l in Remaining(items, cartItemId, req) ==>
      exists o :: o in items && o.id == l.id && o.showtimeId == l.showtimeId && Subsequence(l.seats, o.seats)
  {
    if items != [] {
      RemainingComesFromCart(items[1..], cartItemId, req);
      var o := items[0];
      assert forall l :: l in items[1..] ==> l in items;
      if !IdMatches(cartItemId, o.id) {
        if Shrinks(o, req) {
          KeepIsSubsequence(o.seats, req.value);
        } else {
          SubsequenceReflexive(o.seats);
        }
      }
    }
  }

  lemma {:induction false} SubsequenceReflexive<T>(xs: seq<T>)
    ensures Subsequence(xs, xs)
  {
    if xs != [] {
      SubsequenceReflexive(xs[1..]);
    }
  }

  // ---------------------------------------------------------------------
  // checkout and get_cart_summary
  // ---------------------------------------------------------------------

  predicate IsReservedIn(m: SeatMap, s: string) {
    s in m && m[s] == Reserved
  }

  /** The first seat of one line that is not reserved; a missing seat is not reserved. */
  function UnreservedIn(m: SeatMap, ss: seq<string>): (r: Option<string>)
    ensures r.None? <==> forall s :: s in ss ==> IsReservedIn(m, s)
    ensures r.Some? ==> r.value in ss && !IsReservedIn(m, r.value)
  {
    if ss == [] then None
    else if !IsReservedIn(m, ss[0]) then Some(ss[0])
    else
      assert forall s :: s in ss ==> s == ss[0] || s in ss[1..];
      UnreservedIn(m, ss[1..])
  }

  /** The seat checkout names when it refuses: the first seat, line by
      line, that is no longer reserved. */
  function FirstUnreserved(seats: SeatMaps, items: seq<CartLine>): (r: Option<string>)
    requires LinesLive(seats.Keys, items)
    ensures r.None? <==> forall i, s :: 0 <= i < |items| && s in items[i].seats ==>
      IsReservedIn(seats[items[i].showtimeId], s)
    ensures r.Some? ==> exists i :: (0 <= i < |items| && r.value in items[i].seats
      && !IsReservedIn(seats[items[i].showtimeId], r.value))
  {
    if items == [] then None
    else
      match UnreservedIn(seats[items[0].showtimeId], items[0].seats)
      case Some(s) => Some(s)
      case None => FirstUnreserved(seats, items[1..])
  }

  /** A line's subtotal: the showtime price times the number of seats requested. */
  function Subtotal(price: real, l: CartLine): real {
    price * (|l.seats| as real)
  }

  predicate PricesNonNegative(showtimes: map<int, Showtime>) {
    forall id :: id in showtimes ==> showtimes[id].price >= 0.0
  }

  /** The running total over the lines, each priced at its showtime's current price. */
  function CartTotal(showtimes: map<int, Showtime>, items: seq<CartLine>): (t: real)
    requires LinesLive(showtimes.Keys, items)
    ensures PricesNonNegative(showtimes) ==> t >= 0.0
    ensures items == [] ==> t == 0.0
  {
    if items == [] then 0.0
    else
      Subtotal(showtimes[items[0].showtimeId].price, items[0]) + CartTotal(showtimes, items[1..])
  }

  /** The enriched lines of get_cart_summary and checkout. */
  function CartItems(showtimes: map<int, Showtime>, items: seq<CartLine>): (r: seq<CartItem>)
    requires LinesLive(showtimes.Keys, items)
    ensures |r| == |items|
  {
    seq(|items|, i requires 0 <= i < |items| =>
      CartItem(items[i].id, items[i].showtimeId, items[i].seats,
               Subtotal(showtimes[items[i].showtimeId].price, items[i])))
  }

  function SumSubtotals(xs: seq<CartItem>): real {
    if xs == [] then 0.0 else xs[0].subtotal + SumSubtotals(xs[1..])
  }

  /** The cart total is the sum of the subtotals it reports. */
  lemma {:induction false} CartTotalIsSumOfItems(showtimes: map<int, Showtime>, items: seq<CartLine>)
    requires LinesLive(showtimes.Keys, items)
    ensures CartTotal(showtimes, items) == SumSubtotals(CartItems(showtimes, items))
  {
    if items != [] {
      CartTotalIsSumOfItems(showtimes, items[1..]);
      assert CartItems(showtimes, items)[1..] == CartItems(showtimes, items[1..]);
    }
  }

  /** The amount paid: the total less the discount, never below zero. */
  function AmountPaid(total: real, discount: real): real {
    if total - discount > 0.0 then total - discount else 0.0
  }

  /** With a non-negative total the promo never exceeds it, so the amount
      paid is the total less the discount: 90% for DISCOUNT10, 80% for
      STUDENT20, everything for any other code. */
  lemma AmountPaidOfPromo(total: real, code: Option<string>)
    requires total >= 0.0
    ensures AmountPaid(total, ApplyPromo(total, code)) == total - ApplyPromo(total, code)
    ensures 0.0 <= AmountPaid(total, ApplyPromo(total, code)) <= total
    ensures code.Some? && Upper(code.value) == Discount10 ==>
      AmountPaid(total, ApplyPromo(total, code)) == total * 0.9
    ensures code.Some? && Upper(code.value) == Student20 ==>
      AmountPaid(total, ApplyPromo(total, code)) == total * 0.8
  {
    if code.Some? && code.value != "" {
      PromoTable(total, code.value);
    }
  }
}
