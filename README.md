# Movie booking: seat inventory, cart and checkout

This project models the core of a small movie-booking service: an
in-memory store of movies, showtimes and per-showtime seat maps, and the
workflow on top of it that reserves seats into a user's cart, releases
them again, and books them at checkout.

- `common.dfy`: `Option`, `Result`, and the `Error` values that stand for
  the service's `HTTPException`s. Each error has its status code.
- `utils.dfy` (module `Utils`): seat-code generation (`seat_codes`,
  `code_from_row_col`), `seat_type_for` and `apply_promo`, together with
  the pieces of Python they rely on. These are the alphabet slice, the
  `s[:n]` prefix, the decimal rendering of an integer and ASCII `str.upper`.
- `schemas.dfy` (module `Schemas`): the records, their field bounds, the
  `day`/`time` validators (a model of `str.split`), and how a create
  request or a partial update becomes a stored record.
- `seat_inventory.dfy` (module `SeatInventory`): seat maps, the map
  `save_showtime` stores, how status writes act on maps, and the 2-D
  layout `get_seat_layout` renders.
- `cart_rules.dfy` (module `CartRules`): the rules of the cart as
  functions over values:
  - which seats a request may reserve;
  - what `remove_from_cart` releases and keeps, line by line;
  - what `checkout` checks, prices and charges.
- `consistency.dfy` (module `Consistency`): the invariant that ties the
  seat maps to the carts. A seat is `reserved` exactly when one cart line
  holds it; a held seat is never held twice. Reserving, releasing and
  booking each preserve this invariant.
- `storage.dfy` (module `Storage`): the storage layer as values:
  - the invariant of the whole store;
  - the cascade of `delete_movie`, as a loop over the showtime keys;
  - `list_showtimes`;
  - one lemma per operation showing that it keeps the store invariant.
- `store.dfy` (module `MemoryStore`): class `Store`. Its fields are the
  module-level dictionaries and counters of storage.py, and each storage
  function is a method that updates them in place. `Valid()` is the store
  invariant.
- `crud.dfy` (module `Crud`): the operations of crud.py on a `Store`. The
  loops of crud.py are methods over values, each proved equal to the
  function that specifies it. The store operations run these loops and
  write the results back. An `HTTPException` becomes `Err`, and the store
  is then left unchanged.

Python dictionaries keep insertion order, and `list_movies` and
`list_showtimes` return it. The store therefore keeps the key order of its
movie and showtime dictionaries as a sequence beside each map.

The repository holds two byte-identical copies of utils.py and of
schemas.py. `movie-booking/app/` holds one copy, the one storage.py
imports; `movie_booking/app/` holds the other, the one crud.py imports.
One Dafny module models each pair. The table cites the `movie_booking`
copy of both files, except where a row is about storage.py.

crud.py imports `storage` from its own package, and that file is not part
of this model. The model runs crud.py against the operations of
movie-booking/app/storage.py, which are the ones crud.py calls, apart from
the booking ledger listed below.

## Model

| member | source | states |
|---|---|---|
| `Errors.Error.Status` | movie_booking/app/crud.py:115-123 | The missing-showtime errors (lines 54, 67 and 116) and the missing-movie errors (lines 26, 33 and 42) are 404. Every other error is 400. |
| `Utils.UppercaseIsAsciiAlphabet` | movie_booking/app/utils.py:5 | The alphabet has 26 letters. Letter i is 'A' + i, and all 26 are distinct. |
| `Utils.PrefixSlice` | movie_booking/app/crud.py:129 | Python's `s[:n]` is a prefix of `s`. Its length is min(n, \|s\|) for n ≥ 0. A negative n drops -n characters from the end. |
| `Utils.RowLetters` | movie_booking/app/utils.py:5 | The row letters are a prefix of the alphabet, with exactly `rows` letters for 1 ≤ rows ≤ 26. |
| `Utils.NatToDecimal` | movie_booking/app/utils.py:6 | The column number renders as decimal digits with no leading zero. It has one digit iff the number is below 10. |
| `Utils.DecimalRoundTrip` | movie_booking/app/utils.py:6 | Reading back the digits of a column number gives that number. |
| `Utils.IntToDecimalInjective` | movie_booking/app/utils.py:6 | Different integers render differently. |
| `Utils.SeatCodeInjective` | movie_booking/app/utils.py:6 | A seat code determines its row letter and its column. |
| `Utils.RowCodes` | movie_booking/app/utils.py:6 | One row has `cols` codes, column 1 to cols in order. |
| `Utils.CodeFromRowCol` | movie_booking/app/utils.py:8-10 | Rows 1..26 take letters A..Z. Rows down to -25 index the alphabet from its end, as Python does. |
| `Utils.GridCodesLength` | movie_booking/app/utils.py:4-6 | The grid has one code per row letter and column. |
| `Utils.GridCodesAt` | movie_booking/app/utils.py:4-6 | Row-major order: row i, column j sits at index i·cols + j. |
| `Utils.GridCodesMembers` | movie_booking/app/utils.py:4-6 | A code is in the grid iff it names one of its rows and a column in 1..cols. |
| `Utils.RowCodesDistinct` | movie_booking/app/utils.py:6 | The codes of one row are distinct. |
| `Utils.GridCodesDistinct` | movie_booking/app/utils.py:4-6 | Distinct row letters give distinct codes. |
| `Utils.SeatCodesShape` | movie_booking/app/utils.py:4-6 | For 1 ≤ rows ≤ 26, `seat_codes` has rows × cols entries, all distinct. |
| `Utils.SeatCodesAt` | movie_booking/app/utils.py:4-10 | For 1 ≤ r ≤ rows and 1 ≤ c ≤ cols, entry (r-1)·cols + (c-1) of `seat_codes` is `code_from_row_col(r, c)`. |
| `Utils.SeatCodesMembership` | movie-booking/app/utils.py:4-10 | A code is a seat of the grid iff it is `code_from_row_col(r, c)` for some r in 1..rows and c in 1..cols. |
| `Utils.SeatTypeFor` | movie_booking/app/utils.py:12-17 | The type is "blocked" iff the code is disabled, "vip" iff it is vip and not disabled, and "standard" otherwise. |
| `Utils.Upper` | movie_booking/app/utils.py:22 | Upper-casing keeps the length and maps each ASCII lower-case letter to its capital. |
| `Utils.UpperIdempotent` | movie_booking/app/utils.py:22 | Upper-casing twice is upper-casing once. |
| `Utils.ApplyPromo` | movie_booking/app/utils.py:19-27 | For a total ≥ 0 the discount lies between 0 and the total. An absent or empty code gives 0. |
| `Utils.PromoCaseInsensitive` | movie_booking/app/utils.py:22-26 | Two codes that upper-case alike give the same discount. |
| `Utils.PromoTable` | movie-booking/app/utils.py:19-27 | DISCOUNT10 in any case gives a tenth of the total, STUDENT20 a fifth, and any other code 0. |
| `Utils.LowerCasePromo` | movie_booking/app/utils.py:22-27 | "discount10" gives 10%, "Student20" gives 20%, and "DISCOUNT20" gives nothing. |
| `Schemas.NewMovie` | movie_booking/app/crud.py:19 | The new movie has the issued id. A valid request gives a valid movie. |
| `Schemas.ApplyUpdate` | movie_booking/app/crud.py:27 | A partial update keeps the movie's id. |
| `Schemas.ApplyUpdateProperties` | movie_booking/app/schemas.py:29-34 | Each of the five fields (title, synopsis, duration, rating, genre): a supplied value overwrites it and an unsupplied one keeps it. An empty update changes nothing, and updating twice is updating once. A valid update of a valid movie keeps `duration_min ≥ 1`. |
| `Schemas.Split` | movie_booking/app/schemas.py:65 | `split` yields one more piece than there are separators, and no piece contains the separator. |
| `Schemas.JoinSplit` | movie_booking/app/schemas.py:65 | Joining the pieces of a split gives back the string. |
| `Schemas.SplitJoin` | movie_booking/app/schemas.py:71 | Splitting a join of separator-free pieces gives back the pieces. |
| `Schemas.ValidatorsCountSeparators` | movie_booking/app/schemas.py:63-73 | `day` is accepted iff it holds exactly two '-'. `time` is accepted iff it holds exactly one ':'. |
| `Schemas.DocumentedFormatsAccepted` | movie_booking/app/schemas.py:41-42 | The documented examples "2025-10-15" and "19:00" pass the validators. |
| `Schemas.NonDatesAccepted` | movie-booking/app/schemas.py:63-73 | The validators only count pieces, so "--" and "x:" pass. |
| `Schemas.OtherSeparatorsRejected` | movie_booking/app/schemas.py:63-73 | "2025/10/15" and "19:00:00" are refused. |
| `Schemas.NewShowtime` | movie_booking/app/crud.py:43 | The showtime carries the issued id and the movie id. Its grid and price are the request's, and a valid request gives a valid showtime. |
| `SeatInventory.InitialSeatMapShape` | movie-booking/app/storage.py:47-59 | A fresh seat map has exactly the grid codes as keys. A seat is blocked iff it is disabled, and available otherwise. Disabled codes off the grid add no key. |
| `SeatInventory.Mark` | movie_booking/app/crud.py:126-127 | After the writes, each listed seat has the new status and every other seat keeps its status. Listed codes become keys, as a dict assignment does. |
| `SeatInventory.HeldMembers` | movie_booking/app/crud.py:145 | A seat is held by a list of cart lines iff some line holds it. |
| `SeatInventory.HeldAppend` | movie_booking/app/crud.py:131 | Appending lines adds exactly their seats to the held set. |
| `SeatInventory.MarkLines` | movie_booking/app/crud.py:214-218 | After marking every line, a seat held by a line has the new status. Every other seat keeps its status, and the showtime keys do not change. |
| `SeatInventory.LayoutGrid` | movie_booking/app/crud.py:73-82 | The grid has one row per grid row. |
| `SeatInventory.LayoutRowFull` | movie_booking/app/crud.py:75-81 | When every code of a row is on the map, the row has one cell per column, and cell j is seat (r, c + j). |
| `SeatInventory.LayoutOfFullMap` | movie_booking/app/crud.py:73-82 | When the map holds the code of every seat of the grid, the grid is full rows × cols and cell [i][j] is seat (i+1, j+1) with its status and type. |
| `SeatInventory.LayoutOfCompleteMap` | movie_booking/app/crud.py:73-82 | A map over exactly the grid codes gives a full rows × cols grid. Cell [i][j] is seat (i+1, j+1) with its status and type. |
| `CartRules.ReservationError` | movie_booking/app/crud.py:119-123 | The error is absent iff every requested seat exists and is available. Otherwise it names the first bad seat in request order: "does not exist" when the seat is missing, "not available" when it is present. |
| `CartRules.Keep` | movie_booking/app/crud.py:157 | A seat is kept iff it is in the line and not requested. Nothing is added. |
| `CartRules.Requested` | movie_booking/app/crud.py:159-161 | A seat is released iff it is in the line and requested. |
| `CartRules.KeepShorterIffRequested` | movie_booking/app/crud.py:157-158 | The kept list is shorter iff the line holds some requested seat. |
| `CartRules.KeepIsSubsequence` | movie_booking/app/crud.py:157 | The kept seats keep their order. |
| `CartRules.Remaining` | movie_booking/app/crud.py:145-167 | The new cart has no more lines than the old. |
| `CartRules.Releases` | movie_booking/app/crud.py:149-161 | There is one release per line, for the same showtime. |
| `CartRules.UntouchedCartUnchanged` | movie_booking/app/crud.py:169-170 | The error is raised exactly when no line was touched. The cart would then be unchanged. |
| `CartRules.RemainingDropsTargets` | movie_booking/app/crud.py:149-165 | No line carrying the removed id survives, and no requested seat stays in the cart. |
| `CartRules.RemainingKeepsUntouched` | movie_booking/app/crud.py:167 | Every untouched line survives as it was. |
| `CartRules.RemainingKeepsOrder` | movie_booking/app/crud.py:145-167 | The untouched lines keep their relative order. |
| `CartRules.RemainingComesFromCart` | movie_booking/app/crud.py:157-164 | Every surviving line comes from a line of the old cart, with the same id and showtime and an ordered subset of its seats. |
| `CartRules.UnreservedIn` | movie_booking/app/crud.py:204-206 | The check of one line fails iff some seat of it is not reserved, and it reports such a seat. |
| `CartRules.FirstUnreserved` | movie_booking/app/crud.py:200-206 | The check of the whole cart fails iff some seat of some line is not reserved, and it reports such a seat. |
| `CartRules.CartTotal` | movie_booking/app/crud.py:179-182 | With non-negative prices the total is non-negative, and an empty cart totals 0. |
| `CartRules.CartItems` | movie_booking/app/crud.py:183 | There is one priced item per cart line. |
| `CartRules.CartTotalIsSumOfItems` | movie_booking/app/crud.py:179-184 | The total is the sum of the reported subtotals. |
| `CartRules.AmountPaidOfPromo` | movie_booking/app/crud.py:211-212 | For a total ≥ 0 the amount paid is the total less the discount, between 0 and the total. It is 90% with DISCOUNT10 and 80% with STUDENT20. |
| `Consistency.LinesDisjointAppend` | movie_booking/app/crud.py:131 | A cart with a line appended holds no seat twice iff neither part does and the two parts share no seat. |
| `Consistency.HeldRemaining` | movie_booking/app/crud.py:145-167 | A removal releases only seats the cart holds. The new cart holds exactly the rest, and still no seat twice. |
| `Consistency.ReservePreserves` | movie_booking/app/crud.py:119-132 | Reserving available seats into a line appended to a cart keeps "reserved iff held by one line". Blocked and booked seats keep their status. |
| `Consistency.ReleasePreserves` | movie_booking/app/crud.py:145-172 | A removal keeps "reserved iff held by one line". Blocked and booked seats keep their status. |
| `Consistency.BookPreserves` | movie_booking/app/crud.py:214-219 | Booking a whole cart and emptying it keeps "reserved iff held by one line". Blocked seats stay blocked and booked seats stay booked. |
| `Consistency.CartSeatsStayReserved` | movie_booking/app/crud.py:202-206 | Under the invariant every seat of a cart is still reserved, so checkout's check never fails. |
| `Consistency.RestrictPreserves` | movie-booking/app/storage.py:33-38 | Dropping showtimes from the seat maps keeps the invariant. |
| `Consistency.AddMapPreserves` | movie-booking/app/storage.py:59 | Adding a seat map with no reserved seat, for a showtime no cart names, keeps the invariant. |
| `Storage.OrEmpty` | movie-booking/app/storage.py:50-52 | An absent list becomes the empty list. |
| `Storage.DropKeeps` | movie-booking/app/storage.py:33-39 | Popping keys leaves exactly the other keys, each still once. |
| `Storage.DropAppend` | movie-booking/app/storage.py:33-39 | Popping from two parts of a key list is popping from each part. |
| `Storage.DropNothing` | movie-booking/app/storage.py:31-32 | Popping keys that are not there leaves the order as it was. |
| `Storage.Restrict` | movie-booking/app/storage.py:33-38 | Dropping keys keeps exactly the other entries, with their values. |
| `Storage.FilteredIds` | movie-booking/app/storage.py:64-66 | The kept ids are exactly the ids of the order whose showtime matches the filter, and there are no more of them than in the order. |
| `Storage.FilteredIdsInOrder` | movie-booking/app/storage.py:64-66 | The kept ids are a subsequence of the insertion order. |
| `Storage.FilteredIdsDistinct` | movie-booking/app/storage.py:64-66 | When the order holds each id once, so do the kept ids. |
| `Storage.Filtered` | movie-booking/app/storage.py:64-66 | `list_showtimes` returns, position by position, the showtimes of the kept ids: every stored showtime of the movie and nothing else. |
| `Storage.ListingInOrder` | movie-booking/app/storage.py:64-66 | In a store whose showtimes sit under their own ids, the listing holds every matching showtime, only matching ones, in insertion order, and no id twice. |
| `Storage.FilteredAll` | movie-booking/app/storage.py:64-66 | With no movie given, it returns every showtime in insertion order. |
| `Storage.CascadeDone` | movie-booking/app/storage.py:33-38 | After the loop over the showtime keys, exactly the showtimes of the movie are gone from all four dictionaries and from the key order. |
| `Storage.CascadeDelete` | movie-booking/app/storage.py:33-38 | The cascade loop removes from all four per-showtime dictionaries exactly the showtimes of the movie and leaves every other entry. |
| `Storage.DeleteKeepsInvariant` | movie-booking/app/storage.py:30-40 | Deleting a movie with its showtimes keeps the store invariant. |
| `Storage.SaveShowtimeKeepsInvariant` | movie-booking/app/storage.py:43-62 | Storing a fresh valid showtime keeps the store invariant. |
| `Storage.ReserveKeepsInvariant` | movie_booking/app/crud.py:119-132 | Reserving available seats into a new cart line keeps the store invariant. |
| `Storage.ReleaseKeepsInvariant` | movie_booking/app/crud.py:145-172 | A removal from a cart keeps the store invariant. |
| `Storage.BookKeepsInvariant` | movie_booking/app/crud.py:214-219 | Booking and emptying a cart keeps the store invariant. |
| `Storage.OrderAppend` | movie-booking/app/storage.py:24 | A new key goes at the end of the insertion order. |
| `Storage.InitialMap` | movie-booking/app/storage.py:46-57 | The loops of `save_showtime` build the map with every grid code, blocked iff disabled. |
| `MemoryStore.Store.constructor` | movie-booking/app/storage.py:7-20 | The store starts with every dictionary empty and both counters at 1. |
| `MemoryStore.Store.NextMovieId` | movie-booking/app/storage.py:17-19 | The counter yields its value and moves up by one, so no stored movie has that id. |
| `MemoryStore.Store.NextShowtimeId` | movie-booking/app/storage.py:18-20 | The counter yields its value and moves up by one. No stored showtime and no cart line has that id. |
| `MemoryStore.Store.SaveMovie` | movie-booking/app/storage.py:23-25 | The movie is stored under its id. A new id goes at the end of the order. |
| `MemoryStore.Store.GetMovie` | movie-booking/app/storage.py:27 | A movie is found iff it is stored, and it is stored under its own id. |
| `MemoryStore.Store.ListMovies` | movie-booking/app/storage.py:28 | The list is every stored movie, in insertion order. |
| `MemoryStore.Store.DeleteMovie` | movie-booking/app/storage.py:30-40 | An unknown id returns false and changes nothing. A known id removes the movie and exactly its showtimes with their seat maps, booked sets and metadata. All other entries stay. |
| `MemoryStore.Store.SaveShowtime` | movie-booking/app/storage.py:43-62 | The showtime is stored with a fresh seat map, an empty booked set and its metadata. |
| `MemoryStore.Store.ListShowtimes` | movie-booking/app/storage.py:64-66 | The result is exactly the stored showtimes of the movie, as the matching subsequence of the insertion order with no id twice; with no movie given it is all of them in insertion order. |
| `MemoryStore.Store.GetCart` | movie-booking/app/storage.py:73-74 | An unknown user has the empty cart. |
| `MemoryStore.Store.SetCart` | movie-booking/app/storage.py:76-77 | The user's cart is replaced and no other user's cart changes. |
| `Crud.MarkSeats` | movie_booking/app/crud.py:126-127 | The loop of status writes computes `Mark`. |
| `Crud.ReleaseRequested` | movie_booking/app/crud.py:159-161 | The loop frees exactly the requested seats of the line. |
| `Crud.ReleaseLine` | movie_booking/app/crud.py:146-167 | One pass of the removal loop frees the line's released seats, returns what is kept of the line, and reports whether the line was touched. A line of a deleted showtime that releases nothing writes nothing. |
| `Crud.ReleasedStep` | movie_booking/app/crud.py:145-167 | Each pass of the removal loop advances the released seat maps, the kept lines and the changed flag by one line. |
| `Crud.ReleasedDone` | movie_booking/app/crud.py:169 | After the loop, `changed` is true iff some line was touched. |
| `Crud.ReleaseLines` | movie_booking/app/crud.py:141-167 | The removal loop frees the released seats of every line, builds the remaining cart, and sets `changed` iff some line was touched. |
| `Crud.FindUnreserved` | movie_booking/app/crud.py:204-206 | The loop stops at the first seat of the line that is not reserved. |
| `Crud.PricedStop` | movie_booking/app/crud.py:204-206 | The first line that fails the check decides checkout's error. |
| `Crud.PricedDone` | movie_booking/app/crud.py:198-209 | A loop that checked every line leaves the full priced list and the total. |
| `Crud.PriceCart` | movie_booking/app/crud.py:198-209 | The first checkout loop fails with the first unreserved seat. Otherwise it yields the priced items and the total. |
| `Crud.Summarize` | movie_booking/app/crud.py:176-184 | The summary loop yields one priced item per line, and the total is the sum of their subtotals. The total is non-negative for non-negative prices. |
| `Crud.BookLines` | movie_booking/app/crud.py:214-218 | The finalising loop books every seat of every line. |
| `Crud.BuildRow` | movie_booking/app/crud.py:75-81 | The inner layout loop builds the row's cells and skips codes missing from the map. |
| `Crud.BuildGrid` | movie_booking/app/crud.py:73-82 | The outer layout loop builds one row per grid row. |
| `Crud.CreateMovie` | movie_booking/app/crud.py:17-20 | The new movie gets the next id, which was not in use. It is stored and its id goes at the end of the order; the counter moves up by one, and no other field of the store may change. |
| `Crud.UpdateMovie` | movie_booking/app/crud.py:22-28 | A missing movie is a 404 and changes nothing. Otherwise the movie is replaced by its update, under the same id and in the same place of the order. Only the movies and their order may change. |
| `Crud.DeleteMovie` | movie_booking/app/crud.py:30-33 | The result is a 404 iff the movie is missing. Otherwise the movie and exactly its showtimes are gone from the movies, the showtimes, both key orders, the seat maps, the booked sets and the metadata; every other entry stays, and carts and counters are untouched. |
| `Crud.CreateShowtime` | movie_booking/app/crud.py:39-44 | A missing movie is a 404 and changes nothing. Otherwise the showtime gets the next id, which was not in use, goes at the end of the order, and gets a fresh seat map, an empty booked set and its metadata. Movies and carts are untouched. |
| `Crud.GetSeatsStatus` | movie_booking/app/crud.py:50-55 | The result is a 404 iff the showtime is missing. In a valid store the map covers exactly the grid, and a seat is blocked iff it is disabled. |
| `Crud.GetSeatLayout` | movie_booking/app/crud.py:57-101 | The result is a 404 iff the showtime is missing. Otherwise the grid is full rows × cols, and cell [i][j] is seat (i+1, j+1) with its current status and its seat type. |
| `Crud.AddToCart` | movie_booking/app/crud.py:107-134 | A missing showtime is a 404. The first missing or unavailable seat is a 400. On either error nothing changes. Otherwise exactly the requested seats become reserved and one line goes at the end of the user's cart. The subtotal counts every requested seat. A live showtime whose requested seats are all present and available always succeeds. Only seat maps and carts may change, and the store invariant holds throughout. |
| `Crud.ReleaseNothing` | movie_booking/app/crud.py:169-170 | When no line is touched the loop writes no seat. |
| `Crud.RemoveFromCart` | movie_booking/app/crud.py:136-172 | The result is a 400 iff no line is touched, and then nothing changes. Otherwise the released seats become available and the cart keeps the rest. Only seat maps and carts may change. |
| `Crud.GetCartSummary` | movie_booking/app/crud.py:174-184 | There is one priced item per line. The total is their sum, and it is non-negative in a valid store. |
| `Crud.BookCart` | movie_booking/app/crud.py:214-219 | Every seat of the cart becomes booked, the cart becomes empty, and the store invariant holds. Only seat maps and carts may change. |
| `Crud.BookingCode` | movie_booking/app/crud.py:221 | The code is "BKG-" followed by the upper-cased first ten characters of the token. |
| `Crud.Checkout` | movie_booking/app/crud.py:190-236 | The result is a 400 iff the cart is empty, and then nothing changes; a non-empty cart always succeeds. Every seat is then booked and the cart is emptied, and only seat maps and carts change. The booking records the total, the promo discount and `max(0, total − discount)`. |
| `Crud.CheckoutNeverStale` | movie_booking/app/crud.py:195-212 | In a valid store, checkout of a non-empty cart never meets an unreserved seat. The amount paid is the total less the discount. |

## Left out

- The booking ledger is not modelled: saving a booking at checkout, `get_booking` and `list_user_bookings` (movie_booking/app/crud.py:235, 242-251). The storage functions they call are not in movie-booking/app/storage.py, and movie_booking/app/storage.py is not part of this model. `Crud.Checkout` returns the booking and does not store it.
- HTTP routing (main.py) is not modelled. Exception message texts become `Error` values; the legend strings of the layout (movie_booking/app/crud.py:90-99) are left out.
- Random ids and the clock become parameters: the uuid text that yields the cart item id, the hex token of the booking code, and the timestamp. The model does not assume they are unique. Two cart lines may therefore carry the same id, as in the source.
- Money is `real`: prices, subtotals and promo amounts are exact, with no floating-point rounding.
- `Utils.Upper`: upper-casing is modelled for ASCII letters only. Python's `str.upper` also maps other characters, some of them to two characters.
- Pydantic's validation machinery is not modelled; only the field bounds and validators are, as predicates that the store operations require. An update that sets a field to an explicit null is not modelled: each update field is either supplied or not.
- `Crud.GetCartSummary`, `Crud.Checkout`: they require every line of the user's cart to name a live showtime. After `delete_movie`, cart lines can name a deleted showtime, and the source then fails: `checkout` on the missing seat map at movie_booking/app/crud.py:205, or on the price of the missing showtime at line 207 when the line holds no seat; `get_cart_summary` on that price at line 181. The model keeps such lines in the carts and only rules out calling these operations on them.
- `Crud.RemoveFromCart`: requires every line that releases a seat to name a live showtime. The source fails writing into the missing seat map of such a line (movie_booking/app/crud.py:151, 161); a line of a deleted showtime that releases nothing is handled as in the source. In the excluded case the source also leaves a half-written state: the seats that earlier lines released are already available, but `set_cart` is never reached, so they stay in the cart.
- `Crud.Checkout`: the 400 for a seat that is no longer reserved (movie_booking/app/crud.py:204-205) is never raised, since every valid store keeps each cart seat reserved (`Crud.CheckoutNeverStale`). The check itself is modelled by `Crud.PriceCart`.
- Request parsing, including the default `top` for `screen_side` (movie_booking/app/schemas.py:49), is not modelled: a showtime request is the parsed value, with defaults already filled in.
- `MemoryStore.Store.SaveMovie`: requires a valid movie whose id the counter has already issued. The source stores any movie, but only ever saves ones built this way.
- `MemoryStore.Store.SaveShowtime`: requires a valid showtime with a fresh id that no cart line names. The source stores any showtime, but only ever saves fresh ones built from a valid request.
- The lists returned by `get_cart` are the stored lists themselves, and `add_to_cart` appends to one in place before `set_cart`. The model passes carts by value, which gives the same final state.
- Concurrency: the source has no locking, and the model has none either.
