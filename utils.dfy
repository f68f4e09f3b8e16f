/**
 * Pure helpers of the booking service: seat-code generation, the code of a
 * grid position, the seat-type classification and the promo-code lookup.
 * The two copies of utils.py in the repository are byte-identical; this
 * module models both.
 */
module Utils {
  import opened Common

  // ---------------------------------------------------------------------
  // Python's string.ascii_uppercase, slicing and str() of an integer
  // ---------------------------------------------------------------------

  /** string.ascii_uppercase. */
  const Uppercase: string := "ABCDEFGHIJKLMNOPQRSTUVWXYZ"

  /** The letters of the alphabet by code point: 'A' + i. */
  function AsciiLetters(): (r: string)
    ensures |r| == 26
  {
    seq(26, i requires 0 <= i < 26 => (('A' as int) + i) as char)
  }

  /** The i-th upper-case letter is 'A' + i, so the 26 letters are distinct. */
  lemma UppercaseIsAsciiAlphabet()
    ensures |Uppercase| == 26
    ensures forall i :: 0 <= i < 26 ==> Uppercase[i] == (('A' as int) + i) as char
    ensures Distinct(Uppercase)
  {
    assert Uppercase == AsciiLetters();
  }

  /** Python's `s[:n]` for any integer n (a negative n counts from the end). */
  function PrefixSlice(s: string, n: int): (r: string)
    ensures |r| <= |s| && r == s[..|r|]
    ensures 0 <= n ==> |r| == if n <= |s| then n else |s|
    ensures n < 0 ==> |r| == if |s| + n >= 0 then |s| + n else 0
  {
    if n >= 0 then s[..if n <= |s| then n else |s|]
    else s[..if |s| + n >= 0 then |s| + n else 0]
  }

  /** The row letters: the first rows letters of the alphabet (fewer when rows > 26). */
  function RowLetters(rows: int): (r: string)
    ensures 1 <= rows <= 26 ==> |r| == rows
    ensures |r| <= 26 && r == Uppercase[..|r|]
  {
    PrefixSlice(Uppercase, rows)
  }

  function Digit(d: nat): (c: char)
    requires d < 10
    ensures '0' <= c <= '9'
  {
    (('0' as int) + d) as char
  }

  predicate IsDigit(c: char) {
    '0' <= c <= '9'
  }

  /** Python's `str(n)` for a natural number: decimal, no leading zero. */
  function NatToDecimal(n: nat): (r: string)
    ensures |r| >= 1
    ensures forall k :: 0 <= k < |r| ==> IsDigit(r[k])
    ensures n >= 10 ==> |r| >= 2 && r[0] != '0'
    ensures n < 10 <==> |r| == 1
  {
    if n < 10 then [Digit(n)] else NatToDecimal(n / 10) + [Digit(n % 10)]
  }

  /** The value of a string of decimal digits (Python's `int(s)` on digits). */
  function DecimalValue(s: string): int
    requires forall k :: 0 <= k < |s| ==> IsDigit(s[k])
  {
    if s == [] then 0
    else DecimalValue(s[..|s| - 1]) * 10 + ((s[|s| - 1] as int) - ('0' as int))
  }

  /** Reading back what str(n) writes gives n. */
  lemma {:induction false} DecimalRoundTrip(n: nat)
    ensures DecimalValue(NatToDecimal(n)) == n
  {
    var r := NatToDecimal(n);
    if n >= 10 {
      DecimalRoundTrip(n / 10);
      assert r[..|r| - 1] == NatToDecimal(n / 10);
    }
  }

  lemma NatToDecimalInjective(a: nat, b: nat)
    requires NatToDecimal(a) == NatToDecimal(b)
    ensures a == b
  {
    DecimalRoundTrip(a);
    DecimalRoundTrip(b);
  }

  /** Python's decimal rendering of any integer. */
  function IntToDecimal(i: int): (r: string)
    ensures |r| >= 1
    ensures i >= 0 ==> r == NatToDecimal(i)
    ensures i < 0 ==> r[1..] == NatToDecimal(-i)
    ensures r[0] == '-' <==> i < 0
  {
    if i < 0 then "-" + NatToDecimal(-i) else NatToDecimal(i)
  }

  lemma IntToDecimalInjective(a: int, b: int)
    requires IntToDecimal(a) == IntToDecimal(b)
    ensures a == b
  {
    var ra, rb := IntToDecimal(a), IntToDecimal(b);
    assert (a < 0) == (ra[0] == '-') == (rb[0] == '-') == (b < 0);
    if a < 0 {
      assert ra[1..] == rb[1..];
      NatToDecimalInjective(-a, -b);
    } else {
      NatToDecimalInjective(a, b);
    }
  }

  // ---------------------------------------------------------------------
  // seat_codes and code_from_row_col
  // ---------------------------------------------------------------------

  /** The code of one seat: the row letter followed by the column number. */
  function SeatCode(letter: char, col: int): string {
    [letter] + IntToDecimal(col)
  }

  lemma SeatCodeInjective(l1: char, c1: int, l2: char, c2: int)
    requires SeatCode(l1, c1) == SeatCode(l2, c2)
    ensures l1 == l2 && c1 == c2
  {
    assert SeatCode(l1, c1)[0] == l1 && SeatCode(l2, c2)[0] == l2;
    assert SeatCode(l1, c1)[1..] == IntToDecimal(c1);
    assert SeatCode(l2, c2)[1..] == IntToDecimal(c2);
    IntToDecimalInjective(c1, c2);
  }

  /** The codes of one row: the row letter with each column number from 1 to cols. */
  function RowCodes(letter: char, cols: int): (r: seq<string>)
    ensures |r| == if cols > 0 then cols else 0
    ensures forall j :: 0 <= j < |r| ==> r[j] == SeatCode(letter, j + 1)
  {
    seq(if cols > 0 then cols else 0, j => SeatCode(letter, j + 1))
  }

  /** Row-major concatenation of the rows named by `letters`. */
  function GridCodes(letters: string, cols: int): seq<string> {
    if letters == [] then [] else RowCodes(letters[0], cols) + GridCodes(letters[1..], cols)
  }

  /** seat_codes(rows, cols) (utils.py). */
  function SeatCodes(rows: int, cols: int): seq<string> {
    GridCodes(RowLetters(rows), cols)
  }

  /** code_from_row_col(row, col): the letter at index row - 1 of the alphabet,
      an index Python also accepts for a negative index down to -26 (row >= -25). */
  function CodeFromRowCol(row: int, col: int): (code: string)
    requires -25 <= row <= 26
    ensures 1 <= row ==> code == SeatCode(Uppercase[row - 1], col)
    ensures row < 1 ==> code == SeatCode(Uppercase[26 + row - 1], col)
  {
    var letter := if row >= 1 then Uppercase[row - 1] else Uppercase[26 + row - 1];
    SeatCode(letter, col)
  }

  lemma {:induction false} GridCodesLength(letters: string, cols: int)
    ensures |GridCodes(letters, cols)| == |letters| * (if cols > 0 then cols else 0)
  {
    if letters != [] {
      GridCodesLength(letters[1..], cols);
      var n := if cols > 0 then cols else 0;
      assert |letters| * n == n + (|letters| - 1) * n;
    }
  }

  lemma {:induction false} GridCodesAt(letters: string, cols: int, i: int, j: int, k: int)
    requires 0 <= i < |letters| && 0 <= j < cols && k == i * cols + j
    ensures 0 <= k < |GridCodes(letters, cols)|
    ensures GridCodes(letters, cols)[k] == SeatCode(letters[i], j + 1)
  {
    var row, rest := RowCodes(letters[0], cols), GridCodes(letters[1..], cols);
    assert GridCodes(letters, cols) == row + rest;
    if i > 0 {
      ShiftRow(i, cols, j);
      GridCodesAt(letters[1..], cols, i - 1, j, k - cols);
      assert (row + rest)[k] == rest[k - cols];
    }
  }

  lemma ShiftRow(i: int, cols: int, j: int)
    requires 0 < i && 0 <= j < cols
    ensures i * cols + j == cols + ((i - 1) * cols + j) >= cols
  {
  }

  /** Every code of a row-major grid starts with one of its row letters. */
  lemma {:induction false} GridCodesMembers(letters: string, cols: int, code: string)
    ensures code in GridCodes(letters, cols) <==>
      exists i, c :: 0 <= i < |letters| && 1 <= c <= cols && code == SeatCode(letters[i], c)
  {
    if letters != [] {
      GridCodesMembers(letters[1..], cols, code);
      var g := GridCodes(letters, cols);
      assert g == RowCodes(letters[0], cols) + GridCodes(letters[1..], cols);
      if code in g {
        if code in RowCodes(letters[0], cols) {
          var j :| 0 <= j < |RowCodes(letters[0], cols)| && RowCodes(letters[0], cols)[j] == code;
          assert code == SeatCode(letters[0], j + 1);
        } else {
          var i, c :| 0 <= i < |letters[1..]| && 1 <= c <= cols && code == SeatCode(letters[1..][i], c);
          assert code == SeatCode(letters[i + 1], c);
        }
      }
      if exists i, c :: 0 <= i < |letters| && 1 <= c <= cols && code == SeatCode(letters[i], c) {
        var i, c :| 0 <= i < |letters| && 1 <= c <= cols && code == SeatCode(letters[i], c);
        if i == 0 {
          assert RowCodes(letters[0], cols)[c - 1] == code;
        } else {
          assert code == SeatCode(letters[1..][i - 1], c);
        }
      }
    }
  }

  predicate Distinct<T(==)>(s: seq<T>) {
    forall i, j :: 0 <= i < j < |s| ==> s[i] != s[j]
  }

  lemma {:induction false} GridCodesDistinct(letters: string, cols: int)
    requires Distinct(letters)
    ensures Distinct(GridCodes(letters, cols))
  {
    if letters != [] {
      var row, rest := RowCodes(letters[0], cols), GridCodes(letters[1..], cols);
      GridCodesDistinct(letters[1..], cols);
      RowCodesDistinct(letters[0], cols);
      RowApartFromRest(letters, cols);
      DistinctConcat(row, rest);
      assert GridCodes(letters, cols) == row + rest;
    }
  }

  /** The codes of one row differ in their columns. */
  lemma RowCodesDistinct(letter: char, cols: int)
    ensures Distinct(RowCodes(letter, cols))
  {
    var row := RowCodes(letter, cols);
    forall i, j | 0 <= i < j < |row| ensures row[i] != row[j] {
      if row[i] == row[j] { SeatCodeInjective(letter, i + 1, letter, j + 1); }
    }
  }

  /** No code of the first row is a code of a later row. */
  lemma RowApartFromRest(letters: string, cols: int)
    requires Distinct(letters) && letters != []
    ensures forall i, j :: 0 <= i < |RowCodes(letters[0], cols)| && 0 <= j < |GridCodes(letters[1..], cols)| ==>
      RowCodes(letters[0], cols)[i] != GridCodes(letters[1..], cols)[j]
  {
    var row, rest := RowCodes(letters[0], cols), GridCodes(letters[1..], cols);
    forall i, j | 0 <= i < |row| && 0 <= j < |rest| ensures row[i] != rest[j] {
      assert rest[j] in rest;
      GridCodesMembers(letters[1..], cols, rest[j]);
      var k, c :| 0 <= k < |letters[1..]| && 1 <= c <= cols && rest[j] == SeatCode(letters[1..][k], c);
      assert rest[j][0] == letters[k + 1] != letters[0];
      assert row[i][0] == letters[0];
    }
  }

  /** Two duplicate-free sequences with nothing in common concatenate to a duplicate-free one. */
  lemma DistinctConcat<T>(a: seq<T>, b: seq<T>)
    requires Distinct(a) && Distinct(b)
    requires forall i, j :: 0 <= i < |a| && 0 <= j < |b| ==> a[i] != b[j]
    ensures Distinct(a + b)
  {
    var g := a + b;
    forall i, j | 0 <= i < j < |g| ensures g[i] != g[j] {
      if j < |a| {
        assert g[i] == a[i] && g[j] == a[j];
      } else if i < |a| {
        assert g[i] == a[i] && g[j] == b[j - |a|];
      } else {
        assert g[i] == b[i - |a|] && g[j] == b[j - |a|];
      }
    }
  }

  /** seat_codes has rows x cols entries, all distinct. */
  lemma SeatCodesShape(rows: int, cols: int)
    requires 1 <= rows <= 26 && 0 <= cols
    ensures |SeatCodes(rows, cols)| == rows * cols
    ensures Distinct(SeatCodes(rows, cols))
  {
    GridCodesLength(RowLetters(rows), cols);
    UppercaseIsAsciiAlphabet();
    GridCodesDistinct(RowLetters(rows), cols);
  }

  /** Row-major order: (r, c) sits at index (r - 1) * cols + (c - 1) and its
      code is code_from_row_col(r, c). */
  lemma SeatCodesAt(rows: int, cols: int, r: int, c: int)
    requires 1 <= r <= rows <= 26 && 1 <= c <= cols
    ensures 0 <= (r - 1) * cols + (c - 1) < |SeatCodes(rows, cols)| == rows * cols
    ensures SeatCodes(rows, cols)[(r - 1) * cols + (c - 1)] == CodeFromRowCol(r, c)
  {
    GridCodesLength(RowLetters(rows), cols);
    GridCodesAt(RowLetters(rows), cols, r - 1, c - 1, (r - 1) * cols + (c - 1));
  }

  /** A code is a seat of the grid iff it names a row 1..rows and a column 1..cols. */
  lemma SeatCodesMembership(rows: int, cols: int, code: string)
    requires 1 <= rows <= 26
    ensures code in SeatCodes(rows, cols) <==>
      exists r, c :: 1 <= r <= rows && 1 <= c <= cols && code == CodeFromRowCol(r, c)
  {
    var letters := RowLetters(rows);
    GridCodesMembers(letters, cols, code);
    if code in SeatCodes(rows, cols) {
      var i, c :| 0 <= i < |letters| && 1 <= c <= cols && code == SeatCode(letters[i], c);
      assert code == CodeFromRowCol(i + 1, c);
    }
    if exists r, c :: 1 <= r <= rows && 1 <= c <= cols && code == CodeFromRowCol(r, c) {
      var r, c :| 1 <= r <= rows && 1 <= c <= cols && code == CodeFromRowCol(r, c);
      assert code == SeatCode(letters[r - 1], c);
    }
  }

  // ---------------------------------------------------------------------
  // seat_type_for
  // ---------------------------------------------------------------------

  /** The strings "standard", "vip" and "blocked" returned by seat_type_for. */
  datatype SeatType = StandardSeat | VipSeat | BlockedSeat

  /** seat_type_for: disabled beats vip, vip beats standard. */
  function SeatTypeFor(code: string, vip: set<string>, disabled: set<string>): (t: SeatType)
    ensures t == BlockedSeat <==> code in disabled
    ensures t == VipSeat <==> code in vip && code !in disabled
    ensures t == StandardSeat <==> code !in vip && code !in disabled
  {
    if code in disabled then BlockedSeat
    else if code in vip then VipSeat
    else StandardSeat
  }

  // ---------------------------------------------------------------------
  // apply_promo
  // ---------------------------------------------------------------------

  function UpperChar(c: char): char {
    if 'a' <= c <= 'z' then ((c as int) - 32) as char else c
  }

  /** str.upper restricted to ASCII letters. */
  function Upper(s: string): (r: string)
    ensures |r| == |s|
    ensures forall k :: 0 <= k < |s| ==> r[k] == UpperChar(s[k])
  {
    seq(|s|, k requires 0 <= k < |s| => UpperChar(s[k]))
  }

  lemma UpperIdempotent(s: string)
    ensures Upper(Upper(s)) == Upper(s)
  {
  }

  const Discount10: string := "DISCOUNT10"
  const Student20: string := "STUDENT20"

  /** apply_promo(total, code): the discount amount. An absent or empty code,
      or a code that is neither promo after upper-casing, gives 0. */
  function ApplyPromo(total: real, code: Option<string>): (d: real)
    ensures total >= 0.0 ==> 0.0 <= d <= total
    ensures code == None || code == Some("") ==> d == 0.0
  {
    if code.None? || code.value == "" then 0.0
    else
      var c := Upper(code.value);
      if c == Discount10 then 0.10 * total
      else if c == Student20 then 0.20 * total
      else 0.0
  }

  /** The lookup is case-insensitive: codes that upper-case alike give the
      same discount. */
  lemma {:induction false} PromoCaseInsensitive(total: real, a: string, b: string)
    requires Upper(a) == Upper(b)
    ensures ApplyPromo(total, Some(a)) == ApplyPromo(total, Some(b))
  {
    assert |a| == |Upper(a)| == |Upper(b)| == |b|;
  }

  /** Exactly which codes are recognised, and for how much. */
  lemma PromoTable(total: real, code: string)
    ensures Upper(code) == Discount10 ==> ApplyPromo(total, Some(code)) == total / 10.0
    ensures Upper(code) == Student20 ==> ApplyPromo(total, Some(code)) == total / 5.0
    ensures Upper(code) != Discount10 && Upper(code) != Student20 ==>
      ApplyPromo(total, Some(code)) == 0.0
  {
  }

  lemma LowerCasePromo(total: real)
    ensures ApplyPromo(total, Some("discount10")) == total / 10.0
    ensures ApplyPromo(total, Some("Student20")) == total / 5.0
    ensures ApplyPromo(total, Some("DISCOUNT20")) == 0.0
  {
    assert Upper("discount10") == Discount10;
    assert Upper("Student20") == Student20;
    assert Upper("DISCOUNT20")[8] == '2';
  }
}
