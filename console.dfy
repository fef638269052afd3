/**
 * The console helpers of the load-test tool (test/create.js): the display
 * width of a string (one column per code unit up to 128, two otherwise), the
 * rows and columns such a string occupies on a console, and the repeating
 * `loop` driver, its timer delays left out.
 */
module Console {
  import opened Wrappers

  /** A UTF-16 code unit, what `str.charCodeAt(i)` yields. */
  type CodeUnit = x: int | 0 <= x < 0x1_0000

  /** The columns one code unit takes. */
  function UnitWidth(c: CodeUnit): nat {
    if 0 <= c <= 128 then 1 else 2
  }

  /** The display width of a string, a code unit at a time. */
  function DisplayWidth(s: seq<CodeUnit>): nat
    decreases |s|
  {
    if s == [] then 0 else DisplayWidth(s[..|s| - 1]) + UnitWidth(s[|s| - 1])
  }

  /** `getDisplayLength(str)` (test/create.js:35-45). */
  method GetDisplayLength(s: seq<CodeUnit>) returns (realLength: nat)
    ensures realLength == DisplayWidth(s)
  {
    realLength := 0;
    var i := 0;
    while i < |s|
      invariant 0 <= i <= |s|
      invariant realLength == DisplayWidth(s[..i])
    {
      assert s[..i + 1][..i] == s[..i];
      var charCode := s[i];
      if charCode >= 0 && charCode <= 128 {
        realLength := realLength + 1;
      } else {
        realLength := realLength + 2;
      }
      i := i + 1;
    }
    assert s[..i] == s;
  }

  /** Where a string ends on a console: full rows above, and the column on the last one. */
  datatype Occupancy = Occupancy(rows: int, columns: int)

  /**
   * `getStrOccRowColumns(str, outputStream)` (test/create.js:52-62), `width`
   * being `outputStream.columns` (`None` for a stream that has none). A zero
   * or missing width makes both results `NaN`, here `None`. The quotient is
   * truncated the way `parseInt` truncates a quotient written in plain decimal
   * notation; see "Findings" in README.md for quotients below 10^-6.
   */
  function RowsColumns(s: seq<CodeUnit>, width: Option<nat>): (r: Option<Occupancy>)
    ensures r.Some? <==> width.Some? && width.value > 0
    ensures r.Some? ==>
      r.value.rows * width.value + r.value.columns == DisplayWidth(s) &&
      0 <= r.value.columns < width.value
  {
    if width.None? || width.value == 0 then None
    else
      var length := DisplayWidth(s);
      var rows := length / width.value;
      Some(Occupancy(rows, length - rows * width.value))
  }

  /**
   * The same computation as the source writes it, for a positive width:
   * `parseInt` reads the text of the quotient, and JavaScript writes a
   * positive quotient below 10^-6 in exponent notation (`1e-7`), of which
   * `parseInt` keeps the leading digit.
   */
  function RowsColumnsAsWritten(length: nat, width: nat): (r: Occupancy)
    requires width > 0
    ensures r.rows * width + r.columns == length
  {
    var rows := if 0 < length && length * 1000000 < width then LeadingDigit(length, width) else length / width;
    Occupancy(rows, length - rows * width)
  }

  /** The leading decimal digit of `n / d` for `0 < n < d`. */
  function LeadingDigit(n: nat, d: nat): (r: nat)
    requires 0 < n < d
    ensures 1 <= r <= 9
    decreases d - n
  {
    if 10 * n < d then LeadingDigit(10 * n, d)
    else
      DigitQuotient(10 * n, d);
      10 * n / d
  }

  /** A quotient of at least one and below ten is a single digit. */
  lemma DigitQuotient(a: nat, d: nat)
    requires 0 < d <= a < 10 * d
    ensures 1 <= a / d <= 9
  {
    var q := a / d;
    assert q * d + a % d == a && 0 <= a % d < d;
    assert (q - 10) * d < 0 < (q + 1) * d;
  }

  /**
   * `loop(interval, count, func)` (test/create.js:16-27) with the delays left
   * out: `func` runs, `i` moves on, and another round is scheduled while
   * `++i < count`. Returns how many times `func` ran.
   */
  method Loop(count: real) returns (calls: nat)
    ensures calls >= 1
    ensures calls as real >= count
    ensures calls > 1 ==> ((calls - 1) as real) < count
    ensures count >= 1.0 && count == count.Floor as real ==> calls == count.Floor
  {
    var i := 0;
    calls := 1;
    i := i + 1;
    while (i as real) < count
      invariant i == calls && calls >= 1
      invariant calls > 1 ==> ((calls - 1) as real) < count
      decreases count.Floor + 1 - i
    {
      calls := calls + 1;
      i := i + 1;
    }
  }

  // ===== lemmas

  /** Every code unit takes one or two columns. */
  lemma {:induction false} WidthBounds(s: seq<CodeUnit>)
    ensures |s| <= DisplayWidth(s) <= 2 * |s|
    decreases |s|
  {
    if s != [] {
      WidthBounds(s[..|s| - 1]);
    }
  }

  /** The width equals the length exactly when every code unit is at most 128; 128 itself is narrow. */
  lemma {:induction false} WidthIsLength(s: seq<CodeUnit>)
    ensures DisplayWidth(s) == |s| <==> forall i :: 0 <= i < |s| ==> s[i] <= 128
    decreases |s|
  {
    if s != [] {
      var init := s[..|s| - 1];
      WidthIsLength(init);
      WidthBounds(init);
      assert forall i :: 0 <= i < |init| ==> init[i] == s[i];
    }
  }

  /** A width far beyond the display length makes `parseInt` read `1e-7` as one full row. */
  lemma TinyQuotientCounterexample()
    ensures RowsColumnsAsWritten(1, 10000000) == Occupancy(1, -9999999)
  {
  }
}
