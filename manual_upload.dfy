/**
 * `scripts/manualUpload.ts`, the reading half: cell conversions
 * (`parseNumber`, `excelDateToDate`, `toISODateNY`), the header lookup
 * `findColumn`, and `parseTransactions`, which reads the data rows from row
 * 24 up to the first row holding a `TOTAL` cell, keeps the rows with a
 * transaction id and a local day, and counts them per day and per id.
 */
module ManualUpload {
  import opened Wrappers
  import opened Text
  import opened Js
  import opened Sheet
  import Calendar
  import Eastern

  // ---------------------------------------------------------------- cells

  /**
   * `parseNumber`: a number passes, a text keeps only its digits, dots and
   * minus signs and must then read as a finite number; a blank cell, an empty
   * text and every other kind of cell give null (None).
   */
  function ParseNumberCell(c: Cell): (r: Option<real>)
    ensures c.Number? ==> r == Some(c.number)
    ensures !c.Number? && !c.Text? ==> r.None?
    ensures c.Text? && Keep(c.text, IsNumeralChar) == [] ==> r.None?
  {
    match c
    case Number(x) => Some(x)
    case Text(s) =>
      var cleaned := Keep(s, IsNumeralChar);
      if cleaned == [] then None
      else
        (match ParseNumber(cleaned)
         case Finite(x) => Some(x)
         case _ => None)
    case _ => None
  }

  /** A number written out by `String(x)` reads back as `x`. */
  lemma NumberTextReadsBack(x: real)
    requires IsShortDecimal(x)
    ensures ParseNumberCell(Text(NumberToString(x))) == Some(x)
  {
    hide ParseNumber, NumberToString;
    NumberToStringEnds(x);
    NumberToStringNumeral(x);
    ParseNumberToString(x);
    assert Keep(NumberToString(x), IsNumeralChar) == NumberToString(x);
  }

  /** Currency signs, separators and blanks around an amount are ignored. */
  lemma NoiseIgnored(before: string, s: string, after: string)
    requires forall i :: 0 <= i < |before| ==> !IsNumeralChar(before[i])
    requires forall i :: 0 <= i < |after| ==> !IsNumeralChar(after[i])
    ensures ParseNumberCell(Text(before + s + after)) == ParseNumberCell(Text(s))
  {
    hide ParseNumber, ParseNumberCell;
    assert Keep(before + s + after, IsNumeralChar) == Keep(s, IsNumeralChar) by {
      KeepNone(before, IsNumeralChar);
      KeepNone(after, IsNumeralChar);
      KeepAppend(before, s, IsNumeralChar);
      KeepAppend(before + s, after, IsNumeralChar);
    }
    SameNumerals(before + s + after, s);
  }

  /** Texts with the same digits, dots and minus signs read alike. */
  lemma SameNumerals(s: string, t: string)
    requires Keep(s, IsNumeralChar) == Keep(t, IsNumeralChar)
    ensures ParseNumberCell(Text(s)) == ParseNumberCell(Text(t))
  {
    hide ParseNumber;
  }

  /**
   * Where `parseNumber` and the other scripts' `cellToNumber` agree: on
   * numbers and texts, with 0 standing for null.
   */
  lemma ParseNumberAgreesWithCellToNumber(c: Cell)
    requires c.Number? || c.Text? || c.Empty?
    ensures CellToNumber(c) == ParseNumberCell(c).GetOr(0.0)
  {
    hide ParseNumber;
    if c.Text? {
      forall ch | IsSpace(ch) ensures !IsNumeralChar(ch) {}
      KeepTrim(c.text, IsNumeralChar);
    }
  }

  /** `Date.UTC(1899, 11, 30)`, day 0 of spreadsheet serial dates. */
  const ExcelEpoch: int := -2209161600000

  lemma ExcelEpochIsDateUtc()
    ensures Calendar.DateUtc(1899, 11, 30, 0, 0, 0) == Some(ExcelEpoch)
  {
  }

  /**
   * `excelDateToDate`: a date cell is its own time; a serial number counts
   * days from 1899-12-30; a text has its first spaced dash replaced and is
   * read by the date parser; anything else is null.
   */
  function ExcelDateToDate(env: Eastern.Oracles, c: Cell): (r: Option<int>)
    ensures c.Date? ==> r == Some(c.time)
    ensures c.Text? ==> r == env.parseDate(ReplaceFirstSpacedDash(c.text))
    ensures !c.Date? && !c.Number? && !c.Text? ==> r.None?
  {
    match c
    case Date(t) => Some(t)
    case Number(x) => Eastern.TimeClip(Finite(ExcelEpoch as real + x * Calendar.MsPerDay as real))
    case Text(s) => env.parseDate(ReplaceFirstSpacedDash(s))
    case _ => None
  }

  /** A whole serial number is the UTC midnight that many days after 1899-12-30. */
  lemma ExcelSerialWholeDays(env: Eastern.Oracles, n: int)
    requires -70000000 <= n <= 70000000
    ensures ExcelDateToDate(env, Number(n as real)) == Some(ExcelEpoch + n * Calendar.MsPerDay)
    ensures Calendar.TimeInDay(ExcelEpoch + n * Calendar.MsPerDay) == 0
  {
    var t := ExcelEpoch + n * Calendar.MsPerDay;
    assert t == (n - 25569) * 86400000;
    assert -Calendar.MaxTime <= t <= Calendar.MaxTime;
    assert ExcelEpoch as real + (n as real) * Calendar.MsPerDay as real == t as real;
    assert Js.Trunc(t as real) == t;
    Calendar.DayOfMultiple(n - 25569);
  }

  /** Serial 25569 is the Unix epoch. */
  lemma ExcelSerialUnixEpoch(env: Eastern.Oracles)
    ensures ExcelDateToDate(env, Number(25569.0)) == Some(0)
  {
    ExcelSerialWholeDays(env, 25569);
  }

  /** `s.replace(/\s+-\s+/, " ")`: only the first dash with white space on both sides becomes one blank. */
  function ReplaceFirstSpacedDash(s: string): (r: string)
    ensures |r| <= |s|
    decreases |s|
  {
    if s == [] then []
    else if IsSpace(s[0]) then
      var rest := TrimStart(s);
      var j := |s| - |rest|;
      if |rest| > 1 && rest[0] == '-' && IsSpace(rest[1]) then " " + TrimStart(rest[1..])
      else s[..j] + ReplaceFirstSpacedDash(rest)
    else [s[0]] + ReplaceFirstSpacedDash(s[1..])
  }

  /** Text without a spaced dash passes through unchanged. */
  lemma {:induction false} ReplaceFirstUnchanged(s: string)
    requires NoSpacedDash(s)
    ensures ReplaceFirstSpacedDash(s) == s
    decreases |s|
  {
    hide NoSpacedDash, TrimStart, IsSpace, ReplaceFirstSpacedDash;
    if s == [] {
      ReplaceEmpty();
    } else if IsSpace(s[0]) {
      var rest := TrimStart(s);
      var j: nat := |s| - |rest|;
      assert rest == s[j..];
      assert !(|rest| > 1 && rest[0] == '-' && IsSpace(rest[1])) by {
        if |rest| > 1 && rest[0] == '-' && IsSpace(rest[1]) {
          NotSpacedAt(s, j);
          assert false;
        }
      }
      assert ReplaceFirstSpacedDash(rest) == rest by {
        NoSpacedDashSuffix(s, j);
        ReplaceFirstUnchanged(rest);
      }
      ReplaceAfterSpaces(s);
      assert s[..j] + rest == s;
    } else {
      assert ReplaceFirstSpacedDash(s[1..]) == s[1..] by {
        NoSpacedDashSuffix(s, 1);
        ReplaceFirstUnchanged(s[1..]);
      }
      ReplaceAfterWordChar(s);
      assert [s[0]] + s[1..] == s;
    }
  }

  lemma ReplaceEmpty()
    ensures ReplaceFirstSpacedDash([]) == []
  {
  }

  /** White space not followed by a spaced dash is kept. */
  lemma ReplaceAfterSpaces(s: string)
    requires s != [] && IsSpace(s[0])
    requires !(|TrimStart(s)| > 1 && TrimStart(s)[0] == '-' && IsSpace(TrimStart(s)[1]))
    ensures ReplaceFirstSpacedDash(s) == s[..|s| - |TrimStart(s)|] + ReplaceFirstSpacedDash(TrimStart(s))
  {
    hide TrimStart, IsSpace;
  }

  /**
   * Only the first spaced dash is replaced: after a word without white
   * space, ` - ` becomes one blank and the rest is kept as it is, spaced
   * dashes included.
   */
  lemma {:induction false} ReplaceFirstOnly(a: string, b: string)
    requires forall i :: 0 <= i < |a| ==> !IsSpace(a[i])
    requires b == [] || !IsSpace(b[0])
    ensures ReplaceFirstSpacedDash(a + " - " + b) == a + " " + b
    decreases |a|
  {
    hide TrimStart, IsSpace;
    var s := a + " - " + b;
    if a == [] {
      assert s == " - " + b;
      ReplaceAtDash(b);
    } else {
      assert s[0] == a[0] && !IsSpace(s[0]);
      assert s[1..] == a[1..] + " - " + b;
      ReplaceFirstOnly(a[1..], b);
      ReplaceAfterWordChar(s);
      assert [a[0]] + (a[1..] + " " + b) == a + " " + b;
    }
  }

  /** A leading character that is not white space is kept. */
  lemma ReplaceAfterWordChar(s: string)
    requires s != [] && !IsSpace(s[0])
    ensures ReplaceFirstSpacedDash(s) == [s[0]] + ReplaceFirstSpacedDash(s[1..])
  {
  }

  /** A text opening with ` - ` has that dash replaced by one blank. */
  lemma ReplaceAtDash(b: string)
    requires b == [] || !IsSpace(b[0])
    ensures ReplaceFirstSpacedDash(" - " + b) == " " + b
  {
    var s := " - " + b;
    assert s[0] == ' ' && s[1] == '-' && s[2] == ' ';
    assert IsSpace(' ') && !IsSpace('-');
    var rest := s[1..];
    assert rest[1..] == s[2..] && s[2..][1..] == b;
    TrimStartOne(s);
    TrimStartOne(s[2..]);
    hide TrimStart;
    assert TrimStart(s) == rest && TrimStart(rest[1..]) == b;
  }

  /** One blank before a non-blank is trimmed away. */
  lemma TrimStartOne(s: string)
    requires |s| >= 1 && IsSpace(s[0]) && (|s| == 1 || !IsSpace(s[1]))
    ensures TrimStart(s) == s[1..]
  {
    assert TrimStart(s) == TrimStart(s[1..]);
  }

  /** `toISODateNY`: the Eastern date of a time, or null without one. */
  function ToIsoDateNY(env: Eastern.Oracles, d: Option<int>): (r: Option<string>)
    ensures r.Some? <==> d.Some?
    ensures d.Some? ==> r.value == Eastern.EtDay(env, d.value)
  {
    if d.Some? then Some(Eastern.EtDay(env, d.value)) else None
  }

  // ---------------------------------------------------------------- columns

  /**
   * `String(v?.text ?? v ?? "")` for a header cell: a hyperlink shows its
   * text, other objects show `[object Object]`; a date cell is read as
   * empty, which changes no match, since the date's text never equals a
   * column label.
   */
  function HeaderText(c: Cell): string {
    match c
    case Empty => ""
    case Text(s) => s
    case Number(x) => NumberToString(x)
    case Boolean(b) => if b then "true" else "false"
    case Hyperlink(t) => t
    case Date(_) => ""
    case _ => "[object Object]"
  }

  /** `normalize`: trimmed and lower-cased. */
  function Normalize(c: Cell): string {
    Lower(Trim(HeaderText(c)))
  }

  predicate IsKeyChar(c: char) { IsLowerAlpha(c) || IsDigit(c) }

  /** `clean`: only the letters a-z and digits are kept. */
  function Clean(s: string): (r: string)
    ensures forall i :: 0 <= i < |r| ==> IsKeyChar(r[i])
  {
    Keep(s, IsKeyChar)
  }

  /** The keys of the labels a column may carry. */
  function LabelKeys(labels: seq<string>): (keys: seq<string>)
    ensures |keys| == |labels|
    ensures forall i :: 0 <= i < |labels| ==> keys[i] == Clean(Lower(labels[i]))
  {
    seq(|labels|, i requires 0 <= i < |labels| => Clean(Lower(labels[i])))
  }

  /** `row.actualCellCount`: the number of cells that hold a value. */
  function ActualCellCount(row: Row): (n: nat)
    ensures n <= |row|
  {
    if row == [] then 0
    else ActualCellCount(row[..|row| - 1]) + (if row[|row| - 1].Empty? then 0 else 1)
  }

  /** Header column `c` carries one of the labels. */
  predicate HeaderMatches(header: Row, keys: seq<string>, c: nat) {
    var text := Normalize(CellAt(header, c));
    text != "" && Clean(text) in keys
  }

  /** The first column from `c` up to the cell count whose header carries a label. */
  function FirstHeaderMatch(header: Row, keys: seq<string>, c: nat): (r: Option<nat>)
    decreases ActualCellCount(header) + 1 - c
  {
    if c > ActualCellCount(header) then None
    else if HeaderMatches(header, keys, c) then Some(c)
    else FirstHeaderMatch(header, keys, c + 1)
  }

  /** What `findColumn` returns. */
  function ColumnFor(header: Row, labels: seq<string>, fallback: nat): nat {
    FirstHeaderMatch(header, LabelKeys(labels), 1).GetOr(fallback)
  }

  /**
   * The search finds the first matching column from `c` on and nothing
   * before it; it finds nothing only when no column from `c` on matches.
   */
  lemma {:induction false} FirstHeaderMatchMeaning(header: Row, keys: seq<string>, c: nat)
    requires c >= 1
    ensures FirstHeaderMatch(header, keys, c).Some? ==>
              var k := FirstHeaderMatch(header, keys, c).value;
              c <= k <= ActualCellCount(header) && HeaderMatches(header, keys, k)
              && forall j :: c <= j < k ==> !HeaderMatches(header, keys, j)
    ensures FirstHeaderMatch(header, keys, c).None? ==>
              forall j :: c <= j <= ActualCellCount(header) ==> !HeaderMatches(header, keys, j)
    decreases ActualCellCount(header) + 1 - c
  {
    hide HeaderMatches;
    if c <= ActualCellCount(header) && !HeaderMatches(header, keys, c) {
      FirstHeaderMatchMeaning(header, keys, c + 1);
    }
  }

  /**
   * `findColumn`: the first column, counting up to the number of filled
   * header cells, whose cleaned header equals a cleaned label, else the
   * fallback.
   */
  method FindColumn(header: Row, labels: seq<string>, fallback: nat) returns (col: nat)
    ensures col == ColumnFor(header, labels, fallback)
  {
    var keys := LabelKeys(labels);
    var count := ActualCellCount(header);
    var c := 1;
    while c <= count
      invariant 1 <= c <= count + 1
      invariant FirstHeaderMatch(header, keys, 1) == FirstHeaderMatch(header, keys, c)
      decreases count + 1 - c
    {
      var text := Normalize(CellAt(header, c));
      if text != "" && Clean(text) in keys {
        return c;
      }
      c := c + 1;
    }
    return fallback;
  }

  /** The column of every field, with the position used when no header matches. */
  datatype Columns = Columns(
    checkout: nat, transactionId: nat, appointment: nat, itemSold: nat, purchaseType: nat,
    provider: nat, quantity: nat, price: nat, tax: nat, tip: nat, discount: nat,
    amountPaid: nat, cash: nat, check: nat, gc: nat, pkg: nat, membership: nat, cc: nat,
    bank: nat, bnpl: nat, other: nat, iou: nat, changeDue: nat, createdBy: nat, brandName: nat)

  function ColumnsOf(header: Row): Columns {
    Columns(
      checkout := ColumnFor(header, ["checkout date", "check out date", "checkout date/time"], 2),
      transactionId := ColumnFor(header, ["transaction id", "transaction id #", "tran id"], 4),
      appointment := ColumnFor(header, ["appointment date", "appt date", "appointment"], 5),
      itemSold := ColumnFor(header, ["service/product", "service / product", "service", "product"], 7),
      purchaseType := ColumnFor(header, ["transaction type", "type"], 8),
      provider := ColumnFor(header, ["service provider", "provider"], 10),
      quantity := ColumnFor(header, ["qty", "quantity"], 12),
      price := ColumnFor(header, ["price"], 13),
      tax := ColumnFor(header, ["tax"], 14),
      tip := ColumnFor(header, ["tip"], 15),
      discount := ColumnFor(header, ["disc", "discount"], 16),
      amountPaid := ColumnFor(header, ["amt paid", "amount paid", "total"], 17),
      cash := ColumnFor(header, ["cash"], 18),
      check := ColumnFor(header, ["check"], 19),
      gc := ColumnFor(header, ["gc redeem", "gift card", "gift certificate"], 20),
      pkg := ColumnFor(header, ["pkg", "package"], 21),
      membership := ColumnFor(header, ["mbsp", "membership"], 22),
      cc := ColumnFor(header, ["cc", "credit card"], 23),
      bank := ColumnFor(header, ["bankaccount", "bank account", "ach"], 24),
      bnpl := ColumnFor(header, ["buy now pay later", "bnpl", "afterpay", "klarna"], 25),
      other := ColumnFor(header, ["other"], 26),
      iou := ColumnFor(header, ["iou", "invoice"], 27),
      changeDue := ColumnFor(header, ["change due", "change"], 33),
      createdBy := ColumnFor(header, ["checkedout by", "checked out by", "created by"], 3),
      brandName := ColumnFor(header, ["charge method", "merchant account", "brand"], 31))
  }

  // ---------------------------------------------------------------- rows

  /** One data row as `parseTransactions` records it; null is None. */
  datatype ParsedRow = ParsedRow(
    rowNumber: nat,
    checkoutUtc: Option<int>,
    checkoutLocalDay: Option<string>,
    transactionId: Option<string>,
    itemSold: Option<string>,
    appointmentUtc: Option<int>,
    purchaseType: Option<string>,
    quantity: Option<real>,
    price: Option<real>,
    tax: Option<real>,
    tip: Option<real>,
    discount: Option<real>,
    amountPaid: Option<real>,
    cashAmount: Option<real>,
    checkAmount: Option<real>,
    gcRedemption: Option<real>,
    packageRedemption: Option<real>,
    membership: Option<real>,
    ccAmount: Option<real>,
    bankAccountAmount: Option<real>,
    buyNowPayLater: Option<real>,
    otherAmount: Option<real>,
    iouAmount: Option<real>,
    changeDue: Option<real>,
    serviceProviderId: Option<string>,
    createdBy: Option<string>,
    brandName: Option<string>)

  /** A cell value is truthy: not blank, not an empty text, not 0, not false. */
  predicate CellTruthy(c: Cell) {
    match c
    case Empty => false
    case Text(s) => s != ""
    case Number(x) => x != 0.0
    case Boolean(b) => b
    case _ => true
  }

  /** `String(value)` of a cell value; objects print as `[object Object]`. */
  function CellString(env: Eastern.Oracles, c: Cell): string {
    match c
    case Empty => "null"
    case Text(s) => s
    case Number(x) => NumberToString(x)
    case Boolean(b) => if b then "true" else "false"
    case Date(t) => env.dateString(t)
    case _ => "[object Object]"
  }

  /** `value ? String(value).trim() : null`. */
  function TextOf(env: Eastern.Oracles, c: Cell): (r: Option<string>)
    ensures r.Some? <==> CellTruthy(c)
    ensures c.Text? && c.text != "" ==> r == Some(Trim(c.text))
  {
    if CellTruthy(c) then Some(Trim(CellString(env, c))) else None
  }

  /** The record of data row `r`, each field read from its column. */
  function BuildParsedRow(env: Eastern.Oracles, cols: Columns, row: Row, r: nat): (p: ParsedRow)
    ensures p.rowNumber == r
  {
    hide ParseNumberCell, ExcelDateToDate, TextOf, ToIsoDateNY;
    var checkoutUtc := ExcelDateToDate(env, CellAt(row, cols.checkout));
    ParsedRow(
      rowNumber := r,
      checkoutUtc := checkoutUtc,
      checkoutLocalDay := ToIsoDateNY(env, checkoutUtc),
      transactionId := TextOf(env, CellAt(row, cols.transactionId)),
      itemSold := TextOf(env, CellAt(row, cols.itemSold)),
      appointmentUtc := ExcelDateToDate(env, CellAt(row, cols.appointment)),
      purchaseType := TextOf(env, CellAt(row, cols.purchaseType)),
      quantity := ParseNumberCell(CellAt(row, cols.quantity)),
      price := ParseNumberCell(CellAt(row, cols.price)),
      tax := ParseNumberCell(CellAt(row, cols.tax)),
      tip := ParseNumberCell(CellAt(row, cols.tip)),
      discount := ParseNumberCell(CellAt(row, cols.discount)),
      amountPaid := ParseNumberCell(CellAt(row, cols.amountPaid)),
      cashAmount := ParseNumberCell(CellAt(row, cols.cash)),
      checkAmount := ParseNumberCell(CellAt(row, cols.check)),
      gcRedemption := ParseNumberCell(CellAt(row, cols.gc)),
      packageRedemption := ParseNumberCell(CellAt(row, cols.pkg)),
      membership := ParseNumberCell(CellAt(row, cols.membership)),
      ccAmount := ParseNumberCell(CellAt(row, cols.cc)),
      bankAccountAmount := ParseNumberCell(CellAt(row, cols.bank)),
      buyNowPayLater := ParseNumberCell(CellAt(row, cols.bnpl)),
      otherAmount := ParseNumberCell(CellAt(row, cols.other)),
      iouAmount := ParseNumberCell(CellAt(row, cols.iou)),
      changeDue := ParseNumberCell(CellAt(row, cols.changeDue)),
      serviceProviderId := TextOf(env, CellAt(row, cols.provider)),
      createdBy := TextOf(env, CellAt(row, cols.createdBy)),
      brandName := TextOf(env, CellAt(row, cols.brandName)))
  }

  /** A cell is a text reading `TOTAL` once trimmed and upper-cased. */
  predicate IsTotalCell(c: Cell) {
    c.Text? && Upper(Trim(c.text)) == "TOTAL"
  }

  /** Some cell of the row reads `TOTAL`. */
  predicate HasTotal(row: Row) {
    row != [] && (IsTotalCell(row[0]) || HasTotal(row[1..]))
  }

  /** `HasTotal` holds exactly when some cell of the row reads `TOTAL`. */
  lemma {:induction false} HasTotalMeaning(row: Row)
    ensures HasTotal(row) <==> exists i :: 0 <= i < |row| && IsTotalCell(row[i])
  {
    hide IsTotalCell;
    if row != [] {
      HasTotalMeaning(row[1..]);
      if HasTotal(row[1..]) {
        var i :| 0 <= i < |row[1..]| && IsTotalCell(row[1..][i]);
        assert IsTotalCell(row[i + 1]);
      }
      if exists i :: 0 <= i < |row| && IsTotalCell(row[i]) {
        var i :| 0 <= i < |row| && IsTotalCell(row[i]);
        if i > 0 { assert row[1..][i - 1] == row[i]; }
      }
    }
  }

  const HeaderRowIndex: nat := 23

  /** How many rows the scan reads from row `r`: up to the row count or the first row holding a `TOTAL` cell. */
  function ScanLength(grid: Grid, r: nat): nat
    decreases |grid| + 1 - r
  {
    if r > |grid| || HasTotal(RowAt(grid, r)) then 0 else 1 + ScanLength(grid, r + 1)
  }

  /** The records of the rows the scan reads from row `r`. */
  function RowsFrom(env: Eastern.Oracles, cols: Columns, grid: Grid, r: nat): seq<ParsedRow> {
    seq(ScanLength(grid, r), j requires 0 <= j => BuildParsedRow(env, cols, RowAt(grid, r + j), r + j))
  }

  /** `r.transactionId && r.checkoutLocalDay`. */
  predicate IsValid(p: ParsedRow) {
    p.transactionId.Some? && p.transactionId.value != ""
    && p.checkoutLocalDay.Some? && p.checkoutLocalDay.value != ""
  }

  /** `rows.filter(...)`: the valid rows, in order. */
  function ValidRows(rows: seq<ParsedRow>): (v: seq<ParsedRow>)
    ensures |v| <= |rows|
    ensures forall i :: 0 <= i < |v| ==> IsValid(v[i]) && v[i] in rows
    ensures forall p :: p in rows && IsValid(p) ==> p in v
  {
    if rows == [] then []
    else
      var rest := ValidRows(rows[1..]);
      assert forall p :: p in rows[1..] ==> p in rows;
      assert forall p :: p in rows ==> p == rows[0] || p in rows[1..];
      if IsValid(rows[0]) then [rows[0]] + rest else rest
  }

  /** Every row the scan reads is within the row count and holds no `TOTAL`. */
  lemma {:induction false} ScanLengthRow(grid: Grid, r: nat, k: nat)
    requires r <= k < r + ScanLength(grid, r)
    ensures k <= |grid| && !HasTotal(RowAt(grid, k))
    decreases k - r
  {
    hide IsTotalCell;
    if k > r {
      ScanLengthRow(grid, r + 1, k);
    }
  }

  /** The scan stops at the row count or at a row holding `TOTAL`. */
  lemma {:induction false} ScanLengthStop(grid: Grid, r: nat)
    ensures r + ScanLength(grid, r) <= |grid| ==> HasTotal(RowAt(grid, r + ScanLength(grid, r)))
    decreases |grid| + 1 - r
  {
    hide IsTotalCell;
    if r <= |grid| && !HasTotal(RowAt(grid, r)) {
      ScanLengthStop(grid, r + 1);
    }
  }

  /** The rows the scan reads: consecutive sheet rows from `r`, numbered from `r`, up to the row count or a `TOTAL` row. */
  lemma RowsFromMeaning(env: Eastern.Oracles, cols: Columns, grid: Grid, r: nat)
    ensures forall j :: 0 <= j < |RowsFrom(env, cols, grid, r)| ==> RowsFrom(env, cols, grid, r)[j].rowNumber == r + j
    ensures |RowsFrom(env, cols, grid, r)| > 0 ==> r + |RowsFrom(env, cols, grid, r)| <= |grid| + 1
    ensures forall k: nat :: r <= k < r + |RowsFrom(env, cols, grid, r)| ==> !HasTotal(RowAt(grid, k))
    ensures r + |RowsFrom(env, cols, grid, r)| <= |grid| ==> HasTotal(RowAt(grid, r + |RowsFrom(env, cols, grid, r)|))
  {
    hide BuildParsedRow, IsTotalCell;
    forall k: nat | r <= k < r + |RowsFrom(env, cols, grid, r)|
      ensures !HasTotal(RowAt(grid, k))
    {
      ScanLengthRow(grid, r, k);
    }
    if |RowsFrom(env, cols, grid, r)| > 0 {
      ScanLengthRow(grid, r, r + |RowsFrom(env, cols, grid, r)| - 1);
    }
    ScanLengthStop(grid, r);
    forall j | 0 <= j < |RowsFrom(env, cols, grid, r)|
      ensures RowsFrom(env, cols, grid, r)[j].rowNumber == r + j
    {
      assert RowsFrom(env, cols, grid, r)[j] == BuildParsedRow(env, cols, RowAt(grid, r + j), r + j);
    }
  }

  /** Reading one more row extends the records read so far by that row's record. */
  lemma RowsFromPrefix(env: Eastern.Oracles, cols: Columns, grid: Grid, first: nat, r: nat)
    requires first <= r < first + ScanLength(grid, first)
    ensures RowsFrom(env, cols, grid, first)[..r - first + 1]
            == RowsFrom(env, cols, grid, first)[..r - first] + [BuildParsedRow(env, cols, RowAt(grid, r), r)]
  {
    hide BuildParsedRow, IsTotalCell;
    var all := RowsFrom(env, cols, grid, first);
    assert all[r - first] == BuildParsedRow(env, cols, RowAt(grid, r), r);
    assert all[..r - first + 1] == all[..r - first] + [all[r - first]];
  }

  // ---------------------------------------------------------------- counts

  /** `byDay`: how many of the rows fall on each local day. */
  function DayCounts(rows: seq<ParsedRow>): map<string, nat> {
    if rows == [] then map[]
    else
      var m := DayCounts(rows[..|rows| - 1]);
      var last := rows[|rows| - 1];
      if last.checkoutLocalDay.Some? then
        var d := last.checkoutLocalDay.value;
        m[d := (if d in m then m[d] else 0) + 1]
      else m
  }

  /** `txnSet`: the transaction ids of the rows. */
  function IdSet(rows: seq<ParsedRow>): set<string> {
    if rows == [] then {}
    else
      var last := rows[|rows| - 1];
      IdSet(rows[..|rows| - 1]) + (if last.transactionId.Some? && last.transactionId.value != "" then {last.transactionId.value} else {})
  }

  /** The days counted are exactly the days of the rows. */
  lemma {:induction false} DayCountsDomain(rows: seq<ParsedRow>)
    ensures forall d :: d in DayCounts(rows) <==> exists i :: 0 <= i < |rows| && rows[i].checkoutLocalDay == Some(d)
  {
    if rows != [] {
      var front := rows[..|rows| - 1];
      DayCountsDomain(front);
      assert forall i :: 0 <= i < |front| ==> front[i] == rows[i];
    }
  }

  /** The id set holds exactly the non-empty transaction ids of the rows. */
  lemma {:induction false} IdSetMeaning(rows: seq<ParsedRow>)
    ensures forall id :: id in IdSet(rows) <==> exists i :: 0 <= i < |rows| && rows[i].transactionId == Some(id) && id != ""
  {
    if rows != [] {
      var front := rows[..|rows| - 1];
      IdSetMeaning(front);
      assert forall i :: 0 <= i < |front| ==> front[i] == rows[i];
    }
  }

  /** The number of rows on day `d`. */
  function CountOn(rows: seq<ParsedRow>, d: string): nat {
    if rows == [] then 0
    else CountOn(rows[..|rows| - 1], d) + (if rows[|rows| - 1].checkoutLocalDay == Some(d) then 1 else 0)
  }

  /** Each day's count is the number of rows on that day. */
  lemma {:induction false} DayCountsCount(rows: seq<ParsedRow>, d: string)
    requires d in DayCounts(rows)
    ensures DayCounts(rows)[d] == CountOn(rows, d)
  {
    var front := rows[..|rows| - 1];
    var last := rows[|rows| - 1];
    if d in DayCounts(front) {
      DayCountsCount(front, d);
    } else {
      CountOnAbsent(front, d);
    }
  }

  lemma {:induction false} CountOnAbsent(rows: seq<ParsedRow>, d: string)
    requires d !in DayCounts(rows)
    ensures CountOn(rows, d) == 0
  {
    if rows != [] {
      var front := rows[..|rows| - 1];
      assert forall i :: 0 <= i < |front| ==> front[i] == rows[i];
      CountOnAbsent(front, d);
    }
  }

  /** The sum of a map's values. */
  ghost function SumValues(m: map<string, nat>): nat
    decreases |m.Keys|
  {
    if m == map[] then 0
    else
      var k :| k in m;
      m[k] + SumValues(m - {k})
  }

  /** The sum does not depend on which key is taken first. */
  lemma {:induction false} SumValuesRemove(m: map<string, nat>, k: string)
    requires k in m
    ensures SumValues(m) == m[k] + SumValues(m - {k})
    decreases |m.Keys|
  {
    var j :| j in m && SumValues(m) == m[j] + SumValues(m - {j});
    if j != k {
      var mj, mk := m - {j}, m - {k};
      assert |mj.Keys| < |m.Keys| by { assert mj.Keys < m.Keys; }
      assert |mk.Keys| < |m.Keys| by { assert mk.Keys < m.Keys; }
      SumValuesRemove(mj, k);
      SumValuesRemove(mk, j);
      assert mj - {k} == mk - {j};
    }
  }

  /** Raising one value by one raises the sum by one. */
  lemma SumValuesIncrement(m: map<string, nat>, d: string)
    ensures SumValues(m[d := (if d in m then m[d] else 0) + 1]) == SumValues(m) + 1
  {
    var m' := m[d := (if d in m then m[d] else 0) + 1];
    SumValuesRemove(m', d);
    assert m' - {d} == m - {d};
    if d in m {
      SumValuesRemove(m, d);
    } else {
      assert m - {d} == m;
    }
  }

  /** The day counts add up to the number of rows that have a day. */
  lemma {:induction false} DayCountsSum(rows: seq<ParsedRow>)
    requires forall i :: 0 <= i < |rows| ==> rows[i].checkoutLocalDay.Some?
    ensures SumValues(DayCounts(rows)) == |rows|
  {
    if rows != [] {
      var front := rows[..|rows| - 1];
      DayCountsSum(front);
      SumValuesIncrement(DayCounts(front), rows[|rows| - 1].checkoutLocalDay.value);
    }
  }

  /** What `parseTransactions` reports and returns. */
  datatype Parsed = Parsed(valid: seq<ParsedRow>, dataRows: nat, byDay: map<string, nat>, ids: set<string>)

  /** The rows `parseTransactions` reads from a sheet. */
  function DataRows(env: Eastern.Oracles, grid: Grid): seq<ParsedRow> {
    RowsFrom(env, ColumnsOf(RowAt(grid, HeaderRowIndex)), grid, HeaderRowIndex + 1)
  }

  /** `parseTransactions` on a workbook's sheets. */
  function ParseTransactionsSpec(env: Eastern.Oracles, sheets: seq<Grid>): Result<Parsed, string> {
    if sheets == [] then Err("No worksheet found in file")
    else
      var rows := DataRows(env, sheets[0]);
      var valid := ValidRows(rows);
      Ok(Parsed(valid, |rows|, DayCounts(valid), IdSet(valid)))
  }

  /**
   * The reported numbers: every valid row has a transaction id and a local
   * day, the day counts add up to the valid rows, and the id set holds the
   * ids of the valid rows.
   */
  lemma ParsedCounts(env: Eastern.Oracles, sheets: seq<Grid>)
    requires ParseTransactionsSpec(env, sheets).Ok?
    ensures var p := ParseTransactionsSpec(env, sheets).value;
            |p.valid| <= p.dataRows
            && SumValues(p.byDay) == |p.valid|
            && (forall id :: id in p.ids <==> exists i :: 0 <= i < |p.valid| && p.valid[i].transactionId == Some(id))
  {
    hide DataRows;
    var valid := ParseTransactionsSpec(env, sheets).value.valid;
    DayCountsSum(valid);
    IdSetMeaning(valid);
  }

  /** A record's local day is the Eastern date of its checkout time. */
  lemma BuildParsedRowDated(env: Eastern.Oracles, cols: Columns, row: Row, r: nat)
    ensures BuildParsedRow(env, cols, row, r).checkoutLocalDay
            == ToIsoDateNY(env, BuildParsedRow(env, cols, row, r).checkoutUtc)
  {
  }

  /** Row numbers increase along the records. */
  predicate Increasing(rows: seq<ParsedRow>) {
    forall i, j :: 0 <= i < j < |rows| ==> rows[i].rowNumber < rows[j].rowNumber
  }

  /** The valid rows keep the order of the sheet: their row numbers increase. */
  lemma {:induction false} ValidRowsOrdered(rows: seq<ParsedRow>)
    requires Increasing(rows)
    ensures Increasing(ValidRows(rows))
  {
    hide IsValid, Increasing;
    if rows == [] {
      NoRowsIncreasing();
    } else {
      var tail := rows[1..];
      var rest := ValidRows(tail);
      IncreasingTail(rows);
      ValidRowsOrdered(tail);
      forall k | 0 <= k < |rest|
        ensures rows[0].rowNumber < rest[k].rowNumber
      {
        var m :| 0 <= m < |tail| && tail[m] == rest[k];
        IncreasingAt(rows, 0, m + 1);
      }
      IncreasingCons(rows[0], rest);
    }
  }

  lemma NoRowsIncreasing()
    ensures Increasing(ValidRows([]))
  {
  }

  lemma IncreasingTail(rows: seq<ParsedRow>)
    requires rows != [] && Increasing(rows)
    ensures Increasing(rows[1..])
  {
  }

  lemma IncreasingAt(rows: seq<ParsedRow>, i: nat, j: nat)
    requires Increasing(rows) && i < j < |rows|
    ensures rows[i].rowNumber < rows[j].rowNumber
  {
  }

  lemma IncreasingCons(p: ParsedRow, rest: seq<ParsedRow>)
    requires Increasing(rest)
    requires forall k :: 0 <= k < |rest| ==> p.rowNumber < rest[k].rowNumber
    ensures Increasing([p] + rest) && Increasing(rest)
  {
    var all := [p] + rest;
    forall i, j | 0 <= i < j < |all|
      ensures all[i].rowNumber < all[j].rowNumber
    {
      assert all[j] == rest[j - 1];
      if i > 0 {
        assert all[i] == rest[i - 1];
      }
    }
  }

  /** Every record the scan reads has its local day from its checkout time. */
  lemma RowsFromDated(env: Eastern.Oracles, cols: Columns, grid: Grid, r: nat)
    ensures forall j :: 0 <= j < |RowsFrom(env, cols, grid, r)| ==>
              RowsFrom(env, cols, grid, r)[j].checkoutLocalDay == ToIsoDateNY(env, RowsFrom(env, cols, grid, r)[j].checkoutUtc)
  {
    hide ToIsoDateNY, BuildParsedRow;
    forall j | 0 <= j < |RowsFrom(env, cols, grid, r)|
      ensures RowsFrom(env, cols, grid, r)[j].checkoutLocalDay == ToIsoDateNY(env, RowsFrom(env, cols, grid, r)[j].checkoutUtc)
    {
      assert RowsFrom(env, cols, grid, r)[j] == BuildParsedRow(env, cols, RowAt(grid, r + j), r + j);
      BuildParsedRowDated(env, cols, RowAt(grid, r + j), r + j);
    }
  }

  /**
   * Every valid row read from a file has a transaction id and a checkout time whose Eastern date
   * is its local day, and the valid rows come in increasing row order.
   */
  lemma ValidRowsDated(env: Eastern.Oracles, sheets: seq<Grid>)
    requires ParseTransactionsSpec(env, sheets).Ok?
    ensures forall p :: p in ParseTransactionsSpec(env, sheets).value.valid ==>
              IsValid(p) && p.checkoutUtc.Some? && p.checkoutLocalDay == Some(Eastern.EtDay(env, p.checkoutUtc.value))
    ensures var v := ParseTransactionsSpec(env, sheets).value.valid;
            forall i, j :: 0 <= i < j < |v| ==> v[i].rowNumber < v[j].rowNumber
  {
    hide BuildParsedRow, ToIsoDateNY, ValidRows, RowsFrom;
    var grid := sheets[0];
    var cols := ColumnsOf(RowAt(grid, HeaderRowIndex));
    var rows := DataRows(env, grid);
    assert rows == RowsFrom(env, cols, grid, HeaderRowIndex + 1);
    RowsFromDated(env, cols, grid, HeaderRowIndex + 1);
    RowsFromMeaning(env, cols, grid, HeaderRowIndex + 1);
    ValidRowsOrdered(rows);
    forall p | p in ValidRows(rows)
      ensures IsValid(p) && p.checkoutUtc.Some? && p.checkoutLocalDay == Some(Eastern.EtDay(env, p.checkoutUtc.value))
    {
      assert p in rows && IsValid(p);
    }
  }

  /** `parseTransactions`: the column lookup, the scan of the data rows, and the counts of the valid ones. */
  method ParseTransactions(env: Eastern.Oracles, sheets: seq<Grid>) returns (r: Result<Parsed, string>)
    ensures r == ParseTransactionsSpec(env, sheets)
  {
    hide ColumnsOf, RowsFrom, ValidRows;
    if sheets == [] {
      return Err("No worksheet found in file");
    }
    var grid := sheets[0];
    var header := RowAt(grid, HeaderRowIndex);
    var cols := ColumnsOf(header);
    var rows := ScanRows(env, cols, grid);
    var valid := ValidRows(rows);
    var byDay, ids := CountRows(valid);
    r := Ok(Parsed(valid, |rows|, byDay, ids));
  }

  /** The loop over the data rows, up to the row count or a `TOTAL` row. */
  method ScanRows(env: Eastern.Oracles, cols: Columns, grid: Grid) returns (rows: seq<ParsedRow>)
    ensures rows == RowsFrom(env, cols, grid, HeaderRowIndex + 1)
  {
    hide BuildParsedRow, IsTotalCell;
    var first := HeaderRowIndex + 1;
    ghost var all := RowsFrom(env, cols, grid, first);
    rows := [];
    var r := first;
    while r <= |grid|
      invariant first <= r
      invariant ScanLength(grid, first) == (r - first) + ScanLength(grid, r)
      invariant rows == all[..r - first]
      decreases |grid| + 1 - r
    {
      assert |all| == ScanLength(grid, first);
      var row := RowAt(grid, r);
      var total := HasTotalCell(row);
      if total {
        assert all[..r - first] == all;
        return;
      }
      assert ScanLength(grid, r) == 1 + ScanLength(grid, r + 1);
      RowsFromPrefix(env, cols, grid, first, r);
      rows := rows + [BuildParsedRow(env, cols, row, r)];
      r := r + 1;
    }
    assert all[..r - first] == all;
  }

  /** `rowVals.some(...)`: looks for a `TOTAL` cell. */
  method HasTotalCell(row: Row) returns (found: bool)
    ensures found == HasTotal(row)
  {
    hide IsTotalCell;
    var i := 0;
    while i < |row|
      invariant 0 <= i <= |row|
      invariant HasTotal(row) == HasTotal(row[i..])
    {
      assert row[i..][1..] == row[i + 1..];
      if IsTotalCell(row[i]) {
        return true;
      }
      i := i + 1;
    }
    return false;
  }

  /** The loop that counts the valid rows per day and collects their ids. */
  method CountRows(valid: seq<ParsedRow>) returns (byDay: map<string, nat>, ids: set<string>)
    ensures byDay == DayCounts(valid) && ids == IdSet(valid)
  {
    byDay := map[];
    ids := {};
    var i := 0;
    while i < |valid|
      invariant 0 <= i <= |valid|
      invariant byDay == DayCounts(valid[..i]) && ids == IdSet(valid[..i])
    {
      var p := valid[i];
      CountStep(valid, i);
      if p.checkoutLocalDay.Some? {
        var d := p.checkoutLocalDay.value;
        byDay := byDay[d := (if d in byDay then byDay[d] else 0) + 1];
      }
      if p.transactionId.Some? && p.transactionId.value != "" {
        ids := ids + {p.transactionId.value};
      }
      i := i + 1;
    }
    assert valid[..i] == valid;
  }

  /** One step of the counts. */
  lemma CountStep(rows: seq<ParsedRow>, i: nat)
    requires i < |rows|
    ensures var p := rows[i];
            var m := DayCounts(rows[..i]);
            DayCounts(rows[..i + 1]) == (if p.checkoutLocalDay.Some?
                                         then m[p.checkoutLocalDay.value := (if p.checkoutLocalDay.value in m then m[p.checkoutLocalDay.value] else 0) + 1]
                                         else m)
            && IdSet(rows[..i + 1]) == IdSet(rows[..i]) + (if p.transactionId.Some? && p.transactionId.value != "" then {p.transactionId.value} else {})
  {
    assert rows[..i + 1][..i] == rows[..i];
  }
}
