/**
 * `readXlsx`: the rows of a Vagaro transaction-list export.  The header is
 * row 23; the data is read from row 24 up to the sheet's row count and ends
 * at the totals row.  Blank separators, rows without a checkout date and
 * summary lines are skipped.
 */
module BackfillRead {
  import opened Wrappers
  import opened Text
  import opened Sheet
  import Employees
  import BackfillIds
  import Eastern

  /** One transaction line of the export. */
  datatype XlsxRow = XlsxRow(
    file: string,
    rowNumber: nat,
    checkoutDate: int,
    providerName: string,
    providerId: string,
    transactionId: string,
    itemSold: string,
    amountDue: real,
    tip: real,
    cashTendered: real,
    ccAmount: real,
    gcRedemption: real,
    changeDue: real,
    checkedOutBy: string,
    source: string,
    chargeMethod: string,
    customerName: string,
    appointmentDate: Option<int>)

  /** What the reader does with one row of the sheet. */
  datatype Decision = Stop | SkipBlank | SkipNoDate | SkipSummary | Push(row: XlsxRow)

  const HeaderRowNumber: nat := 23

  /** The columns of the export the reader uses. */
  const CheckoutColumn: nat := 1
  const CheckedOutByColumn: nat := 2
  const TransactionColumn: nat := 3
  const AppointmentColumn: nat := 4
  const CustomerColumn: nat := 5
  const ItemSoldColumn: nat := 6
  const SourceColumn: nat := 8
  const ProviderColumn: nat := 9
  const AmountDueColumn: nat := 12
  const TipColumn: nat := 14
  const CashColumn: nat := 17
  const GiftCardColumn: nat := 19
  const CardColumn: nat := 22
  const ChargeMethodColumn: nat := 31
  const ChangeDueColumn: nat := 32

  /** The report's summary lines, recognised by their lower-cased label. */
  predicate IsSummaryLabel(lowered: string) {
    lowered == "redeemed" || lowered == "money earned"
    || StartsWith(lowered, "cash:") || StartsWith(lowered, "credit card:") || StartsWith(lowered, "total:")
  }

  /** `text || fallback`. */
  function OrElse(text: string, fallback: string): (r: string)
    ensures r != "" <==> text != "" || fallback != ""
  {
    if text != "" then text else fallback
  }

  /** The record of a row that passed every test, its fields read column by column. */
  function BuildRow(env: Eastern.Oracles, dir: Employees.Directory, file: string, suffix: string,
                    row: Row, rowNumber: nat, itemSold: string, checkoutDate: int): (r: XlsxRow)
    ensures r.rowNumber == rowNumber && r.itemSold == itemSold && r.checkoutDate == checkoutDate
    ensures r.transactionId != "" && r.customerName != "" && r.checkedOutBy != ""
            && r.source != "" && r.chargeMethod != ""
    ensures r.cashTendered >= 0.0
    ensures r.providerId == "" ==> r.providerName == "Unknown Tech"
  {
    var providerName := CellToString(CellAt(row, ProviderColumn));
    var providerId := BackfillIds.ResolveProviderIdAsWritten(dir, providerName).GetOr("");
    var cashRaw := CellToNumber(CellAt(row, CashColumn));
    XlsxRow(
      file := file,
      rowNumber := rowNumber,
      checkoutDate := checkoutDate,
      providerName := if providerId != "" then providerName else "Unknown Tech",
      providerId := providerId,
      transactionId := OrElse(CellToString(CellAt(row, TransactionColumn)), "dec2025-" + suffix + "-row-" + NatToString(rowNumber)),
      itemSold := itemSold,
      amountDue := CellToNumber(CellAt(row, AmountDueColumn)),
      tip := CellToNumber(CellAt(row, TipColumn)),
      cashTendered := if cashRaw >= 0.0 then cashRaw else 0.0,
      ccAmount := CellToNumber(CellAt(row, CardColumn)),
      gcRedemption := CellToNumber(CellAt(row, GiftCardColumn)),
      changeDue := CellToNumber(CellAt(row, ChangeDueColumn)),
      checkedOutBy := OrElse(CellToString(CellAt(row, CheckedOutByColumn)), "manual-upload"),
      source := OrElse(CellToString(CellAt(row, SourceColumn)), "Manual"),
      chargeMethod := OrElse(CellToString(CellAt(row, ChargeMethodColumn)), "Manual"),
      customerName := OrElse(CellToString(CellAt(row, CustomerColumn)), "Customer " + NatToString(rowNumber)),
      appointmentDate := ParseLocalDate(env, CellAt(row, AppointmentColumn)))
  }

  /** The tests of the loop body, in the order the reader applies them. */
  function ClassifyRow(env: Eastern.Oracles, dir: Employees.Directory, file: string, suffix: string,
                       row: Row, rowNumber: nat): (d: Decision)
  {
    var itemSold := CellToString(CellAt(row, ItemSoldColumn));
    if itemSold != "" && Lower(Trim(itemSold)) == "total" then Stop
    else if itemSold == "" then SkipBlank
    else
      match ParseLocalDate(env, CellAt(row, CheckoutColumn))
      case None => SkipNoDate
      case Some(checkoutDate) =>
        if IsSummaryLabel(Lower(Trim(itemSold))) then SkipSummary
        else Push(BuildRow(env, dir, file, suffix, row, rowNumber, itemSold, checkoutDate))
  }

  /**
   * What each decision means: the totals row stops the scan, a blank item
   * ends nothing, and a pushed row passed every test.
   */
  lemma ClassifyRowMeaning(env: Eastern.Oracles, dir: Employees.Directory, file: string, suffix: string,
                           row: Row, rowNumber: nat)
    ensures var d := ClassifyRow(env, dir, file, suffix, row, rowNumber);
            var itemSold := CellToString(CellAt(row, ItemSoldColumn));
            (d.Stop? <==> itemSold != "" && Lower(Trim(itemSold)) == "total")
            && (d.SkipBlank? <==> itemSold == "")
            && (d.SkipNoDate? <==> itemSold != "" && Lower(Trim(itemSold)) != "total"
                                   && ParseLocalDate(env, CellAt(row, CheckoutColumn)).None?)
            && (d.Push? ==>
                  d.row.itemSold == itemSold && d.row.rowNumber == rowNumber
                  && !IsSummaryLabel(Lower(Trim(itemSold)))
                  && ParseLocalDate(env, CellAt(row, CheckoutColumn)) == Some(d.row.checkoutDate))
  {
    hide BuildRow, CellToString, Lower, Trim, ParseLocalDate, IsSummaryLabel, CellAt;
  }

  /** What every pushed row satisfies. */
  predicate ValidRow(r: XlsxRow) {
    r.itemSold != "" && Trimmed(r.itemSold) && Lower(Trim(r.itemSold)) != "total" && !IsSummaryLabel(Lower(Trim(r.itemSold)))
    && r.transactionId != "" && r.customerName != "" && r.checkedOutBy != ""
    && r.source != "" && r.chargeMethod != ""
    && r.cashTendered >= 0.0
    && (r.providerId == "" ==> r.providerName == "Unknown Tech")
  }

  /** A pushed row is valid and carries its own row number. */
  lemma PushedRowValid(env: Eastern.Oracles, dir: Employees.Directory, file: string, suffix: string,
                       row: Row, rowNumber: nat)
    ensures var d := ClassifyRow(env, dir, file, suffix, row, rowNumber);
            d.Push? ==> ValidRow(d.row) && d.row.rowNumber == rowNumber
  {
    ClassifyRowMeaning(env, dir, file, suffix, row, rowNumber);
    CellToStringTrimmed(CellAt(row, ItemSoldColumn));
  }

  /** The decision for every row from row `n` to the last. */
  function DecisionsFrom(env: Eastern.Oracles, dir: Employees.Directory, file: string, suffix: string,
                         grid: Grid, n: nat): (ds: seq<Decision>)
    ensures |ds| == if n > |grid| then 0 else |grid| + 1 - n
    decreases |grid| + 1 - n
  {
    if n > |grid| then []
    else [ClassifyRow(env, dir, file, suffix, RowAt(grid, n), n)] + DecisionsFrom(env, dir, file, suffix, grid, n + 1)
  }

  /** The decision for row `k` sits at position `k - n`. */
  lemma {:induction false} DecisionAt(env: Eastern.Oracles, dir: Employees.Directory, file: string, suffix: string,
                                      grid: Grid, n: nat, k: nat)
    requires n <= k <= |grid|
    ensures DecisionsFrom(env, dir, file, suffix, grid, n)[k - n] == ClassifyRow(env, dir, file, suffix, RowAt(grid, k), k)
    decreases k - n
  {
    hide ClassifyRow;
    if k > n {
      DecisionAt(env, dir, file, suffix, grid, n + 1, k);
    }
  }

  /** The rows pushed from position `i` on, in order, up to the first stop. */
  function Collect(ds: seq<Decision>, i: nat): seq<XlsxRow>
    decreases |ds| - i
  {
    if i >= |ds| then []
    else
      match ds[i]
      case Stop => []
      case Push(r) => [r] + Collect(ds, i + 1)
      case _ => Collect(ds, i + 1)
  }

  /** Every push among `ds`, the decisions for rows `n` on, satisfies `valid` and carries its own row number. */
  predicate WellDecided(ds: seq<Decision>, n: nat, valid: XlsxRow -> bool) {
    forall p :: 0 <= p < |ds| && ds[p].Push? ==> valid(ds[p].row) && ds[p].row.rowNumber == n + p
  }

  lemma DecisionsWellDecided(env: Eastern.Oracles, dir: Employees.Directory, file: string, suffix: string,
                             grid: Grid, n: nat)
    ensures WellDecided(DecisionsFrom(env, dir, file, suffix, grid, n), n, ValidRow)
  {
    hide ClassifyRow;
    var ds := DecisionsFrom(env, dir, file, suffix, grid, n);
    forall p | 0 <= p < |ds| && ds[p].Push?
      ensures ValidRow(ds[p].row) && ds[p].row.rowNumber == n + p
    {
      DecisionAt(env, dir, file, suffix, grid, n, n + p);
      PushedRowValid(env, dir, file, suffix, RowAt(grid, n + p), n + p);
    }
  }

  /**
   * The rows collected from position `i` of well-decided decisions satisfy
   * `valid`, come from rows `n + i` on, and keep the sheet's order.
   */
  lemma {:induction false} CollectedRows(ds: seq<Decision>, n: nat, i: nat, valid: XlsxRow -> bool)
    requires WellDecided(ds, n, valid)
    ensures forall j :: 0 <= j < |Collect(ds, i)| ==>
              valid(Collect(ds, i)[j]) && n + i <= Collect(ds, i)[j].rowNumber < n + |ds|
    ensures forall a, b :: 0 <= a < b < |Collect(ds, i)| ==> Collect(ds, i)[a].rowNumber < Collect(ds, i)[b].rowNumber
    decreases |ds| - i
  {
    if i < |ds| {
      CollectedRows(ds, n, i + 1, valid);
      var rest := Collect(ds, i + 1);
      if ds[i].Push? {
        var rows := Collect(ds, i);
        assert rows == [ds[i].row] + rest;
        forall j | 0 <= j < |rows|
          ensures valid(rows[j]) && n + i <= rows[j].rowNumber < n + |ds|
        {
          if j > 0 { assert rows[j] == rest[j - 1]; }
        }
        forall a, b | 0 <= a < b < |rows|
          ensures rows[a].rowNumber < rows[b].rowNumber
        {
          assert rows[b] == rest[b - 1];
          if a > 0 { assert rows[a] == rest[a - 1]; }
        }
      }
    }
  }

  /** Nothing after the totals row is read: the decisions past a stop do not matter. */
  lemma {:induction false} CollectStopsAt(ds: seq<Decision>, i: nat, k: nat)
    requires i <= k < |ds| && ds[k].Stop?
    ensures Collect(ds, i) == Collect(ds[..k], i)
    decreases k - i
  {
    if i < k {
      CollectStopsAt(ds, i + 1, k);
      assert ds[..k][i] == ds[i];
    }
  }

  /** The counters the reader reports with `--debug-xlsx`. */
  datatype ScanStats = ScanStats(
    examined: nat,
    pushed: nat,
    stoppedAtRow: nat,
    skippedBlankItemSold: nat,
    skippedNoCheckoutDate: nat,
    skippedSummaryLabel: nat)

  /** `path.basename`: the text after the last slash. */
  function Basename(path: string): (r: string)
    ensures '/' !in r
    ensures |r| <= |path| && r == path[|path| - |r|..]
    decreases |path|
  {
    if path == [] then []
    else if path[|path| - 1] == '/' then []
    else Basename(path[..|path| - 1]) + [path[|path| - 1]]
  }

  /** `file.replace(/\.xlsx$/i, "")`. */
  function StripXlsx(file: string): (r: string)
    ensures r == file || (|file| >= 5 && r == file[..|file| - 5] && Lower(file[|file| - 5..]) == ".xlsx")
  {
    if |file| >= 5 && Lower(file[|file| - 5..]) == ".xlsx" then file[..|file| - 5] else file
  }

  /** The sheets of a workbook file, or None when the file cannot be read. */
  type Files = string -> Option<seq<Grid>>

  /** The rows `readXlsx` returns, or the error it throws. */
  function ReadXlsxSpec(env: Eastern.Oracles, dir: Employees.Directory, files: Files, filePath: string): (r: Result<seq<XlsxRow>, string>)
  {
    var file := Basename(filePath);
    match files(filePath)
    case None => Err("File not found: " + filePath)
    case Some(sheets) =>
      if sheets == [] then Err(file + " has no sheets")
      else if |sheets[0]| < HeaderRowNumber then
        Err(file + " has only " + NatToString(|sheets[0]|) + " rows; expected header at row 23")
      else Ok(Collect(DecisionsFrom(env, dir, file, StripXlsx(file), sheets[0], HeaderRowNumber + 1), 0))
  }

  /** The rows a successful read returns are valid, come after the header and keep the sheet's order. */
  lemma ReadRowsValid(env: Eastern.Oracles, dir: Employees.Directory, files: Files, filePath: string)
    requires ReadXlsxSpec(env, dir, files, filePath).Ok?
    ensures forall j :: 0 <= j < |ReadXlsxSpec(env, dir, files, filePath).value| ==>
              ValidRow(ReadXlsxSpec(env, dir, files, filePath).value[j])
              && ReadXlsxSpec(env, dir, files, filePath).value[j].rowNumber > HeaderRowNumber
    ensures forall a, b :: 0 <= a < b < |ReadXlsxSpec(env, dir, files, filePath).value| ==>
              ReadXlsxSpec(env, dir, files, filePath).value[a].rowNumber
              < ReadXlsxSpec(env, dir, files, filePath).value[b].rowNumber
  {
    var file := Basename(filePath);
    var grid := files(filePath).value[0];
    var ds := DecisionsFrom(env, dir, file, StripXlsx(file), grid, HeaderRowNumber + 1);
    DecisionsWellDecided(env, dir, file, StripXlsx(file), grid, HeaderRowNumber + 1);
    CollectedRows(ds, HeaderRowNumber + 1, 0, ValidRow);
  }

  /** `readXlsx`: the checks on the workbook, then the scan of its first sheet. */
  method ReadXlsx(env: Eastern.Oracles, dir: Employees.Directory, files: Files, filePath: string)
    returns (r: Result<seq<XlsxRow>, string>, stats: ScanStats)
    ensures r == ReadXlsxSpec(env, dir, files, filePath)
    ensures r.Ok? ==> stats.pushed == |r.value|
    ensures stats.examined == stats.pushed + stats.skippedBlankItemSold + stats.skippedNoCheckoutDate
                              + stats.skippedSummaryLabel + (if stats.stoppedAtRow > 0 then 1 else 0)
    ensures r.Ok? ==> stats.stoppedAtRow == 0 || stats.stoppedAtRow > HeaderRowNumber
    ensures r.Ok? && stats.stoppedAtRow > 0 ==> stats.examined == stats.stoppedAtRow - HeaderRowNumber
  {
    hide DecisionsFrom, Collect, NatToString;
    stats := ScanStats(0, 0, 0, 0, 0, 0);
    var file := Basename(filePath);
    var sheets := files(filePath);
    if sheets.None? {
      return Err("File not found: " + filePath), stats;
    }
    if sheets.value == [] {
      return Err(file + " has no sheets"), stats;
    }
    var grid := sheets.value[0];
    if |grid| < HeaderRowNumber {
      return Err(file + " has only " + NatToString(|grid|) + " rows; expected header at row 23"), stats;
    }
    var rows;
    rows, stats := ScanRows(env, dir, file, StripXlsx(file), grid);
    r := Ok(rows);
  }

  /** The loop over the data rows, with its counters. */
  method ScanRows(env: Eastern.Oracles, dir: Employees.Directory, file: string, suffix: string, grid: Grid)
    returns (rows: seq<XlsxRow>, stats: ScanStats)
    requires |grid| >= HeaderRowNumber
    ensures rows == Collect(DecisionsFrom(env, dir, file, suffix, grid, HeaderRowNumber + 1), 0)
    ensures stats.pushed == |rows|
    ensures stats.examined == stats.pushed + stats.skippedBlankItemSold + stats.skippedNoCheckoutDate
                              + stats.skippedSummaryLabel + (if stats.stoppedAtRow > 0 then 1 else 0)
    ensures stats.stoppedAtRow == 0 || stats.stoppedAtRow > HeaderRowNumber
    ensures stats.stoppedAtRow > 0 ==> stats.examined == stats.stoppedAtRow - HeaderRowNumber
  {
    // The scan needs only which decision each row gets, not how it is reached.
    hide ClassifyRow, DecisionsFrom, RowAt, Collect;
    stats := ScanStats(0, 0, 0, 0, 0, 0);
    ghost var ds := DecisionsFrom(env, dir, file, suffix, grid, HeaderRowNumber + 1);
    rows := [];
    var rowNumber: nat := HeaderRowNumber + 1;
    while rowNumber <= |grid|
      invariant HeaderRowNumber + 1 <= rowNumber <= |grid| + 1
      invariant rows + Collect(ds, rowNumber - HeaderRowNumber - 1) == Collect(ds, 0)
      invariant stats.stoppedAtRow == 0
      invariant stats.pushed == |rows|
      invariant stats.examined == rowNumber - HeaderRowNumber - 1
      invariant stats.examined == stats.pushed + stats.skippedBlankItemSold + stats.skippedNoCheckoutDate + stats.skippedSummaryLabel
      decreases |grid| + 1 - rowNumber
    {
      ghost var k := rowNumber - HeaderRowNumber - 1;
      var decision := ClassifyRow(env, dir, file, suffix, RowAt(grid, rowNumber), rowNumber);
      DecisionAt(env, dir, file, suffix, grid, HeaderRowNumber + 1, rowNumber);
      CollectStep(ds, k);
      stats := stats.(examined := stats.examined + 1);
      if decision.Stop? {
        stats := stats.(stoppedAtRow := rowNumber);
        return;
      } else if decision.SkipBlank? {
        stats := stats.(skippedBlankItemSold := stats.skippedBlankItemSold + 1);
      } else if decision.SkipNoDate? {
        stats := stats.(skippedNoCheckoutDate := stats.skippedNoCheckoutDate + 1);
      } else if decision.SkipSummary? {
        stats := stats.(skippedSummaryLabel := stats.skippedSummaryLabel + 1);
      } else {
        assert (rows + [decision.row]) + Collect(ds, k + 1) == rows + ([decision.row] + Collect(ds, k + 1));
        rows := rows + [decision.row];
        stats := stats.(pushed := stats.pushed + 1);
      }
      rowNumber := rowNumber + 1;
    }
    CollectStep(ds, |ds|);
  }

  /** One step of `Collect`. */
  lemma CollectStep(ds: seq<Decision>, k: nat)
    ensures k >= |ds| ==> Collect(ds, k) == []
    ensures k < |ds| && ds[k].Stop? ==> Collect(ds, k) == []
    ensures k < |ds| && ds[k].Push? ==> Collect(ds, k) == [ds[k].row] + Collect(ds, k + 1)
    ensures k < |ds| && !ds[k].Stop? && !ds[k].Push? ==> Collect(ds, k) == Collect(ds, k + 1)
  {
  }
}
