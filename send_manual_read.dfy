/**
 * `readXlsx` of `scripts/sendManualWebhooksDec2025.ts`: the same export
 * layout and row tests as the backfill reader (header at row 23, the
 * totals row ends the list, blank items, undated rows and summary lines are
 * skipped), but no provider lookup, and all four tendered amounts clamped
 * at zero.
 */
module SendManualRead {
  import opened Wrappers
  import opened Text
  import opened Sheet
  import Eastern
  import BackfillRead

  type XlsxRow = BackfillRead.XlsxRow
  type Decision = BackfillRead.Decision

  /** `Math.max(x, 0)`. */
  function AtLeastZero(x: real): (r: real)
    ensures r >= 0.0 && r >= x
    ensures r == x || r == 0.0
  {
    if x >= 0.0 then x else 0.0
  }

  /** The record of a row that passed every test, its fields read column by column. */
  function BuildRow(env: Eastern.Oracles, file: string, suffix: string,
                    row: Row, rowNumber: nat, itemSold: string, checkoutDate: int): (r: XlsxRow)
    ensures r.file == file && r.rowNumber == rowNumber && r.itemSold == itemSold && r.checkoutDate == checkoutDate
    ensures r.transactionId != "" && r.customerName != "" && r.checkedOutBy != ""
            && r.source != "" && r.chargeMethod != "" && r.providerName != ""
    ensures r.providerId == ""
    ensures r.cashTendered >= 0.0 && r.changeDue >= 0.0 && r.ccAmount >= 0.0 && r.gcRedemption >= 0.0
  {
    BackfillRead.XlsxRow(
      file := file,
      rowNumber := rowNumber,
      checkoutDate := checkoutDate,
      providerName := BackfillRead.OrElse(CellToString(CellAt(row, BackfillRead.ProviderColumn)), "Unknown Tech"),
      providerId := "",
      transactionId := BackfillRead.OrElse(CellToString(CellAt(row, BackfillRead.TransactionColumn)),
                                           "dec2025-" + suffix + "-row-" + NatToString(rowNumber)),
      itemSold := itemSold,
      amountDue := CellToNumber(CellAt(row, BackfillRead.AmountDueColumn)),
      tip := CellToNumber(CellAt(row, BackfillRead.TipColumn)),
      cashTendered := AtLeastZero(CellToNumber(CellAt(row, BackfillRead.CashColumn))),
      ccAmount := AtLeastZero(CellToNumber(CellAt(row, BackfillRead.CardColumn))),
      gcRedemption := AtLeastZero(CellToNumber(CellAt(row, BackfillRead.GiftCardColumn))),
      changeDue := AtLeastZero(CellToNumber(CellAt(row, BackfillRead.ChangeDueColumn))),
      checkedOutBy := BackfillRead.OrElse(CellToString(CellAt(row, BackfillRead.CheckedOutByColumn)), "manual-upload"),
      source := BackfillRead.OrElse(CellToString(CellAt(row, BackfillRead.SourceColumn)), "Manual"),
      chargeMethod := BackfillRead.OrElse(CellToString(CellAt(row, BackfillRead.ChargeMethodColumn)), "Manual"),
      customerName := BackfillRead.OrElse(CellToString(CellAt(row, BackfillRead.CustomerColumn)), "Customer " + NatToString(rowNumber)),
      appointmentDate := ParseLocalDate(env, CellAt(row, BackfillRead.AppointmentColumn)))
  }

  /** The clamped amounts keep a non-negative cell value and turn a negative one into 0. */
  lemma BuildRowAmounts(env: Eastern.Oracles, file: string, suffix: string,
                        row: Row, rowNumber: nat, itemSold: string, checkoutDate: int)
    ensures var r := BuildRow(env, file, suffix, row, rowNumber, itemSold, checkoutDate);
            var cash := CellToNumber(CellAt(row, BackfillRead.CashColumn));
            var change := CellToNumber(CellAt(row, BackfillRead.ChangeDueColumn));
            (cash >= 0.0 ==> r.cashTendered == cash) && (cash < 0.0 ==> r.cashTendered == 0.0)
            && (change >= 0.0 ==> r.changeDue == change) && (change < 0.0 ==> r.changeDue == 0.0)
            && r.amountDue == CellToNumber(CellAt(row, BackfillRead.AmountDueColumn))
            && r.tip == CellToNumber(CellAt(row, BackfillRead.TipColumn))
  {
    hide CellToNumber, CellToString, ParseLocalDate, NatToString;
  }

  /** A blank transaction cell gets the id `dec2025-{file}-row-{n}`, and a blank provider is "Unknown Tech". */
  lemma BuildRowDefaults(env: Eastern.Oracles, file: string, suffix: string,
                         row: Row, rowNumber: nat, itemSold: string, checkoutDate: int)
    ensures var r := BuildRow(env, file, suffix, row, rowNumber, itemSold, checkoutDate);
            var tx := CellToString(CellAt(row, BackfillRead.TransactionColumn));
            (tx == "" ==> r.transactionId == "dec2025-" + suffix + "-row-" + NatToString(rowNumber))
            && (tx != "" ==> r.transactionId == tx)
            && (CellToString(CellAt(row, BackfillRead.ProviderColumn)) == "" ==> r.providerName == "Unknown Tech")
  {
    hide CellToNumber, CellToString, ParseLocalDate, NatToString;
  }

  /** The tests of the loop body, in the order the reader applies them. */
  function ClassifyRow(env: Eastern.Oracles, file: string, suffix: string, row: Row, rowNumber: nat): Decision
  {
    var itemSold := CellToString(CellAt(row, BackfillRead.ItemSoldColumn));
    if itemSold != "" && Lower(Trim(itemSold)) == "total" then BackfillRead.Stop
    else if itemSold == "" then BackfillRead.SkipBlank
    else
      match ParseLocalDate(env, CellAt(row, BackfillRead.CheckoutColumn))
      case None => BackfillRead.SkipNoDate
      case Some(checkoutDate) =>
        if BackfillRead.IsSummaryLabel(Lower(Trim(itemSold))) then BackfillRead.SkipSummary
        else BackfillRead.Push(BuildRow(env, file, suffix, row, rowNumber, itemSold, checkoutDate))
  }

  /**
   * What each decision means: the totals row stops the scan, a blank item is
   * skipped, an undated row is skipped, and a pushed row passed every test.
   */
  lemma ClassifyRowMeaning(env: Eastern.Oracles, file: string, suffix: string, row: Row, rowNumber: nat)
    ensures var d := ClassifyRow(env, file, suffix, row, rowNumber);
            var itemSold := CellToString(CellAt(row, BackfillRead.ItemSoldColumn));
            (d.Stop? <==> itemSold != "" && Lower(Trim(itemSold)) == "total")
            && (d.SkipBlank? <==> itemSold == "")
            && (d.SkipNoDate? <==> itemSold != "" && Lower(Trim(itemSold)) != "total"
                                   && ParseLocalDate(env, CellAt(row, BackfillRead.CheckoutColumn)).None?)
            && (d.Push? ==>
                  d.row.itemSold == itemSold && d.row.rowNumber == rowNumber && d.row.file == file
                  && !BackfillRead.IsSummaryLabel(Lower(Trim(itemSold)))
                  && ParseLocalDate(env, CellAt(row, BackfillRead.CheckoutColumn)) == Some(d.row.checkoutDate))
  {
    hide BuildRow, CellToString, Lower, Trim, ParseLocalDate, BackfillRead.IsSummaryLabel, CellAt;
  }

  /** What every pushed row satisfies. */
  predicate ValidRow(r: XlsxRow) {
    r.itemSold != "" && Trimmed(r.itemSold) && Lower(Trim(r.itemSold)) != "total"
    && !BackfillRead.IsSummaryLabel(Lower(Trim(r.itemSold)))
    && r.transactionId != "" && r.customerName != "" && r.checkedOutBy != ""
    && r.source != "" && r.chargeMethod != "" && r.providerName != "" && r.providerId == ""
    && r.cashTendered >= 0.0 && r.changeDue >= 0.0 && r.ccAmount >= 0.0 && r.gcRedemption >= 0.0
  }

  /** A pushed row is valid and carries its own file and row number. */
  lemma PushedRowValid(env: Eastern.Oracles, file: string, suffix: string, row: Row, rowNumber: nat)
    ensures var d := ClassifyRow(env, file, suffix, row, rowNumber);
            d.Push? ==> ValidRow(d.row) && d.row.rowNumber == rowNumber && d.row.file == file
  {
    ClassifyRowMeaning(env, file, suffix, row, rowNumber);
    CellToStringTrimmed(CellAt(row, BackfillRead.ItemSoldColumn));
  }

  /** The decision for every row from row `n` to the last. */
  function DecisionsFrom(env: Eastern.Oracles, file: string, suffix: string, grid: Grid, n: nat): (ds: seq<Decision>)
    ensures |ds| == if n > |grid| then 0 else |grid| + 1 - n
    decreases |grid| + 1 - n
  {
    if n > |grid| then []
    else [ClassifyRow(env, file, suffix, RowAt(grid, n), n)] + DecisionsFrom(env, file, suffix, grid, n + 1)
  }

  /** The decision for row `k` sits at position `k - n`. */
  lemma {:induction false} DecisionAt(env: Eastern.Oracles, file: string, suffix: string, grid: Grid, n: nat, k: nat)
    requires n <= k <= |grid|
    ensures DecisionsFrom(env, file, suffix, grid, n)[k - n] == ClassifyRow(env, file, suffix, RowAt(grid, k), k)
    decreases k - n
  {
    hide ClassifyRow;
    if k > n {
      DecisionAt(env, file, suffix, grid, n + 1, k);
    }
  }

  /** A valid row read from `file`. */
  predicate ValidRowOf(file: string, r: XlsxRow) {
    ValidRow(r) && r.file == file
  }

  lemma DecisionsWellDecided(env: Eastern.Oracles, file: string, suffix: string, grid: Grid, n: nat)
    ensures BackfillRead.WellDecided(DecisionsFrom(env, file, suffix, grid, n), n, r => ValidRowOf(file, r))
  {
    hide ClassifyRow, ValidRow;
    var ds := DecisionsFrom(env, file, suffix, grid, n);
    forall p | 0 <= p < |ds| && ds[p].Push?
      ensures ValidRowOf(file, ds[p].row) && ds[p].row.rowNumber == n + p
    {
      DecisionAt(env, file, suffix, grid, n, n + p);
      PushedRowValid(env, file, suffix, RowAt(grid, n + p), n + p);
    }
  }

  /** The rows `readXlsx` returns, or the error it throws. */
  function ReadXlsxSpec(env: Eastern.Oracles, files: BackfillRead.Files, filePath: string): (r: Result<seq<XlsxRow>, string>)
  {
    var file := BackfillRead.Basename(filePath);
    match files(filePath)
    case None => Err("cannot read " + filePath)
    case Some(sheets) =>
      if sheets == [] then Err(file + " has no sheets")
      else if |sheets[0]| < BackfillRead.HeaderRowNumber then
        Err(file + " has only " + NatToString(|sheets[0]|) + " rows; expected header at row 23")
      else
        Ok(BackfillRead.Collect(DecisionsFrom(env, file, BackfillRead.StripXlsx(file), sheets[0],
                                              BackfillRead.HeaderRowNumber + 1), 0))
  }

  /** Rows of one file with row numbers that increase along the sequence. */
  predicate OrderedRowsOf(file: string, rows: seq<XlsxRow>) {
    (forall j :: 0 <= j < |rows| ==> ValidRowOf(file, rows[j]) && rows[j].rowNumber > BackfillRead.HeaderRowNumber)
    && (forall a, b :: 0 <= a < b < |rows| ==> rows[a].rowNumber < rows[b].rowNumber)
  }

  /**
   * The rows a successful read returns are valid, all from the named file,
   * come after the header and keep the sheet's order.
   */
  lemma ReadRowsValid(env: Eastern.Oracles, files: BackfillRead.Files, filePath: string)
    requires ReadXlsxSpec(env, files, filePath).Ok?
    ensures OrderedRowsOf(BackfillRead.Basename(filePath), ReadXlsxSpec(env, files, filePath).value)
  {
    hide ValidRowOf;
    var file := BackfillRead.Basename(filePath);
    var grid := files(filePath).value[0];
    var ds := DecisionsFrom(env, file, BackfillRead.StripXlsx(file), grid, BackfillRead.HeaderRowNumber + 1);
    DecisionsWellDecided(env, file, BackfillRead.StripXlsx(file), grid, BackfillRead.HeaderRowNumber + 1);
    BackfillRead.CollectedRows(ds, BackfillRead.HeaderRowNumber + 1, 0, r => ValidRowOf(file, r));
  }

  /** `readXlsx`: the checks on the workbook, then the scan of its first sheet. */
  method ReadXlsx(env: Eastern.Oracles, files: BackfillRead.Files, filePath: string)
    returns (r: Result<seq<XlsxRow>, string>)
    ensures r == ReadXlsxSpec(env, files, filePath)
  {
    hide DecisionsFrom, BackfillRead.Collect, NatToString;
    var file := BackfillRead.Basename(filePath);
    var sheets := files(filePath);
    if sheets.None? {
      return Err("cannot read " + filePath);
    }
    if sheets.value == [] {
      return Err(file + " has no sheets");
    }
    var grid := sheets.value[0];
    if |grid| < BackfillRead.HeaderRowNumber {
      return Err(file + " has only " + NatToString(|grid|) + " rows; expected header at row 23");
    }
    var rows := ScanRows(env, file, BackfillRead.StripXlsx(file), grid);
    r := Ok(rows);
  }

  /** The loop over the data rows: push, skip or stop, row by row. */
  method ScanRows(env: Eastern.Oracles, file: string, suffix: string, grid: Grid) returns (rows: seq<XlsxRow>)
    requires |grid| >= BackfillRead.HeaderRowNumber
    ensures rows == BackfillRead.Collect(DecisionsFrom(env, file, suffix, grid, BackfillRead.HeaderRowNumber + 1), 0)
  {
    hide ClassifyRow, DecisionsFrom, RowAt, BackfillRead.Collect;
    ghost var ds := DecisionsFrom(env, file, suffix, grid, BackfillRead.HeaderRowNumber + 1);
    rows := [];
    var rowNumber: nat := BackfillRead.HeaderRowNumber + 1;
    while rowNumber <= |grid|
      invariant BackfillRead.HeaderRowNumber + 1 <= rowNumber <= |grid| + 1
      invariant rows + BackfillRead.Collect(ds, rowNumber - BackfillRead.HeaderRowNumber - 1) == BackfillRead.Collect(ds, 0)
      decreases |grid| + 1 - rowNumber
    {
      ghost var k := rowNumber - BackfillRead.HeaderRowNumber - 1;
      var decision := ClassifyRow(env, file, suffix, RowAt(grid, rowNumber), rowNumber);
      DecisionAt(env, file, suffix, grid, BackfillRead.HeaderRowNumber + 1, rowNumber);
      BackfillRead.CollectStep(ds, k);
      if decision.Stop? {
        return;
      } else if decision.Push? {
        assert (rows + [decision.row]) + BackfillRead.Collect(ds, k + 1) == rows + ([decision.row] + BackfillRead.Collect(ds, k + 1));
        rows := rows + [decision.row];
      }
      rowNumber := rowNumber + 1;
    }
    BackfillRead.CollectStep(ds, |ds|);
  }
}
