/**
 * `importIsaSheet.ts`: reads the transaction export `isa.xlsx` from row 24
 * on, resolves each row's provider by name in the provider directory, and
 * inserts one created-transaction event per row whose event id is not yet
 * stored.  An unknown provider or an unreadable checkout date aborts the
 * whole import before anything is written.
 */
module ImportIsa {
  import opened Wrappers
  import opened Text
  import opened Js
  import opened Sheet
  import Calendar
  import Eastern
  import Employees
  import BackfillIds
  import BackfillRead
  import Store
  import VagaroRoute
  import SheetImport

  /** The first row holding data; the rows above are the report's header. */
  const FirstDataRow: nat := 24

  /** The workbook the script reads. */
  const IsaPath := "src/csv/isa.xlsx"

  /** The constants of the rows this importer writes. */
  const IsaOrigin := SheetImport.Origin(
    businessId := "manual-import",
    businessAlias := "Manual Import",
    businessGroupId := "manual-group",
    serviceCategory := "ManualImport",
    uploadFile := "isa.xlsx",
    sourceIp := "manual-import",
    userAgent := "excel-import-script")

  /** One transaction row, as the script collects it before writing anything. */
  datatype Transaction = Transaction(
    rowNumber: nat,
    transactionId: string,
    checkoutDate: int,
    appointmentDate: Option<int>,
    customerName: string,
    serviceProviderName: string,
    serviceProviderId: string,
    itemSold: string,
    purchaseType: string,
    quantity: real,
    price: real,
    tax: real,
    tip: real,
    discount: real,
    amountPaid: real,
    cash: real,
    changeDue: real,
    check: real,
    gcRedemption: real,
    packageRedemption: real,
    membership: real,
    cc: real,
    bankAccount: real,
    buyNowPayLater: real,
    otherAmount: real,
    iouAmount: real,
    source: string,
    chargeMethod: string,
    checkedOutBy: string)

  /** What the row callback does: return early, throw, or push a transaction. */
  datatype RowOutcome = Skip | Fail(message: string) | Take(tx: Transaction)

  // ---- Cells -----------------------------------------------------------------

  /** This script's `cellToString`: a formula shows its result whatever its type. */
  function CellText(c: Cell): string {
    CellToStringAnyResult(c)
  }

  /** This script's `cellToNumber`: numbers pass, otherwise the numeral characters of the cell's text, or 0. */
  function CellNumber(c: Cell): real {
    if c.Empty? then 0.0
    else if c.Number? then c.number
    else
      var s := CellText(c);
      if s == "" then 0.0
      else
        var cleaned := Keep(s, IsNumeralChar);
        if cleaned == [] then 0.0
        else
          match ParseNumber(cleaned)
          case Finite(x) => x
          case _ => 0.0
  }

  /** This script's `parseLocalDate`, over its own `cellToString`. */
  function CellDate(env: Eastern.Oracles, c: Cell): Option<int> {
    if c.Date? then Some(c.time)
    else
      var s := CellText(c);
      if s == "" then None
      else
        var n := ReplaceSpacedDashes(s);
        match env.parseDate(n + " ET")
        case Some(t) => Some(t)
        case None => env.parseDate(n)
  }

  /**
   * The readers differ from the other scripts' only on formula cells: on
   * every other cell they give the same text, number and date.
   */
  lemma CellReadersAgree(env: Eastern.Oracles, c: Cell)
    requires !c.Formula?
    ensures CellText(c) == CellToString(c)
    ensures CellNumber(c) == CellToNumber(c)
    ensures CellDate(env, c) == ParseLocalDate(env, c)
  {
    hide ParseNumber, ReplaceSpacedDashes, CellToString;
    if !c.Empty? && !c.Number? && CellText(c) == "" {
      assert Keep(CellText(c), IsNumeralChar) == [];
    }
  }

  /** A formula whose result is a number is read as that number's text, where the other scripts read `[object Object]`. */
  lemma FormulaNumberText(x: real)
    ensures CellText(Formula(Num(Finite(x)))) == Trim(if x != 0.0 then NumberToString(x) else "")
    ensures CellToString(Formula(Num(Finite(x)))) == "[object Object]"
  {
    hide NumberToString, Trim;
  }

  // ---- Provider lookup -------------------------------------------------------

  /** Names compare equal after trimming and lower-casing. */
  predicate SameName(a: string, b: string) {
    Lower(Trim(a)) == Lower(Trim(b))
  }

  /** `Object.entries(providerDirectory).find(...)`: the first entry whose name is the provider's. */
  function ProviderIndex(dir: Employees.Directory, providerName: string): (r: Option<nat>)
    ensures r.Some? ==> r.value < |dir| && SameName(dir[r.value].1, providerName)
                        && forall j :: 0 <= j < r.value ==> !SameName(dir[j].1, providerName)
    ensures r.None? <==> forall j :: 0 <= j < |dir| ==> !SameName(dir[j].1, providerName)
  {
    BackfillIds.FindFrom(dir, name => SameName(name, providerName), 0)
  }

  /** Every directory name finds its own entry (the directory's names are distinct). */
  lemma DirectoryNamesFound(i: nat)
    requires i < |Employees.ProviderDirectory|
    ensures ProviderIndex(Employees.ProviderDirectory, Employees.ProviderDirectory[i].1).Some?
  {
    assert SameName(Employees.ProviderDirectory[i].1, Employees.ProviderDirectory[i].1);
  }

  // ---- Rows ------------------------------------------------------------------

  /** The transaction of a row that passed every test, read column by column. */
  function BuildTransaction(env: Eastern.Oracles, row: Row, rowNumber: nat, itemSold: string, transactionId: string,
                            providerName: string, providerId: string, checkoutDate: int): (t: Transaction)
    ensures t.rowNumber == rowNumber && t.itemSold == itemSold && t.transactionId == transactionId
    ensures t.serviceProviderName == providerName && t.serviceProviderId == providerId
    ensures t.checkoutDate == checkoutDate
    ensures t.customerName != "" && t.purchaseType != "" && t.quantity != 0.0
  {
    Transaction(
      rowNumber := rowNumber,
      transactionId := transactionId,
      checkoutDate := checkoutDate,
      appointmentDate := CellDate(env, CellAt(row, 4)),
      customerName := BackfillRead.OrElse(CellText(CellAt(row, 5)), "Customer " + NatToString(rowNumber)),
      serviceProviderName := providerName,
      serviceProviderId := providerId,
      itemSold := itemSold,
      purchaseType := BackfillRead.OrElse(CellText(CellAt(row, 7)), "Services"),
      quantity := SheetImport.QuantityOr1(CellNumber(CellAt(row, 11))),
      price := CellNumber(CellAt(row, 12)),
      tax := CellNumber(CellAt(row, 13)),
      tip := CellNumber(CellAt(row, 14)),
      discount := CellNumber(CellAt(row, 15)),
      amountPaid := CellNumber(CellAt(row, 16)),
      cash := CellNumber(CellAt(row, 17)),
      changeDue := CellNumber(CellAt(row, 32)),
      check := CellNumber(CellAt(row, 18)),
      gcRedemption := CellNumber(CellAt(row, 19)),
      packageRedemption := CellNumber(CellAt(row, 20)),
      membership := CellNumber(CellAt(row, 21)),
      cc := CellNumber(CellAt(row, 22)),
      bankAccount := CellNumber(CellAt(row, 23)),
      buyNowPayLater := CellNumber(CellAt(row, 24)),
      otherAmount := CellNumber(CellAt(row, 25)),
      iouAmount := CellNumber(CellAt(row, 26)),
      source := CellText(CellAt(row, 8)),
      chargeMethod := CellText(CellAt(row, 31)),
      checkedOutBy := CellText(CellAt(row, 2)))
  }

  function UnknownProviderMessage(providerName: string, rowNumber: nat): string {
    "No provider ID mapping found for " + providerName + " (row " + NatToString(rowNumber) + ")"
  }

  function BadDateMessage(rowNumber: nat): string {
    "Could not parse checkout date for row " + NatToString(rowNumber)
  }

  /** The row callback: its early returns, its two throws, and the push. */
  function ReadRow(env: Eastern.Oracles, dir: Employees.Directory, row: Row, rowNumber: nat): RowOutcome {
    if rowNumber < FirstDataRow then Skip
    else
      var itemSold := CellText(CellAt(row, 6));
      var transactionId := CellText(CellAt(row, 3));
      var providerName := CellText(CellAt(row, 9));
      if itemSold == "" || Lower(itemSold) == "total" then Skip
      else if transactionId == "" then Skip
      else if providerName == "" then Skip
      else
        match ProviderIndex(dir, providerName)
        case None => Fail(UnknownProviderMessage(providerName, rowNumber))
        case Some(i) =>
          match CellDate(env, CellAt(row, 1))
          case None => Fail(BadDateMessage(rowNumber))
          case Some(checkoutDate) =>
            Take(BuildTransaction(env, row, rowNumber, itemSold, transactionId, providerName, dir[i].0, checkoutDate))
  }

  /** The rows the callback passes over without a word. */
  predicate Skipped(row: Row, rowNumber: nat) {
    rowNumber < FirstDataRow
    || CellText(CellAt(row, 6)) == "" || Lower(CellText(CellAt(row, 6))) == "total"
    || CellText(CellAt(row, 3)) == "" || CellText(CellAt(row, 9)) == ""
  }

  /** What a transaction taken from the sheet satisfies. */
  predicate ValidTransaction(dir: Employees.Directory, t: Transaction) {
    t.rowNumber >= FirstDataRow
    && t.itemSold != "" && Lower(t.itemSold) != "total" && t.transactionId != "" && t.serviceProviderName != ""
    && ProviderIndex(dir, t.serviceProviderName).Some?
    && dir[ProviderIndex(dir, t.serviceProviderName).value].0 == t.serviceProviderId
    && t.customerName != "" && t.purchaseType != "" && t.quantity != 0.0
  }

  /**
   * What each outcome means: a row is skipped when it is above the data or
   * misses an item, a transaction id or a provider (or is the totals line);
   * otherwise an unknown provider throws, then an unreadable checkout date
   * throws, and every other row is taken, with its provider's id.
   */
  lemma ReadRowMeaning(env: Eastern.Oracles, dir: Employees.Directory, row: Row, rowNumber: nat)
    ensures var o := ReadRow(env, dir, row, rowNumber);
            var providerName := CellText(CellAt(row, 9));
            (o.Skip? <==> Skipped(row, rowNumber))
            && (!Skipped(row, rowNumber) && ProviderIndex(dir, providerName).None? ==>
                  o == Fail(UnknownProviderMessage(providerName, rowNumber)))
            && (!Skipped(row, rowNumber) && ProviderIndex(dir, providerName).Some? && CellDate(env, CellAt(row, 1)).None? ==>
                  o == Fail(BadDateMessage(rowNumber)))
            && (o.Take? ==> ValidTransaction(dir, o.tx) && o.tx.rowNumber == rowNumber
                            && o.tx.serviceProviderName == providerName
                            && CellDate(env, CellAt(row, 1)) == Some(o.tx.checkoutDate))
  {
    hide BuildTransaction, CellText, CellDate, ProviderIndex, Lower, CellAt;
    var o := ReadRow(env, dir, row, rowNumber);
    if o.Take? {
      var providerName := CellText(CellAt(row, 9));
      var i := ProviderIndex(dir, providerName).value;
      var built := BuildTransaction(env, row, rowNumber, CellText(CellAt(row, 6)), CellText(CellAt(row, 3)),
                                    providerName, dir[i].0, CellDate(env, CellAt(row, 1)).value);
    }
  }

  /** `eachRow` from row `n` on: the transactions pushed, or the first row's throw. */
  function ReadRows(env: Eastern.Oracles, dir: Employees.Directory, grid: Grid, n: nat): Result<seq<Transaction>, string>
    decreases |grid| + 1 - n
  {
    hide ReadRow;
    if n > |grid| then Ok([])
    else
      match ReadRow(env, dir, RowAt(grid, n), n)
      case Skip => ReadRows(env, dir, grid, n + 1)
      case Fail(m) => Err(m)
      case Take(t) =>
        match ReadRows(env, dir, grid, n + 1)
        case Ok(rest) => Ok([t] + rest)
        case Err(m) => Err(m)
  }

  /** Row `k` of the sheet has thrown. */
  predicate FailsAt(env: Eastern.Oracles, dir: Employees.Directory, grid: Grid, k: nat) {
    ReadRow(env, dir, RowAt(grid, k), k).Fail?
  }

  /** Valid transactions from rows `n` on, in increasing row order. */
  predicate OrderedFrom(dir: Employees.Directory, ts: seq<Transaction>, n: nat) {
    (forall j :: 0 <= j < |ts| ==> ValidTransaction(dir, ts[j]) && ts[j].rowNumber >= n)
    && (forall a, b :: 0 <= a < b < |ts| ==> ts[a].rowNumber < ts[b].rowNumber)
  }

  lemma OrderedCons(dir: Employees.Directory, t: Transaction, rest: seq<Transaction>, n: nat)
    requires ValidTransaction(dir, t) && t.rowNumber == n && OrderedFrom(dir, rest, n + 1)
    ensures OrderedFrom(dir, [t] + rest, n)
  {
    hide ValidTransaction;
    var s := [t] + rest;
    assert forall j :: 1 <= j < |s| ==> s[j] == rest[j - 1];
  }

  lemma OrderedLater(dir: Employees.Directory, ts: seq<Transaction>, n: nat)
    requires OrderedFrom(dir, ts, n + 1)
    ensures OrderedFrom(dir, ts, n)
  {
    hide ValidTransaction;
  }

  lemma OrderedNone(dir: Employees.Directory, n: nat)
    ensures OrderedFrom(dir, [], n)
  {
  }

  /** The transactions read are valid, come from data rows, and keep the sheet's order. */
  lemma {:induction false} ReadRowsOrdered(env: Eastern.Oracles, dir: Employees.Directory, grid: Grid, n: nat)
    requires ReadRows(env, dir, grid, n).Ok?
    ensures OrderedFrom(dir, ReadRows(env, dir, grid, n).value, n)
    decreases |grid| + 1 - n
  {
    hide ReadRow, OrderedFrom, ValidTransaction;
    if n <= |grid| {
      var o := ReadRow(env, dir, RowAt(grid, n), n);
      ReadRowsOrdered(env, dir, grid, n + 1);
      if o.Take? {
        ReadRowMeaning(env, dir, RowAt(grid, n), n);
        OrderedCons(dir, o.tx, ReadRows(env, dir, grid, n + 1).value, n);
      } else {
        OrderedLater(dir, ReadRows(env, dir, grid, n + 1).value, n);
      }
    } else {
      assert ReadRows(env, dir, grid, n).value == [];
      OrderedNone(dir, n);
    }
  }

  /** A throw aborts the read with the message of the first row that throws. */
  lemma {:induction false} ReadRowsError(env: Eastern.Oracles, dir: Employees.Directory, grid: Grid, n: nat)
    requires ReadRows(env, dir, grid, n).Err?
    ensures exists k :: n <= k <= |grid| && ReadRow(env, dir, RowAt(grid, k), k) == Fail(ReadRows(env, dir, grid, n).error)
                        && forall j :: n <= j < k ==> !FailsAt(env, dir, grid, j)
    decreases |grid| + 1 - n
  {
    hide ReadRow;
    var m := ReadRows(env, dir, grid, n).error;
    var o := ReadRow(env, dir, RowAt(grid, n), n);
    if o.Fail? {
      assert ReadRow(env, dir, RowAt(grid, n), n) == Fail(m);
    } else {
      ReadRowsError(env, dir, grid, n + 1);
      var k :| n + 1 <= k <= |grid| && ReadRow(env, dir, RowAt(grid, k), k) == Fail(m)
               && forall j :: n + 1 <= j < k ==> !FailsAt(env, dir, grid, j);
      assert !FailsAt(env, dir, grid, n);
    }
  }

  /** Without a throwing row, the read succeeds. */
  lemma {:induction false} ReadRowsSucceed(env: Eastern.Oracles, dir: Employees.Directory, grid: Grid, n: nat)
    requires forall k :: n <= k <= |grid| ==> !FailsAt(env, dir, grid, k)
    ensures ReadRows(env, dir, grid, n).Ok?
    decreases |grid| + 1 - n
  {
    hide ReadRow;
    if n <= |grid| {
      assert !FailsAt(env, dir, grid, n);
      ReadRowsSucceed(env, dir, grid, n + 1);
    }
  }

  /** Every row the callback takes is among the transactions read. */
  lemma {:induction false} ReadRowsComplete(env: Eastern.Oracles, dir: Employees.Directory, grid: Grid, n: nat, k: nat)
    requires ReadRows(env, dir, grid, n).Ok?
    requires n <= k <= |grid| && ReadRow(env, dir, RowAt(grid, k), k).Take?
    ensures ReadRow(env, dir, RowAt(grid, k), k).tx in ReadRows(env, dir, grid, n).value
    decreases k - n
  {
    hide ReadRow;
    if k > n {
      ReadRowsComplete(env, dir, grid, n + 1, k);
    }
  }

  // ---- The import ------------------------------------------------------------

  /** The transactions the script prepares, or the error that ends it before any write. */
  function PrepareSpec(env: Eastern.Oracles, dir: Employees.Directory, files: BackfillRead.Files): Result<seq<Transaction>, string> {
    match files(IsaPath)
    case None => Err("cannot read " + IsaPath)
    case Some(sheets) =>
      if sheets == [] then Err("isa.xlsx is empty")
      else ReadRows(env, dir, sheets[0], 1)
  }

  /** `manual-{transactionId}-{rowNumber}`. */
  function EventId(t: Transaction): string {
    "manual-" + t.transactionId + "-" + NatToString(t.rowNumber)
  }

  /** The transaction body the script stores for one transaction. */
  function BodyOf(t: Transaction): SheetImport.Body {
    var n := NatToString(t.rowNumber);
    SheetImport.Body(
      transactionDate := Calendar.IsoString(t.checkoutDate),
      transactionId := t.transactionId,
      userPaymentId := "manual-payment-" + n,
      userPaymentsMstId := "manual-mst-" + n,
      brandName := if t.chargeMethod != "" then Some(t.chargeMethod) else None,
      itemSold := t.itemSold,
      purchaseType := BackfillRead.OrElse(t.purchaseType, "Services"),
      quantity := t.quantity,
      ccAmount := t.cc,
      cashAmount := SheetImport.NetCash(t.cash, t.changeDue),
      checkAmount := t.check,
      packageRedemption := t.packageRedemption,
      bankAccountAmount := t.bankAccount,
      vagaroPayLaterAmount := t.buyNowPayLater,
      otherAmount := t.otherAmount,
      gcRedemption := t.gcRedemption,
      tax := NumberToString(t.tax),
      tip := t.tip,
      discount := t.discount,
      memberShipAmount := t.membership,
      ccType := BackfillRead.OrElse(t.chargeMethod, "Manual"),
      customerId := SheetImport.CustomerId("manual-customer-", t.customerName, t.rowNumber),
      serviceProviderId := t.serviceProviderId,
      serviceProviderName := t.serviceProviderName,
      amountDue := t.amountPaid,
      appointmentId := SheetImport.AppointmentIdOfText("manual-appt-",
                         Calendar.IsoString(if t.appointmentDate.Some? then t.appointmentDate.value else t.checkoutDate),
                         t.rowNumber),
      createdBy := BackfillRead.OrElse(t.checkedOutBy, "manual-upload"),
      source := BackfillRead.OrElse(t.source, "Manual"),
      changeDue := t.changeDue,
      customerName := t.customerName,
      appointmentDate := if t.appointmentDate.Some? then Some(Calendar.IsoString(t.appointmentDate.value)) else None,
      iouAmount := t.iouAmount)
  }

  /** The row written for one transaction, received at `now`. */
  function EventOf(now: int, t: Transaction): Store.StoredEvent {
    SheetImport.StoredEventOf(IsaOrigin, EventId(t), t.checkoutDate, now, BodyOf(t))
  }

  /** The rows written for the transactions, in order. */
  function EventsOf(now: int, ts: seq<Transaction>): (es: seq<Store.StoredEvent>)
    ensures |es| == |ts|
    ensures forall j :: 0 <= j < |ts| ==> es[j] == EventOf(now, ts[j])
  {
    hide EventOf;
    seq(|ts|, j requires 0 <= j < |ts| => EventOf(now, ts[j]))
  }

  /** Transactions on different rows get different event ids. */
  lemma EventIdsDistinct(a: Transaction, b: Transaction)
    requires a.rowNumber != b.rowNumber
    ensures EventId(a) != EventId(b)
  {
    if EventId(a) == EventId(b) {
      DashNumberInjective("manual-" + a.transactionId, a.rowNumber, "manual-" + b.transactionId, b.rowNumber);
    }
  }

  /** The rows written for ordered transactions have distinct event ids. */
  lemma EventsUnique(dir: Employees.Directory, now: int, ts: seq<Transaction>, n: nat)
    requires OrderedFrom(dir, ts, n)
    ensures Store.UniqueEventIds(EventsOf(now, ts))
  {
    hide EventOf, ValidTransaction;
    var es := EventsOf(now, ts);
    forall a, b | 0 <= a < b < |es| ensures es[a].eventId != es[b].eventId {
      EventIdsDistinct(ts[a], ts[b]);
      EventOfId(now, ts[a]);
      EventOfId(now, ts[b]);
    }
  }

  lemma EventOfId(now: int, t: Transaction)
    ensures EventOf(now, t).eventId == EventId(t)
  {
    hide Calendar.IsoString, SheetImport.EventValue, BodyOf, EventId;
  }

  /**
   * The stored row keeps the cash net of the change given back, never
   * below zero, and the backfill route later counts that cash less the
   * amount paid.
   */
  lemma ImportedCash(now: int, t: Transaction)
    ensures BodyOf(t).cashAmount >= 0.0 && BodyOf(t).cashAmount >= t.cash - t.changeDue
    ensures t.cash >= t.changeDue ==> BodyOf(t).cashAmount == t.cash - t.changeDue
    ensures EventOf(now, t).cashCollected.None?
    ensures VagaroRoute.DeriveCashCollected(EventOf(now, t).payload) == BodyOf(t).cashAmount - t.amountPaid
  {
    hide Calendar.IsoString, SheetImport.StoredEventOf, SheetImport.CustomerId, SheetImport.AppointmentIdOfText, NumberToString;
    SheetImport.StoredCash(IsaOrigin, EventId(t), t.checkoutDate, now, BodyOf(t));
  }

  /**
   * `main`: prepare every transaction first (a throw writes nothing), then
   * look up and insert them one by one.  The result is the number inserted.
   */
  method Import(env: Eastern.Oracles, dir: Employees.Directory, files: BackfillRead.Files, store: Store.EventStore)
    returns (r: Result<nat, string>)
    requires store.Valid()
    modifies store
    ensures store.Valid() && store.online == old(store.online)
    ensures PrepareSpec(env, dir, files).Err? ==>
              r == Err(PrepareSpec(env, dir, files).error) && store.events == old(store.events)
    ensures PrepareSpec(env, dir, files).Ok? && old(store.online) ==>
              var batch := EventsOf(env.now, PrepareSpec(env, dir, files).value);
              store.events == old(store.events) + Store.NewRows(old(store.events), batch)
              && r == Ok(|Store.NewRows(old(store.events), batch)|)
    ensures PrepareSpec(env, dir, files).Ok? && !old(store.online) ==>
              store.events == old(store.events)
              && r == if PrepareSpec(env, dir, files).value == [] then Ok(0) else Err(Store.DatabaseError)
  {
    hide ReadRows, EventsOf;
    var sheets := files(IsaPath);
    if sheets.None? {
      return Err("cannot read " + IsaPath);
    }
    if sheets.value == [] {
      return Err("isa.xlsx is empty");
    }
    var transactions := ReadTransactions(env, dir, sheets.value[0]);
    if transactions.Err? {
      return Err(transactions.error);
    }
    var batch := EventsOf(env.now, transactions.value);
    assert batch == [] <==> transactions.value == [] by {
      assert |batch| == |transactions.value|;
    }
    r := SheetImport.InsertMissing(store, batch);
  }

  /** `Ok(prefix + rest)` for a successful read of the rest, the error otherwise. */
  function After(prefix: seq<Transaction>, rest: Result<seq<Transaction>, string>): Result<seq<Transaction>, string> {
    if rest.Ok? then Ok(prefix + rest.value) else rest
  }

  /** The `eachRow` loop: the callback on every row in turn, pushing or throwing. */
  method ReadTransactions(env: Eastern.Oracles, dir: Employees.Directory, grid: Grid) returns (r: Result<seq<Transaction>, string>)
    ensures r == ReadRows(env, dir, grid, 1)
  {
    hide ReadRow, RowAt;
    var transactions: seq<Transaction> := [];
    var rowNumber: nat := 1;
    if ReadRows(env, dir, grid, 1).Ok? {
      assert transactions + ReadRows(env, dir, grid, 1).value == ReadRows(env, dir, grid, 1).value;
    }
    while rowNumber <= |grid|
      invariant 1 <= rowNumber <= |grid| + 1
      invariant ReadRows(env, dir, grid, 1) == After(transactions, ReadRows(env, dir, grid, rowNumber))
      decreases |grid| + 1 - rowNumber
    {
      var outcome := ReadRow(env, dir, RowAt(grid, rowNumber), rowNumber);
      if outcome.Fail? {
        return Err(outcome.message);
      }
      if outcome.Take? {
        var rest := ReadRows(env, dir, grid, rowNumber + 1);
        if rest.Ok? {
          assert (transactions + [outcome.tx]) + rest.value == transactions + ([outcome.tx] + rest.value);
        }
        transactions := transactions + [outcome.tx];
      }
      rowNumber := rowNumber + 1;
    }
    r := Ok(transactions);
    assert transactions + [] == transactions;
  }

  /**
   * What one run achieves: into a table holding none of their ids, every
   * prepared transaction is inserted, once, with distinct ids; a second run
   * on the table the first one left inserts nothing.
   */
  lemma ImportOnceOnly(env: Eastern.Oracles, dir: Employees.Directory, files: BackfillRead.Files,
                       events: seq<Store.StoredEvent>)
    requires Store.UniqueEventIds(events)
    requires PrepareSpec(env, dir, files).Ok?
    ensures var batch := EventsOf(env.now, PrepareSpec(env, dir, files).value);
            Store.UniqueEventIds(batch)
            && ((forall i :: 0 <= i < |batch| ==> !Store.HasEventId(events, batch[i].eventId)) ==>
                  Store.NewRows(events, batch) == batch)
            && Store.NewRows(events + Store.NewRows(events, batch), batch) == []
  {
    hide EventsOf, ReadRows, EventOf, OrderedFrom, ReadRow;
    var grid := files(IsaPath).value[0];
    var ts := PrepareSpec(env, dir, files).value;
    var batch := EventsOf(env.now, ts);
    ReadRowsOrdered(env, dir, grid, 1);
    EventsUnique(dir, env.now, ts, 1);
    if forall i :: 0 <= i < |batch| ==> !Store.HasEventId(events, batch[i].eventId) {
      Store.NewRowsAll(events, batch);
    }
    SheetImport.RerunInsertsNothing(events, batch);
  }
}
