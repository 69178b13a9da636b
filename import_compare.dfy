/**
 * `importCompareSheet.ts`: reads `compare.xlsx` from row 2 on and imports
 * only the transactions of one provider, Isabel Guerrero, whose id is looked
 * up in the provider directory when the script loads.  Rows with an
 * unreadable checkout date are skipped with a warning; the remaining rows
 * are inserted one by one unless their event id is already stored.
 */
module ImportCompare {
  import opened Wrappers
  import opened Text
  import opened Js
  import opened Sheet
  import Calendar
  import Eastern
  import Employees
  import BackfillIds
  import BackfillRead
  import Store
  import VagaroRoute
  import SheetImport

  const TargetProviderName := "Isabel Guerrero"

  /** The workbook the script reads. */
  const ComparePath := "src/csv/compare.xlsx"

  /** The constants of the rows this importer writes. */
  const CompareOrigin := SheetImport.Origin(
    businessId := "compare-import",
    businessAlias := "Compare Import",
    businessGroupId := "compare-group",
    serviceCategory := "CompareImport",
    uploadFile := "compare.xlsx",
    sourceIp := "compare-import",
    userAgent := "excel-compare-import")

  /** One row to import: its event id, checkout time and stored body. */
  datatype Task = Task(rowNumber: nat, eventId: string, checkoutDate: int, body: SheetImport.Body)

  /** What the row callback does: return early, warn and return, or push a task. */
  datatype RowOutcome = Skip | SkipBadDate | Take(task: Task)

  /** A name is the target's once trimmed and lower-cased. */
  predicate IsTarget(name: string) {
    Lower(Trim(name)) == Lower(TargetProviderName)
  }

  /** The lookup made when the script loads: the id of the first directory entry named as the target. */
  function TargetProviderId(dir: Employees.Directory): (r: Option<string>)
    ensures r.Some? ==> exists i :: 0 <= i < |dir| && dir[i].0 == r.value && IsTarget(dir[i].1)
    ensures r.None? <==> forall i :: 0 <= i < |dir| ==> !IsTarget(dir[i].1)
  {
    match BackfillIds.FindFrom(dir, IsTarget, 0)
    case Some(i) => Some(dir[i].0)
    case None => None
  }

  lemma LowerHead(s: string)
    requires s != [] && !IsSpace(s[0])
    ensures Lower(Trim(s)) != [] && Lower(Trim(s))[0] == LowerChar(s[0])
  {
    BackfillIds.TrimKeepsHead(s);
  }

  /** A name whose first letter is not an i (in either case) is not the target's. */
  lemma NotTargetByHead(s: string)
    requires s != [] && !IsSpace(s[0]) && LowerChar(s[0]) != 'i'
    ensures !IsTarget(s)
  {
    LowerHead(s);
    assert Lower(TargetProviderName)[0] == 'i';
  }

  lemma TargetIsTarget()
    ensures IsTarget(TargetProviderName)
  {
    TrimUnchanged(TargetProviderName);
  }

  /** In the shipped directory the target is found, under its own id. */
  lemma TargetInDirectory()
    ensures TargetProviderId(Employees.ProviderDirectory) == Some("RL~9TokljBGmTZJrF~OONQ==")
  {
    hide IsTarget, Lower, Trim;
    var dir := Employees.ProviderDirectory;
    forall j | 0 <= j < 8 ensures !IsTarget(dir[j].1) {
      NotTargetByHead(dir[j].1);
    }
    TargetIsTarget();
    assert IsTarget(dir[8].1);
    var f := BackfillIds.FindFrom(dir, IsTarget, 0);
    assert f.Some? && f.value == 8;
  }

  lemma BlankNotTarget()
    ensures !IsTarget("")
  {
    assert Trim("") == "";
  }

  /** The id and body of a row of the target's that passed every test. */
  function BuildTask(env: Eastern.Oracles, targetId: string, row: Row, rowNumber: nat, itemSold: string,
                     transactionId: string, providerName: string, checkoutDate: int): (t: Task)
    ensures t.rowNumber == rowNumber && t.checkoutDate == checkoutDate
    ensures t.eventId == "manual-compare-" + transactionId + "-" + NatToString(rowNumber)
    ensures t.body.transactionId == transactionId && t.body.itemSold == itemSold
    ensures t.body.serviceProviderId == targetId && t.body.serviceProviderName == providerName
    ensures t.body.cashAmount >= 0.0 && t.body.customerName != "" && t.body.quantity != 0.0
  {
    var n := NatToString(rowNumber);
    var customerName := BackfillRead.OrElse(CellToString(CellAt(row, 5)), "Customer " + n);
    var appointmentDate := ParseLocalDate(env, CellAt(row, 4));
    var brand := CellToString(CellAt(row, 31));
    var appointmentCell := if CellAt(row, 4).Empty? then CellAt(row, 1) else CellAt(row, 4);
    Task(
      rowNumber := rowNumber,
      eventId := "manual-compare-" + transactionId + "-" + n,
      checkoutDate := checkoutDate,
      body := SheetImport.Body(
        transactionDate := Calendar.IsoString(checkoutDate),
        transactionId := transactionId,
        userPaymentId := "compare-payment-" + n,
        userPaymentsMstId := "compare-mst-" + n,
        brandName := if brand != "" then Some(brand) else None,
        itemSold := itemSold,
        purchaseType := BackfillRead.OrElse(CellToString(CellAt(row, 7)), "Services"),
        quantity := SheetImport.QuantityOr1(CellToNumber(CellAt(row, 11))),
        ccAmount := CellToNumber(CellAt(row, 22)),
        cashAmount := SheetImport.NetCash(CellToNumber(CellAt(row, 17)), CellToNumber(CellAt(row, 32))),
        checkAmount := CellToNumber(CellAt(row, 18)),
        packageRedemption := CellToNumber(CellAt(row, 20)),
        bankAccountAmount := CellToNumber(CellAt(row, 23)),
        vagaroPayLaterAmount := CellToNumber(CellAt(row, 24)),
        otherAmount := CellToNumber(CellAt(row, 25)),
        gcRedemption := CellToNumber(CellAt(row, 19)),
        tax := NumberToString(CellToNumber(CellAt(row, 13))),
        tip := CellToNumber(CellAt(row, 14)),
        discount := CellToNumber(CellAt(row, 15)),
        memberShipAmount := CellToNumber(CellAt(row, 21)),
        ccType := BackfillRead.OrElse(brand, "Manual"),
        customerId := SheetImport.CustomerId("compare-customer-", customerName, rowNumber),
        serviceProviderId := targetId,
        serviceProviderName := providerName,
        amountDue := CellToNumber(CellAt(row, 12)),
        appointmentId := SheetImport.AppointmentIdOfText("compare-appt-", CellToString(appointmentCell), rowNumber),
        createdBy := BackfillRead.OrElse(CellToString(CellAt(row, 2)), "compare-upload"),
        source := BackfillRead.OrElse(CellToString(CellAt(row, 8)), "Manual"),
        changeDue := CellToNumber(CellAt(row, 32)),
        customerName := customerName,
        appointmentDate := if appointmentDate.Some? then Some(Calendar.IsoString(appointmentDate.value)) else None,
        iouAmount := CellToNumber(CellAt(row, 26))))
  }

  /** The cash stored for a row: the cash tendered less the change, never below zero; `amountDue` is the price column. */
  lemma BuildTaskAmounts(env: Eastern.Oracles, targetId: string, row: Row, rowNumber: nat, itemSold: string,
                         transactionId: string, providerName: string, checkoutDate: int)
    ensures var t := BuildTask(env, targetId, row, rowNumber, itemSold, transactionId, providerName, checkoutDate);
            t.body.cashAmount == SheetImport.NetCash(CellToNumber(CellAt(row, 17)), CellToNumber(CellAt(row, 32)))
            && t.body.amountDue == CellToNumber(CellAt(row, 12))
  {
    hide Calendar.IsoString, CellToString, CellToNumber, ParseLocalDate, SheetImport.CustomerId,
         SheetImport.AppointmentIdOfText, NumberToString, SheetImport.NetCash;
  }

  /** The row callback: its early returns, the warning for an unreadable date, and the push. */
  function ReadRow(env: Eastern.Oracles, targetId: string, row: Row, rowNumber: nat): RowOutcome {
    if rowNumber <= 1 then Skip
    else
      var itemSold := CellToString(CellAt(row, 6));
      var transactionId := CellToString(CellAt(row, 3));
      var providerName := CellToString(CellAt(row, 9));
      if itemSold == "" || Lower(itemSold) == "total" then Skip
      else if transactionId == "" then Skip
      else if providerName == "" then Skip
      else if !IsTarget(providerName) then Skip
      else
        match ParseLocalDate(env, CellAt(row, 1))
        case None => SkipBadDate
        case Some(checkoutDate) =>
          Take(BuildTask(env, targetId, row, rowNumber, itemSold, transactionId, providerName, checkoutDate))
  }

  /** What a task taken from the sheet satisfies. */
  predicate ValidTask(targetId: string, t: Task) {
    t.rowNumber > 1
    && t.body.itemSold != "" && Lower(t.body.itemSold) != "total" && t.body.transactionId != ""
    && IsTarget(t.body.serviceProviderName) && t.body.serviceProviderId == targetId
    && t.eventId == "manual-compare-" + t.body.transactionId + "-" + NatToString(t.rowNumber)
    && t.body.cashAmount >= 0.0 && t.body.customerName != "" && t.body.quantity != 0.0
  }

  /**
   * What each outcome means: a row is taken exactly when it is below the
   * header, has an item other than the totals line, a transaction id, the
   * target as provider and a readable checkout date; a row of the target's
   * with an unreadable date is the one skipped with a warning.
   */
  lemma ReadRowMeaning(env: Eastern.Oracles, targetId: string, row: Row, rowNumber: nat)
    ensures var o := ReadRow(env, targetId, row, rowNumber);
            var itemSold := CellToString(CellAt(row, 6));
            var passes := rowNumber > 1 && itemSold != "" && Lower(itemSold) != "total"
                          && CellToString(CellAt(row, 3)) != "" && IsTarget(CellToString(CellAt(row, 9)));
            (o.Take? <==> passes && ParseLocalDate(env, CellAt(row, 1)).Some?)
            && (o.SkipBadDate? <==> passes && ParseLocalDate(env, CellAt(row, 1)).None?)
            && (o.Take? ==> ValidTask(targetId, o.task) && o.task.rowNumber == rowNumber
                            && ParseLocalDate(env, CellAt(row, 1)) == Some(o.task.checkoutDate))
  {
    hide BuildTask, CellToString, ParseLocalDate, Lower, CellAt, IsTarget;
    var providerName := CellToString(CellAt(row, 9));
    BlankNotTarget();
    var o := ReadRow(env, targetId, row, rowNumber);
    if o.Take? {
      var built := BuildTask(env, targetId, row, rowNumber, CellToString(CellAt(row, 6)), CellToString(CellAt(row, 3)),
                             providerName, ParseLocalDate(env, CellAt(row, 1)).value);
    }
  }

  /** `eachRow` from row `n` on: the import tasks pushed, in row order. */
  function Tasks(env: Eastern.Oracles, targetId: string, grid: Grid, n: nat): seq<Task>
    decreases |grid| + 1 - n
  {
    hide ReadRow;
    if n > |grid| then []
    else
      match ReadRow(env, targetId, RowAt(grid, n), n)
      case Take(t) => [t] + Tasks(env, targetId, grid, n + 1)
      case _ => Tasks(env, targetId, grid, n + 1)
  }

  /** Valid tasks from rows `n` on, in increasing row order. */
  predicate OrderedFrom(targetId: string, ts: seq<Task>, n: nat) {
    (forall j :: 0 <= j < |ts| ==> ValidTask(targetId, ts[j]) && ts[j].rowNumber >= n)
    && (forall a, b :: 0 <= a < b < |ts| ==> ts[a].rowNumber < ts[b].rowNumber)
  }

  lemma OrderedNone(targetId: string, n: nat)
    ensures OrderedFrom(targetId, [], n)
  {
  }

  lemma OrderedCons(targetId: string, t: Task, rest: seq<Task>, n: nat)
    requires ValidTask(targetId, t) && t.rowNumber == n && OrderedFrom(targetId, rest, n + 1)
    ensures OrderedFrom(targetId, [t] + rest, n)
  {
    hide ValidTask;
    var s := [t] + rest;
    assert forall j :: 1 <= j < |s| ==> s[j] == rest[j - 1];
  }

  lemma OrderedLater(targetId: string, ts: seq<Task>, n: nat)
    requires OrderedFrom(targetId, ts, n + 1)
    ensures OrderedFrom(targetId, ts, n)
  {
    hide ValidTask;
  }

  /** The import tasks are valid, all of the target's, and keep the sheet's order. */
  lemma {:induction false} TasksOrdered(env: Eastern.Oracles, targetId: string, grid: Grid, n: nat)
    ensures OrderedFrom(targetId, Tasks(env, targetId, grid, n), n)
    decreases |grid| + 1 - n
  {
    hide ReadRow, OrderedFrom, ValidTask;
    if n <= |grid| {
      var o := ReadRow(env, targetId, RowAt(grid, n), n);
      TasksOrdered(env, targetId, grid, n + 1);
      if o.Take? {
        ReadRowMeaning(env, targetId, RowAt(grid, n), n);
        OrderedCons(targetId, o.task, Tasks(env, targetId, grid, n + 1), n);
      } else {
        OrderedLater(targetId, Tasks(env, targetId, grid, n + 1), n);
      }
    } else {
      OrderedNone(targetId, n);
    }
  }

  /** Every row the callback takes is among the import tasks. */
  lemma {:induction false} TasksComplete(env: Eastern.Oracles, targetId: string, grid: Grid, n: nat, k: nat)
    requires n <= k <= |grid| && ReadRow(env, targetId, RowAt(grid, k), k).Take?
    ensures ReadRow(env, targetId, RowAt(grid, k), k).task in Tasks(env, targetId, grid, n)
    decreases k - n
  {
    hide ReadRow;
    if k > n {
      TasksComplete(env, targetId, grid, n + 1, k);
    }
  }

  // ---- The import ------------------------------------------------------------

  const MissingTargetMessage := "Provider ID for Isabel Guerrero not found in providerDirectory"

  /** The import tasks the script prepares, or the error that ends it before any write. */
  function PrepareSpec(env: Eastern.Oracles, dir: Employees.Directory, files: BackfillRead.Files): Result<seq<Task>, string> {
    match TargetProviderId(dir)
    case None => Err(MissingTargetMessage)
    case Some(targetId) =>
      match files(ComparePath)
      case None => Err("cannot read " + ComparePath)
      case Some(sheets) =>
        if sheets == [] then Err("compare.xlsx is empty")
        else Ok(Tasks(env, targetId, sheets[0], 1))
  }

  /** With the shipped directory the script always gets past its load-time check. */
  lemma ShippedDirectoryLoads(env: Eastern.Oracles, files: BackfillRead.Files)
    ensures PrepareSpec(env, Employees.ProviderDirectory, files) != Err(MissingTargetMessage)
  {
    hide Tasks, TargetProviderId, Employees.ProviderDirectory;
    TargetInDirectory();
  }

  /** The row written for one task, received at `now`. */
  function EventOf(now: int, t: Task): Store.StoredEvent {
    SheetImport.StoredEventOf(CompareOrigin, t.eventId, t.checkoutDate, now, t.body)
  }

  /** The rows written for the import tasks, in order. */
  function EventsOf(now: int, ts: seq<Task>): (es: seq<Store.StoredEvent>)
    ensures |es| == |ts|
    ensures forall j :: 0 <= j < |ts| ==> es[j] == EventOf(now, ts[j])
  {
    hide EventOf;
    seq(|ts|, j requires 0 <= j < |ts| => EventOf(now, ts[j]))
  }

  /** Valid tasks on different rows have different event ids. */
  lemma EventIdsDistinct(targetId: string, a: Task, b: Task)
    requires ValidTask(targetId, a) && ValidTask(targetId, b) && a.rowNumber != b.rowNumber
    ensures a.eventId != b.eventId
  {
    if a.eventId == b.eventId {
      DashNumberInjective("manual-compare-" + a.body.transactionId, a.rowNumber,
                          "manual-compare-" + b.body.transactionId, b.rowNumber);
    }
  }

  lemma EventOfId(now: int, t: Task)
    ensures EventOf(now, t).eventId == t.eventId
  {
    hide Calendar.IsoString, SheetImport.EventValue;
  }

  /** The rows written for ordered tasks have distinct event ids. */
  lemma EventsUnique(targetId: string, now: int, ts: seq<Task>, n: nat)
    requires OrderedFrom(targetId, ts, n)
    ensures Store.UniqueEventIds(EventsOf(now, ts))
  {
    hide EventOf, ValidTask;
    var es := EventsOf(now, ts);
    forall a, b | 0 <= a < b < |es| ensures es[a].eventId != es[b].eventId {
      EventIdsDistinct(targetId, ts[a], ts[b]);
      EventOfId(now, ts[a]);
      EventOfId(now, ts[b]);
    }
  }

  /**
   * A stored row carries no cash amount; the cash the backfill route later
   * derives from it is the row's net cash less its price column.
   */
  lemma ImportedCash(now: int, t: Task)
    ensures EventOf(now, t).cashCollected.None?
    ensures VagaroRoute.DeriveCashCollected(EventOf(now, t).payload) == t.body.cashAmount - t.body.amountDue
  {
    hide Calendar.IsoString, SheetImport.StoredEventOf;
    SheetImport.StoredCash(CompareOrigin, t.eventId, t.checkoutDate, now, t.body);
  }

  /**
   * `main`: prepare every task first, then look up and insert them one by
   * one.  The result is the number inserted.
   */
  method Import(env: Eastern.Oracles, dir: Employees.Directory, files: BackfillRead.Files, store: Store.EventStore)
    returns (r: Result<nat, string>)
    requires store.Valid()
    modifies store
    ensures store.Valid() && store.online == old(store.online)
    ensures PrepareSpec(env, dir, files).Err? ==>
              r == Err(PrepareSpec(env, dir, files).error) && store.events == old(store.events)
    ensures PrepareSpec(env, dir, files).Ok? && old(store.online) ==>
              var batch := EventsOf(env.now, PrepareSpec(env, dir, files).value);
              store.events == old(store.events) + Store.NewRows(old(store.events), batch)
              && r == Ok(|Store.NewRows(old(store.events), batch)|)
    ensures PrepareSpec(env, dir, files).Ok? && !old(store.online) ==>
              store.events == old(store.events)
              && r == if PrepareSpec(env, dir, files).value == [] then Ok(0) else Err(Store.DatabaseError)
  {
    hide Tasks, EventsOf;
    var targetId := TargetProviderId(dir);
    if targetId.None? {
      return Err(MissingTargetMessage);
    }
    var sheets := files(ComparePath);
    if sheets.None? {
      return Err("cannot read " + ComparePath);
    }
    if sheets.value == [] {
      return Err("compare.xlsx is empty");
    }
    var tasks := ReadTasks(env, targetId.value, sheets.value[0]);
    var batch := EventsOf(env.now, tasks);
    assert batch == [] <==> tasks == [] by {
      assert |batch| == |tasks|;
    }
    r := SheetImport.InsertMissing(store, batch);
  }

  /** The `eachRow` loop: the callback on every row in turn. */
  method ReadTasks(env: Eastern.Oracles, targetId: string, grid: Grid) returns (tasks: seq<Task>)
    ensures tasks == Tasks(env, targetId, grid, 1)
  {
    hide ReadRow, RowAt;
    tasks := [];
    var rowNumber: nat := 1;
    while rowNumber <= |grid|
      invariant 1 <= rowNumber <= |grid| + 1
      invariant tasks + Tasks(env, targetId, grid, rowNumber) == Tasks(env, targetId, grid, 1)
      decreases |grid| + 1 - rowNumber
    {
      var outcome := ReadRow(env, targetId, RowAt(grid, rowNumber), rowNumber);
      if outcome.Take? {
        assert (tasks + [outcome.task]) + Tasks(env, targetId, grid, rowNumber + 1)
            == tasks + ([outcome.task] + Tasks(env, targetId, grid, rowNumber + 1));
        tasks := tasks + [outcome.task];
      }
      rowNumber := rowNumber + 1;
    }
    assert tasks + [] == tasks;
  }

  /**
   * What one run achieves: into a table holding none of their ids, every
   * task is inserted, once, with distinct ids; a second run on the table
   * the first one left inserts nothing.
   */
  lemma ImportOnceOnly(env: Eastern.Oracles, dir: Employees.Directory, files: BackfillRead.Files,
                       events: seq<Store.StoredEvent>)
    requires Store.UniqueEventIds(events)
    requires PrepareSpec(env, dir, files).Ok?
    ensures var batch := EventsOf(env.now, PrepareSpec(env, dir, files).value);
            Store.UniqueEventIds(batch)
            && ((forall i :: 0 <= i < |batch| ==> !Store.HasEventId(events, batch[i].eventId)) ==>
                  Store.NewRows(events, batch) == batch)
            && Store.NewRows(events + Store.NewRows(events, batch), batch) == []
  {
    hide EventsOf, Tasks, EventOf, OrderedFrom, ReadRow;
    var targetId := TargetProviderId(dir).value;
    var grid := files(ComparePath).value[0];
    var ts := PrepareSpec(env, dir, files).value;
    var batch := EventsOf(env.now, ts);
    TasksOrdered(env, targetId, grid, 1);
    EventsUnique(targetId, env.now, ts, 1);
    if forall i :: 0 <= i < |batch| ==> !Store.HasEventId(events, batch[i].eventId) {
      Store.NewRowsAll(events, batch);
    }
    SheetImport.RerunInsertsNothing(events, batch);
  }
}
