/**
 * `listSheetRange.ts`: lists the rows of one provider, Isabel Guerrero,
 * from `compare.xlsx` whose checkout falls between a start day and an end
 * day (both read as midnight at UTC-5, the end day included), sorted by
 * checkout time.  The rows are loaded as `compareWebhooks.ts` loads them.
 */
module ListSheetRange {
  import opened Wrappers
  import Eastern
  import Employees
  import BackfillRead
  import Ordering
  import ImportCompare
  import CompareWebhooks

  type SheetTransaction = CompareWebhooks.SheetTransaction

  /** The error thrown when the script loads and the directory lacks the target. */
  const MissingTargetMessage := "Unable to locate provider ID for Isabel Guerrero"

  /** `24 * 60 * 60 * 1000`. */
  const DayMs := 86400000

  function MissingDateMessage(which: string): string {
    "Missing " + which + " date argument (expected YYYY-MM-DD)"
  }

  function InvalidDateMessage(which: string, arg: string): string {
    "Invalid " + which + " date: " + arg
  }

  /**
   * `parseDate`: an absent or empty argument is refused as missing, one
   * that `new Date` cannot read with `T00:00:00-05:00` appended as invalid;
   * otherwise that instant (a fixed UTC-5 offset, also in summer).
   */
  function ParseDate(env: Eastern.Oracles, arg: Option<string>, which: string): (r: Result<int, string>)
    ensures (arg.None? || arg.value == "") <==> r == Err(MissingDateMessage(which))
    ensures r.Ok? <==> arg.Some? && arg.value != "" && env.parseDate(arg.value + "T00:00:00-05:00").Some?
    ensures r.Ok? ==> env.parseDate(arg.value + "T00:00:00-05:00") == Some(r.value)
    ensures arg.Some? && arg.value != "" && r.Err? ==> r.error == InvalidDateMessage(which, arg.value)
  {
    if arg.None? || arg.value == "" then Err(MissingDateMessage(which))
    else
      match env.parseDate(arg.value + "T00:00:00-05:00")
      case None =>
        var e := InvalidDateMessage(which, arg.value);
        assert e[0] != MissingDateMessage(which)[0];
        Err(e)
      case Some(t) => Ok(t)
  }

  /** The selected window `[start, end)`. */
  datatype Window = Window(start: int, end: int)

  /** The window of `main`: from the start day's midnight to one day after the end day's (`endArg ?? startArg`). */
  function WindowOf(env: Eastern.Oracles, startArg: Option<string>, endArg: Option<string>): Result<Window, string> {
    match ParseDate(env, startArg, "start")
    case Err(e) => Err(e)
    case Ok(start) =>
      match ParseDate(env, if endArg.Some? then endArg else startArg, "end")
      case Err(e) => Err(e)
      case Ok(endDay) => Ok(Window(start, endDay + DayMs))
  }

  /**
   * The window ends a day after the end argument's midnight; without an end
   * argument it is exactly the start day.
   */
  lemma WindowOfMeaning(env: Eastern.Oracles, startArg: Option<string>, endArg: Option<string>)
    ensures var w := WindowOf(env, startArg, endArg);
            var endArgOrStart := if endArg.Some? then endArg else startArg;
            (w.Ok? <==> ParseDate(env, startArg, "start").Ok? && ParseDate(env, endArgOrStart, "end").Ok?)
            && (w.Ok? ==> w.value.start == ParseDate(env, startArg, "start").value
                          && w.value.end == ParseDate(env, endArgOrStart, "end").value + DayMs)
            && (w.Ok? && endArg.None? ==> w.value.end == w.value.start + DayMs)
  {
  }

  /** The filter: a checkout date inside the window; rows without one are dropped. */
  predicate InWindow(t: SheetTransaction, w: Window) {
    t.checkoutDate.Some? && w.start <= t.checkoutDate.value < w.end
  }

  /** `sheetTransactions.filter(...)`. */
  function Select(txs: seq<SheetTransaction>, w: Window): seq<SheetTransaction> {
    if txs == [] then []
    else if InWindow(txs[0], w) then [txs[0]] + Select(txs[1..], w)
    else Select(txs[1..], w)
  }

  /** The selected rows are exactly the rows inside the window. */
  lemma {:induction false} SelectMembers(txs: seq<SheetTransaction>, w: Window, t: SheetTransaction)
    ensures t in Select(txs, w) <==> t in txs && InWindow(t, w)
  {
    hide InWindow;
    if txs != [] {
      SelectMembers(txs[1..], w, t);
      assert txs == [txs[0]] + txs[1..];
    }
  }

  /** The comparator's key: the checkout instant (every selected row has one). */
  function CheckoutKey(t: SheetTransaction): int {
    if t.checkoutDate.Some? then t.checkoutDate.value else 0
  }

  /** The rows printed, or the error that stops the script. */
  function ListSpec(env: Eastern.Oracles, dir: Employees.Directory, files: BackfillRead.Files,
                    startArg: Option<string>, endArg: Option<string>): Result<seq<SheetTransaction>, string> {
    if ImportCompare.TargetProviderId(dir).None? then Err(MissingTargetMessage)
    else
      match WindowOf(env, startArg, endArg)
      case Err(e) => Err(e)
      case Ok(w) =>
        match CompareWebhooks.LoadSpec(env, files)
        case Err(e) => Err(e)
        case Ok(txs) => Ok(Ordering.SortBy(Select(txs, w), CheckoutKey))
  }

  /** `main` (with the load-time lookup of the target's id), up to the printing. */
  method ListRows(env: Eastern.Oracles, dir: Employees.Directory, files: BackfillRead.Files,
                  startArg: Option<string>, endArg: Option<string>) returns (r: Result<seq<SheetTransaction>, string>)
    ensures r == ListSpec(env, dir, files, startArg, endArg)
  {
    hide CompareWebhooks.LoadSpec, CompareWebhooks.Rows, CompareWebhooks.ReadRow, Select, Ordering.SortBy, ParseDate,
         ImportCompare.TargetProviderId, MissingDateMessage, InvalidDateMessage, Ordering.SortedBy, InWindow;
    if ImportCompare.TargetProviderId(dir).None? {
      return Err(MissingTargetMessage);
    }
    var startDate := ParseDate(env, startArg, "start");
    if startDate.Err? {
      return Err(startDate.error);
    }
    var endDay := ParseDate(env, if endArg.Some? then endArg else startArg, "end");
    if endDay.Err? {
      return Err(endDay.error);
    }
    var endDate := endDay.value + DayMs;
    var loaded := CompareWebhooks.LoadSheetTransactions(env, files);
    if loaded.Err? {
      return Err(loaded.error);
    }
    var targetRows := Select(loaded.value, Window(startDate.value, endDate));
    r := Ok(Ordering.SortBy(targetRows, CheckoutKey));
  }

  /** The loaded rows of a listing, and its window. */
  lemma ListSpecParts(env: Eastern.Oracles, dir: Employees.Directory, files: BackfillRead.Files,
                      startArg: Option<string>, endArg: Option<string>)
    requires ListSpec(env, dir, files, startArg, endArg).Ok?
    ensures WindowOf(env, startArg, endArg).Ok? && CompareWebhooks.LoadSpec(env, files).Ok?
    ensures ListSpec(env, dir, files, startArg, endArg).value ==
              Ordering.SortBy(Select(CompareWebhooks.LoadSpec(env, files).value, WindowOf(env, startArg, endArg).value), CheckoutKey)
  {
    hide CompareWebhooks.LoadSpec, Select, Ordering.SortBy, WindowOf, ImportCompare.TargetProviderId;
  }

  /**
   * What is printed: exactly the loaded rows of the target whose checkout
   * lies in the window (rows with no date never).
   */
  lemma ListedRows(env: Eastern.Oracles, dir: Employees.Directory, files: BackfillRead.Files,
                   startArg: Option<string>, endArg: Option<string>, t: SheetTransaction)
    requires ListSpec(env, dir, files, startArg, endArg).Ok?
    ensures WindowOf(env, startArg, endArg).Ok? && CompareWebhooks.LoadSpec(env, files).Ok?
    ensures t in ListSpec(env, dir, files, startArg, endArg).value <==>
              t in CompareWebhooks.LoadSpec(env, files).value && InWindow(t, WindowOf(env, startArg, endArg).value)
    ensures t in ListSpec(env, dir, files, startArg, endArg).value ==> CompareWebhooks.Kept(t) && t.checkoutDate.Some?
  {
    hide CompareWebhooks.LoadSpec, Select, Ordering.SortBy, WindowOf, ListSpec, CompareWebhooks.Kept;
    ListSpecParts(env, dir, files, startArg, endArg);
    var w := WindowOf(env, startArg, endArg).value;
    var txs := CompareWebhooks.LoadSpec(env, files).value;
    var rows := ListSpec(env, dir, files, startArg, endArg).value;
    SelectMembers(txs, w, t);
    assert t in rows <==> t in multiset(rows);
    assert t in Select(txs, w) <==> t in multiset(Select(txs, w));
    CompareWebhooks.LoadedKept(env, files);
  }

  /** The listing is ascending by checkout time and holds each selected row as often as the selection does. */
  lemma ListedSorted(env: Eastern.Oracles, dir: Employees.Directory, files: BackfillRead.Files,
                     startArg: Option<string>, endArg: Option<string>)
    requires ListSpec(env, dir, files, startArg, endArg).Ok?
    ensures WindowOf(env, startArg, endArg).Ok? && CompareWebhooks.LoadSpec(env, files).Ok?
    ensures Ordering.SortedBy(ListSpec(env, dir, files, startArg, endArg).value, CheckoutKey)
    ensures multiset(ListSpec(env, dir, files, startArg, endArg).value) ==
              multiset(Select(CompareWebhooks.LoadSpec(env, files).value, WindowOf(env, startArg, endArg).value))
  {
    hide CompareWebhooks.LoadSpec, Select, Ordering.SortBy, WindowOf, ListSpec;
    ListSpecParts(env, dir, files, startArg, endArg);
  }
}
