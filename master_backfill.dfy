/**
 * scripts/masterBackfillCsv.ts: reads a Vagaro export, groups its rows by
 * their Eastern day, and for each requested day of a month deletes the
 * stored events of that day and inserts one manual webhook per row.
 */
module MasterBackfill {
  import opened Wrappers
  import opened Text
  import opened Js
  import Calendar
  import Eastern
  import Sheet
  import Store
  import VagaroRoute
  import BackfillRoute
  import opened MasterBackfillRows

  // ---------------------------------------------------------------- file type

  /** The last component of a path. */
  function BaseName(path: string): (r: string)
    ensures '/' !in r
    decreases |path|
  {
    if path == [] || path[|path| - 1] == '/' then []
    else BaseName(path[..|path| - 1]) + [path[|path| - 1]]
  }

  /** The position of the last dot. */
  function LastDot(s: string): (r: Option<nat>)
    ensures r.Some? ==> r.value < |s| && s[r.value] == '.'
    decreases |s|
  {
    if s == [] then None
    else if s[|s| - 1] == '.' then Some(|s| - 1)
    else LastDot(s[..|s| - 1])
  }

  /** `path.extname`: from the last dot of the last component on, "" when that dot starts the component, there is none, or the component is "..". */
  function ExtName(path: string): string {
    var base := BaseName(path);
    match LastDot(base)
    case None => ""
    case Some(k) => if k == 0 || base == ".." then "" else base[k..]
  }

  lemma {:induction false} BaseNameOf(dir: string, name: string)
    requires '/' !in name
    ensures BaseName(dir + "/" + name) == name
    decreases |name|
  {
    var p := dir + "/" + name;
    if name == [] {
      assert p[|p| - 1] == '/';
    } else {
      var n := |name| - 1;
      assert p[..|p| - 1] == dir + "/" + name[..n];
      BaseNameOf(dir, name[..n]);
      assert name == name[..n] + [name[n]];
    }
  }

  lemma {:induction false} LastDotOf(a: string, b: string)
    requires b != [] && b[0] == '.' && '.' !in b[1..]
    ensures LastDot(a + b) == Some(|a|)
    decreases |b|
  {
    var s := a + b;
    if |b| > 1 {
      var n := |b| - 1;
      assert b[n] in b[1..];
      assert s[..|s| - 1] == a + b[..n];
      assert b[..n][1..] == b[1..n];
      assert forall c :: c in b[1..n] ==> c in b[1..];
      LastDotOf(a, b[..n]);
    }
  }

  /** A file `stem.ext` in any directory has extension `.ext`. */
  lemma ExtNameOf(dir: string, stem: string, ext: string)
    requires stem != [] && '/' !in stem && '/' !in ext
    requires |ext| >= 2 && ext[0] == '.' && '.' !in ext[1..]
    ensures ExtName(dir + "/" + (stem + ext)) == ext
  {
    assert forall c :: c in stem + ext ==> c in stem || c in ext;
    BaseNameOf(dir, stem + ext);
    LastDotOf(stem, ext);
    assert (stem + ext)[|stem|..] == ext;
  }

  /** The file as the CSV parser sees it (header line and non-empty records) and as the workbook reader sees it. */
  datatype Export = Export(
    csvHeader: seq<string>,
    csvRecords: seq<seq<string>>,
    sheets: seq<Sheet.Grid>,
    dateText: int -> string)

  function Unsupported(ext: string): string {
    "Unsupported file type: " + ext + ". Use .csv or .xlsx"
  }

  /** `readTabular`: the reader chosen by the lower-cased extension. */
  function TabularRows(fileName: string, file: Export): (r: Result<seq<CsvRow>, string>)
    ensures Lower(ExtName(fileName)) == ".csv" ==> r == ReadCsv(file.csvHeader, file.csvRecords)
    ensures Lower(ExtName(fileName)) == ".xlsx" && file.sheets != [] ==> r == Ok(XlsxRows(file.sheets[0], file.dateText))
    ensures Lower(ExtName(fileName)) != ".csv" && Lower(ExtName(fileName)) != ".xlsx" ==> r == Err(Unsupported(Lower(ExtName(fileName))))
  {
    var ext := Lower(ExtName(fileName));
    if ext == ".csv" then ReadCsv(file.csvHeader, file.csvRecords)
    else if ext == ".xlsx" then
      if file.sheets == [] then Err(NoWorksheets) else Ok(XlsxRows(file.sheets[0], file.dateText))
    else Err(Unsupported(ext))
  }

  method ReadTabular(fileName: string, file: Export) returns (r: Result<seq<CsvRow>, string>)
    ensures r == TabularRows(fileName, file)
  {
    var ext := Lower(ExtName(fileName));
    if ext == ".csv" {
      return ReadCsv(file.csvHeader, file.csvRecords);
    }
    if ext == ".xlsx" {
      r := ReadXlsx(file.sheets, file.dateText);
      return;
    }
    return Err(Unsupported(ext));
  }

  // ---------------------------------------------------------------- days

  /** An answer read through `Number` gives the finite day `x` from 1 to 31. */
  predicate DayAnswer(answer: string, x: real) {
    ParseNumber(answer) == Finite(x) && 1.0 <= x <= 31.0
  }

  /** The answers to "which day numbers" through `Number`, keeping the finite ones from 1 to 31, in order. */
  function ValidDays(answers: seq<string>): (r: seq<real>)
    ensures |r| <= |answers|
    decreases |answers|
  {
    if answers == [] then []
    else
      var n := ParseNumber(answers[0]);
      if n.Finite? && 1.0 <= n.value <= 31.0 then [n.value] + ValidDays(answers[1..]) else ValidDays(answers[1..])
  }

  /** A day is kept exactly when some answer reads as it. */
  lemma {:induction false} ValidDaysMembers(answers: seq<string>, x: real)
    ensures x in ValidDays(answers) <==> exists a :: a in answers && DayAnswer(a, x)
    decreases |answers|
  {
    hide ParseNumber;
    if answers != [] {
      ValidDaysMembers(answers[1..], x);
      var n := ParseNumber(answers[0]);
      assert DayAnswer(answers[0], x) <==> n.Finite? && 1.0 <= n.value <= 31.0 && x == n.value;
      assert forall a :: a in answers <==> a == answers[0] || a in answers[1..];
    }
  }

  /** No answer reading as a day leaves no day. */
  lemma {:induction false} ValidDaysNone(answers: seq<string>)
    requires forall a, x :: a in answers ==> !DayAnswer(a, x)
    ensures ValidDays(answers) == []
    decreases |answers|
  {
    hide ParseNumber;
    if answers != [] {
      var n := ParseNumber(answers[0]);
      if n.Finite? {
        assert !DayAnswer(answers[0], n.value);
      }
      assert forall a :: a in answers[1..] ==> a in answers;
      ValidDaysNone(answers[1..]);
    }
  }

  /** `${year}-${mm}-${String(d).padStart(2, "0")}`. */
  function DayText(year: nat, month: nat, d: real): string {
    NatToString(year) + "-" + PadStart(NatToString(month), 2, '0') + "-" + PadStart(NumberToString(d), 2, '0')
  }

  /** `pickDays`. */
  function PickDays(year: nat, month: nat, days: seq<real>): (r: seq<string>)
    ensures |r| == |days|
  {
    seq(|days|, i requires 0 <= i < |days| => DayText(year, month, days[i]))
  }

  lemma NumberToStringNat(n: nat)
    ensures NumberToString(n as real) == NatToString(n)
  {
    assert ExactAt(n as real, 0);
  }

  lemma PadTwo(n: nat)
    requires n < 100
    ensures PadStart(NatToString(n), 2, '0') == Pad2(n)
  {
    if n < 10 {
      assert seq(1, _ => '0') == "0";
    } else {
      assert |NatToString(n / 10)| == 1;
    }
  }

  /** A whole day number names the same date as the Eastern day of an instant on that date. */
  lemma DayTextIsEtDay(env: Eastern.Oracles, year: nat, month: nat, d: nat, t: int)
    requires 1 <= month <= 12 && 1 <= d <= 31
    requires env.date(t) == Calendar.Civil(year, month, d)
    ensures Eastern.EtDay(env, t) == DayText(year, month, d as real)
  {
    NumberToStringNat(d);
    PadTwo(d);
    PadTwo(month);
  }

  // ---------------------------------------------------------------- grouping

  /** The Eastern day of a row's created date, None when that date is invalid (formatting it throws). */
  function RowDay(env: Eastern.Oracles, row: CsvRow): Option<string> {
    match GuessCreatedDate(env, row)
    case None => None
    case Some(t) => Some(Eastern.EtDay(env, t))
  }

  function Bucket(byDay: map<string, seq<CsvRow>>, day: string): seq<CsvRow> {
    if day in byDay then byDay[day] else []
  }

  /** The rows whose Eastern day is `day`, in file order. */
  function RowsOn(env: Eastern.Oracles, rows: seq<CsvRow>, day: string): (r: seq<CsvRow>)
    ensures forall row :: row in r <==> row in rows && RowDay(env, row) == Some(day)
    decreases |rows|
  {
    if rows == [] then []
    else
      var n := |rows| - 1;
      assert forall row :: row in rows <==> row in rows[..n] || row == rows[n];
      RowsOn(env, rows[..n], day) + (if RowDay(env, rows[n]) == Some(day) then [rows[n]] else [])
  }

  const InvalidTime := "RangeError: Invalid time value"

  /** The `byDay` map after the first `k` rows. */
  function GroupUpTo(env: Eastern.Oracles, rows: seq<CsvRow>, k: nat): Result<map<string, seq<CsvRow>>, string>
    requires k <= |rows|
  {
    if k == 0 then Ok(map[])
    else
      match GroupUpTo(env, rows, k - 1)
      case Err(e) => Err(e)
      case Ok(byDay) =>
        match RowDay(env, rows[k - 1])
        case None => Err(InvalidTime)
        case Some(day) => Ok(byDay[day := Bucket(byDay, day) + [rows[k - 1]]])
  }

  /** Grouping succeeds exactly when every row has a valid date, and then each day holds exactly its rows, in file order. */
  lemma {:induction false} GroupUpToMeaning(env: Eastern.Oracles, rows: seq<CsvRow>, k: nat, day: string)
    requires k <= |rows|
    ensures GroupUpTo(env, rows, k).Ok? <==> forall i :: 0 <= i < k ==> RowDay(env, rows[i]).Some?
    ensures GroupUpTo(env, rows, k).Ok? ==> Bucket(GroupUpTo(env, rows, k).value, day) == RowsOn(env, rows[..k], day)
    decreases k
  {
    hide RowDay, Bucket, RowsOn;
    if k == 0 {
      BucketEmpty(day);
      assert rows[..0] == [];
      RowsOnNone(env, day);
    } else {
      GroupUpToMeaning(env, rows, k - 1, day);
      RowsOnStep(env, rows, k, day);
      var prev := GroupUpTo(env, rows, k - 1);
      var d := RowDay(env, rows[k - 1]);
      if prev.Ok? && d.Some? {
        BucketUpdate(prev.value, d.value, day, rows[k - 1]);
      }
    }
  }

  lemma RowsOnStep(env: Eastern.Oracles, rows: seq<CsvRow>, k: nat, day: string)
    requires 0 < k <= |rows|
    ensures RowsOn(env, rows[..k], day)
            == RowsOn(env, rows[..k - 1], day) + (if RowDay(env, rows[k - 1]) == Some(day) then [rows[k - 1]] else [])
  {
    hide RowDay;
    assert rows[..k][..k - 1] == rows[..k - 1];
  }

  lemma RowsOnNone(env: Eastern.Oracles, day: string)
    ensures RowsOn(env, [], day) == []
  {
  }

  lemma BucketEmpty(day: string)
    ensures Bucket(map[], day) == []
  {
  }

  lemma BucketUpdate(byDay: map<string, seq<CsvRow>>, d: string, day: string, row: CsvRow)
    ensures Bucket(byDay[d := Bucket(byDay, d) + [row]], day) == Bucket(byDay, day) + (if d == day then [row] else [])
  {
  }

  /** A row with an invalid date stops the grouping for good. */
  lemma {:induction false} GroupErrorStays(env: Eastern.Oracles, rows: seq<CsvRow>, k: nat, m: nat)
    requires k <= m <= |rows| && GroupUpTo(env, rows, k).Err?
    ensures GroupUpTo(env, rows, m) == GroupUpTo(env, rows, k)
    decreases m
  {
    hide RowDay;
    if m > k {
      GroupErrorStays(env, rows, k, m - 1);
    }
  }

  /** The loop that builds `byDay`. */
  method GroupByDay(env: Eastern.Oracles, rows: seq<CsvRow>) returns (r: Result<map<string, seq<CsvRow>>, string>)
    ensures r == GroupUpTo(env, rows, |rows|)
  {
    hide RowDay;
    var byDay: map<string, seq<CsvRow>> := map[];
    var k := 0;
    while k < |rows|
      invariant k <= |rows|
      invariant GroupUpTo(env, rows, k) == Ok(byDay)
    {
      var day := RowDay(env, rows[k]);
      if day.None? {
        GroupErrorStays(env, rows, k + 1, |rows|);
        return Err(InvalidTime);
      }
      var list := Bucket(byDay, day.value);
      byDay := byDay[day.value := list + [rows[k]]];
      k := k + 1;
    }
    return Ok(byDay);
  }

  datatype Plan = Plan(day: string, csvRows: seq<CsvRow>)

  function PlansFor(days: seq<string>, byDay: map<string, seq<CsvRow>>): (r: seq<Plan>)
    ensures |r| == |days|
  {
    seq(|days|, i requires 0 <= i < |days| => Plan(days[i], Bucket(byDay, days[i])))
  }

  /** The questions the script asks; `fileName` is the resolved path of the export. */
  datatype Answers = Answers(year: nat, month: nat, days: seq<string>, fileName: string, dryRun: bool)

  const NoValidDays := "No valid days provided"

  function FileNotFound(path: string): string {
    "File not found: " + path
  }

  /** Everything before the dry-run question: the day list, the file, and a plan per requested day. */
  function PlansOf(env: Eastern.Oracles, answers: Answers, fileExists: bool, file: Export): Result<seq<Plan>, string> {
    var days := ValidDays(answers.days);
    if days == [] then Err(NoValidDays)
    else if !fileExists then Err(FileNotFound(answers.fileName))
    else
      match TabularRows(answers.fileName, file)
      case Err(e) => Err(e)
      case Ok(rows) =>
        match GroupUpTo(env, rows, |rows|)
        case Err(e) => Err(e)
        case Ok(byDay) => Ok(PlansFor(PickDays(answers.year, answers.month, days), byDay))
  }

  /**
   * Each plan is a requested day and exactly the export's rows whose
   * Eastern day it is, in file order.
   */
  lemma PlansAreDays(env: Eastern.Oracles, answers: Answers, fileExists: bool, file: Export, i: nat)
    requires PlansOf(env, answers, fileExists, file).Ok?
    ensures var plans := PlansOf(env, answers, fileExists, file).value;
            var days := ValidDays(answers.days);
            var rows := TabularRows(answers.fileName, file).value;
            |plans| == |days| && (i < |plans| ==>
              plans[i].day == DayText(answers.year, answers.month, days[i])
              && plans[i].csvRows == RowsOn(env, rows, plans[i].day))
  {
    var rows := TabularRows(answers.fileName, file).value;
    var days := ValidDays(answers.days);
    if i < |days| {
      GroupUpToMeaning(env, rows, |rows|, DayText(answers.year, answers.month, days[i]));
      assert rows[..|rows|] == rows;
    }
  }

  // ---------------------------------------------------------------- manual events

  const CashKeys: seq<string> := ["cash", "cash amount", "amountcash", "cashamount"]
  const CardKeys: seq<string> := ["credit", "credit card", "cc", "cc amount", "ccamount", "card"]
  const TotalKeys: seq<string> := ["total", "total amount", "amount", "amounttotal", "totalamount"]
  const ChangeKeys: seq<string> := ["change", "change due", "changedue"]
  const TransactionKeys: seq<string> := ["transaction id", "transactionid", "userpaymentsmstid", "receipt", "invoice"]

  /** The `payload` of the manual webhook: `transactionId` only when present, `changeDue` only when not 0. */
  function ManualPayload(row: CsvRow): map<string, Value> {
    var base := map[
      "cashAmount" := Num(Finite(ParseMoney(GetColumn(row, CashKeys)))),
      "ccAmount" := Num(Finite(ParseMoney(GetColumn(row, CardKeys)))),
      "totalAmount" := Num(Finite(ParseMoney(GetColumn(row, TotalKeys))))];
    var tx := GetColumn(row, TransactionKeys);
    var change := ParseMoney(GetColumn(row, ChangeKeys));
    var withTx := if tx.Some? then base["transactionId" := Str(tx.value)] else base;
    if change != 0.0 then withTx["changeDue" := Num(Finite(change))] else withTx
  }

  /** `buildVagaroManualWebhook`. */
  function ManualWebhook(row: CsvRow, created: int, eventId: string): Value {
    Obj(map[
      "id" := Str(eventId),
      "type" := Str("transaction"),
      "action" := Str("created"),
      "payload" := Obj(ManualPayload(row)),
      "createdDate" := Str(Calendar.IsoString(created))])
  }

  /**
   * The cash the ingest route and the backfill route read from a manual
   * webhook is the row's cash column, since the webhook carries no amount due.
   */
  lemma ManualWebhookCash(row: CsvRow, created: int, eventId: string)
    ensures var w := ManualWebhook(row, created, eventId);
            var cash := ParseMoney(GetColumn(row, CashKeys));
            VagaroRoute.DeriveCashCollected(w) == cash
            && Get(Get(w, "payload"), "amountDue") == Undefined
  {
    hide ParseMoney, GetColumn, Calendar.IsoString, ManualWebhook, ManualPayload;
    var w := ManualWebhook(row, created, eventId);
    var p := Get(w, "payload");
    ManualWebhookFields(row, created, eventId);
    ManualPayloadCash(row);
    VagaroRoute.PickOne(w, "cashAmount");
    VagaroRoute.PickOne(w, "amountDue");
    VagaroRoute.PickCompose(w, ["payload"], ["cashAmount"]);
    VagaroRoute.PickCompose(w, ["payload"], ["amountDue"]);
    assert ["payload"] + ["cashAmount"] == ["payload", "cashAmount"];
    assert ["payload"] + ["amountDue"] == ["payload", "amountDue"];
    VagaroRoute.PickOne(w, "payload");
    VagaroRoute.PickOne(p, "cashAmount");
    VagaroRoute.PickOne(p, "amountDue");
  }

  lemma ManualWebhookFields(row: CsvRow, created: int, eventId: string)
    ensures var w := ManualWebhook(row, created, eventId);
            Get(w, "payload") == Obj(ManualPayload(row))
            && Get(w, "cashAmount") == Undefined && Get(w, "amountDue") == Undefined
  {
    hide ParseMoney, GetColumn, Calendar.IsoString, ManualPayload;
  }

  lemma ManualPayloadCash(row: CsvRow)
    ensures Get(Obj(ManualPayload(row)), "cashAmount") == Num(Finite(ParseMoney(GetColumn(row, CashKeys))))
    ensures Get(Obj(ManualPayload(row)), "amountDue") == Undefined
  {
    hide ParseMoney, GetColumn;
  }

  /** The change column appears in the payload exactly when it is not 0, and the transaction id exactly when one is filled. */
  lemma ManualPayloadOptional(row: CsvRow)
    ensures var p := ManualPayload(row);
            var change := ParseMoney(GetColumn(row, ChangeKeys));
            ("changeDue" in p <==> change != 0.0)
            && ("changeDue" in p ==> p["changeDue"] == Num(Finite(change)))
            && ("transactionId" in p <==> GetColumn(row, TransactionKeys).Some?)
  {
  }

  /** `new Date(`${day}T00:00:00.000Z`)`: the key of a day's rows. */
  function Midnight(env: Eastern.Oracles, day: string): Option<int> {
    env.parseDate(day + "T00:00:00.000Z")
  }

  /** `new Date(`${day}T12:00:00.000Z`)`: the `day` written on manual rows. */
  function Noon(env: Eastern.Oracles, day: string): Option<int> {
    env.parseDate(day + "T12:00:00.000Z")
  }

  /**
   * What the `@db.Date` column `day` keeps of an instant it is given, and
   * what a filter on it compares: the start of the instant's UTC day.
   */
  function DateColumn(t: int): (r: int)
    ensures r <= t < r + Calendar.MsPerDay
    ensures Calendar.TimeInDay(r) == 0
  {
    t - Calendar.TimeInDay(t)
  }

  /** Two instants share a `day` value exactly when they fall in the same UTC day. */
  lemma DateColumnSameDay(s: int, t: int)
    ensures DateColumn(s) == DateColumn(t) <==> Calendar.DayOf(s) == Calendar.DayOf(t)
  {
  }

  /** `manual-csv-${day}-${String(i + 1).padStart(4, "0")}`. */
  function ManualId(day: string, i: nat): string {
    "manual-csv-" + day + "-" + PadStart(NatToString(i + 1), 4, '0')
  }

  /** The four-digit ordinal reads back as the row's position plus one. */
  lemma OrdinalValue(i: nat)
    ensures AllDigits(PadStart(NatToString(i + 1), 4, '0'))
    ensures DigitsValue(PadStart(NatToString(i + 1), 4, '0')) == i + 1
  {
    ZeroPadValue(NatToString(i + 1), 4);
    NatToStringValue(i + 1);
  }

  /** The rows of one day get distinct ids. */
  lemma ManualIdsDistinct(day: string, i: nat, j: nat)
    requires i != j
    ensures ManualId(day, i) != ManualId(day, j)
  {
    var prefix := "manual-csv-" + day + "-";
    var a := PadStart(NatToString(i + 1), 4, '0');
    var b := PadStart(NatToString(j + 1), 4, '0');
    OrdinalValue(i);
    OrdinalValue(j);
    hide PadStart, NatToString, DigitsValue;
    assert ManualId(day, i) == prefix + a && ManualId(day, j) == prefix + b;
    assert (prefix + a)[|prefix|..] == a && (prefix + b)[|prefix|..] == b;
  }

  const ManualUserAgent := "manual-csv"

  /**
   * The row `insertManualEvents` writes for row `i` of a day; `noon` is
   * `${day}T12:00:00.000Z`, of which the `day` column keeps the date.
   */
  function ManualEvent(env: Eastern.Oracles, day: string, noon: int, row: CsvRow, i: nat, created: int): Store.StoredEvent {
    var id := ManualId(day, i);
    Store.StoredEvent(
      id, "transaction", "created", [], Some(created), Some(env.now),
      ManualWebhook(row, created, id), Obj(map[]), "", ManualUserAgent, None, Some(DateColumn(noon)))
  }

  function ManualEventAt(env: Eastern.Oracles, day: string, noon: int, rows: seq<CsvRow>, i: nat): Store.StoredEvent
    requires i < |rows| && GuessCreatedDate(env, rows[i]).Some?
  {
    ManualEvent(env, day, noon, rows[i], i, GuessCreatedDate(env, rows[i]).value)
  }

  const InvalidDay := "Invalid value for argument `day`: invalid date"

  /** The batch `insertManualEvents` hands to `createMany`, or the error building it throws. */
  function ManualEvents(env: Eastern.Oracles, day: string, rows: seq<CsvRow>): (r: Result<seq<Store.StoredEvent>, string>)
    ensures r.Ok? ==> |r.value| == |rows|
  {
    if exists i :: 0 <= i < |rows| && GuessCreatedDate(env, rows[i]).None? then Err(InvalidTime)
    else
      match Noon(env, day)
      case None => Err(InvalidDay)
      case Some(noon) =>
        Ok(seq(|rows|, i requires 0 <= i < |rows| => ManualEventAt(env, day, noon, rows, i)))
  }

  /** Every event of the batch carries its row's id, the date of the day's noon and the manual user agent, and the ids are distinct. */
  lemma ManualEventsShape(env: Eastern.Oracles, day: string, rows: seq<CsvRow>)
    requires ManualEvents(env, day, rows).Ok?
    ensures Noon(env, day).Some?
    ensures var batch := ManualEvents(env, day, rows).value;
            Store.UniqueEventIds(batch)
            && forall i :: 0 <= i < |batch| ==>
                 batch[i].eventId == ManualId(day, i)
                 && batch[i].day == Some(DateColumn(Noon(env, day).value))
                 && batch[i].createdDate == GuessCreatedDate(env, rows[i])
                 && batch[i].userAgent == ManualUserAgent
                 && batch[i].cashCollected.None?
  {
    var batch := ManualEvents(env, day, rows).value;
    hide ManualWebhook, ManualId;
    forall i, j | 0 <= i < j < |batch| ensures batch[i].eventId != batch[j].eventId {
      ManualIdsDistinct(day, i, j);
    }
  }

  /** The backfill route later fills a manual event's `cash_collected` with the row's cash column. */
  lemma ManualEventBackfilledCash(env: Eastern.Oracles, day: string, noon: int, row: CsvRow, i: nat, created: int)
    ensures BackfillRoute.CashOf(ManualEvent(env, day, noon, row, i, created)) == ParseMoney(GetColumn(row, CashKeys))
  {
    hide ParseMoney, GetColumn, Calendar.IsoString, ManualId;
    var p := ManualEvent(env, day, noon, row, i, created).payload;
    var cash := ParseMoney(GetColumn(row, CashKeys));
    assert Get(p, "cashAmount") == Undefined && Get(p, "amountDue") == Undefined;
    assert Get(Get(p, "payload"), "cashAmount") == Num(Finite(cash));
    assert Get(Get(p, "payload"), "amountDue") == Undefined;
  }

  // ---------------------------------------------------------------- writes

  /** The table after some plans, and the error that stopped the run, if any. */
  datatype Step = Step(events: seq<Store.StoredEvent>, error: Option<string>)

  /**
   * One day: delete the rows whose `day` is the date of
   * `${day}T00:00:00.000Z`, then, when the day has rows, insert its manual
   * events, skipping ids already stored.
   */
  function ApplyPlan(env: Eastern.Oracles, events: seq<Store.StoredEvent>, plan: Plan): Step {
    match Midnight(env, plan.day)
    case None => Step(events, Some(InvalidDay))
    case Some(midnight) =>
      var date := DateColumn(midnight);
      var kept := Store.Purged(events, "", date, date + 1);
      if plan.csvRows == [] then Step(kept, None)
      else
        match ManualEvents(env, plan.day, plan.csvRows)
        case Err(e) => Step(kept, Some(e))
        case Ok(batch) => Step(kept + Store.NewRows(kept, batch), None)
  }

  /** The three ways a day ends, each on its own. */
  lemma ApplyPlanCases(env: Eastern.Oracles, events: seq<Store.StoredEvent>, plan: Plan)
    ensures Midnight(env, plan.day).None? ==> ApplyPlan(env, events, plan) == Step(events, Some(InvalidDay))
    ensures Midnight(env, plan.day).Some? ==>
              var date := DateColumn(Midnight(env, plan.day).value);
              var kept := Store.Purged(events, "", date, date + 1);
              var batch := ManualEvents(env, plan.day, plan.csvRows);
              (plan.csvRows == [] ==> ApplyPlan(env, events, plan) == Step(kept, None))
              && (plan.csvRows != [] && batch.Err? ==> ApplyPlan(env, events, plan) == Step(kept, Some(batch.error)))
              && (plan.csvRows != [] && batch.Ok? ==> ApplyPlan(env, events, plan) == Step(kept + Store.NewRows(kept, batch.value), None))
  {
    hide ManualEvents, Store.Purged, Store.NewRows;
  }

  /** The plans applied in order, stopping at the first error. */
  function ApplyUpTo(env: Eastern.Oracles, events: seq<Store.StoredEvent>, plans: seq<Plan>, k: nat): Step
    requires k <= |plans|
  {
    if k == 0 then Step(events, None)
    else
      var before := ApplyUpTo(env, events, plans, k - 1);
      if before.error.Some? then before else ApplyPlan(env, before.events, plans[k - 1])
  }

  /** Exactly the rows of the day are deleted: a row stays unless its `day` is that date. */
  lemma DeletesOnlyThatDay(events: seq<Store.StoredEvent>, date: int, e: Store.StoredEvent)
    ensures e in Store.Purged(events, "", date, date + 1) <==> e in events && e.day != Some(date)
  {
    assert StartsWith(e.eventId, "");
  }

  /**
   * After a day is applied without error, every manual id of the day is
   * stored, the ids are still unique, and no row of another day was removed.
   */
  lemma ApplyPlanMeaning(env: Eastern.Oracles, events: seq<Store.StoredEvent>, plan: Plan)
    requires Store.UniqueEventIds(events)
    ensures Store.UniqueEventIds(ApplyPlan(env, events, plan).events)
    ensures ApplyPlan(env, events, plan).error.None? ==> Midnight(env, plan.day).Some?
    ensures ApplyPlan(env, events, plan).error.None? ==>
              var date := DateColumn(Midnight(env, plan.day).value);
              var after := ApplyPlan(env, events, plan).events;
              (forall e :: e in events && e.day != Some(date) ==> e in after)
              && (forall i :: 0 <= i < |plan.csvRows| ==> Store.HasEventId(after, ManualId(plan.day, i)))
  {
    hide ApplyPlan, ManualEvents, ManualEvent, Store.Purged, Store.NewRows, ManualId;
    ApplyPlanCases(env, events, plan);
    match Midnight(env, plan.day)
    case None =>
    case Some(midnight) =>
      var date := DateColumn(midnight);
      var kept := Store.Purged(events, "", date, date + 1);
      Store.PurgedUnique(events, "", date, date + 1);
      forall e | e in events && e.day != Some(date) ensures e in kept {
        DeletesOnlyThatDay(events, date, e);
      }
      if plan.csvRows != [] && ManualEvents(env, plan.day, plan.csvRows).Ok? {
        InsertedRows(env, kept, plan);
      }
  }

  /** Inserting a day's batch keeps every row and the ids unique, and stores every manual id of the day. */
  lemma InsertedRows(env: Eastern.Oracles, kept: seq<Store.StoredEvent>, plan: Plan)
    requires Store.UniqueEventIds(kept) && ManualEvents(env, plan.day, plan.csvRows).Ok?
    ensures var after := kept + Store.NewRows(kept, ManualEvents(env, plan.day, plan.csvRows).value);
            Store.UniqueEventIds(after)
            && (forall e :: e in kept ==> e in after)
            && (forall i :: 0 <= i < |plan.csvRows| ==> Store.HasEventId(after, ManualId(plan.day, i)))
  {
    hide ManualEvents, ManualEvent, Store.Purged, Store.NewRows, ManualId;
    var batch := ManualEvents(env, plan.day, plan.csvRows).value;
    Store.NewRowsInserted(kept, batch);
    ManualEventsShape(env, plan.day, plan.csvRows);
    forall i | 0 <= i < |plan.csvRows| ensures Store.HasEventId(kept + Store.NewRows(kept, batch), ManualId(plan.day, i)) {
      assert batch[i].eventId == ManualId(plan.day, i);
    }
  }

  /**
   * Applying the same day twice leaves the table as applying it once.  When
   * the day's noon and midnight share a date (every real date), the second
   * delete removes exactly the rows the first insert added and the second
   * insert puts the same rows back; otherwise the delete finds nothing and
   * every id of the second batch is already stored.
   */
  lemma ApplyPlanTwice(env: Eastern.Oracles, events: seq<Store.StoredEvent>, plan: Plan)
    requires Store.UniqueEventIds(events)
    requires ApplyPlan(env, events, plan).error.None?
    ensures ApplyPlan(env, ApplyPlan(env, events, plan).events, plan) == ApplyPlan(env, events, plan)
  {
    hide ApplyPlan, ManualEvents, ManualEvent, ManualId, Store.Purged, Store.NewRows, Store.UniqueEventIds, GuessCreatedDate;
    ApplyPlanCases(env, events, plan);
    var once := ApplyPlan(env, events, plan).events;
    ApplyPlanCases(env, once, plan);
    var date := DateColumn(Midnight(env, plan.day).value);
    var kept := Store.Purged(events, "", date, date + 1);
    Store.PurgedTwice(events, "", date, date + 1);
    if plan.csvRows != [] {
      var batch := ManualEvents(env, plan.day, plan.csvRows).value;
      var added := Store.NewRows(kept, batch);
      assert once == kept + added;
      ManualEventsShape(env, plan.day, plan.csvRows);
      Store.PurgedAppend(kept, added, "", date, date + 1);
      if DateColumn(Noon(env, plan.day).value) == date {
        AddedAllPurged(added, batch, date);
        assert Store.Purged(once, "", date, date + 1) == kept + [];
        assert kept + [] == kept;
      } else {
        forall i | 0 <= i < |added| ensures !Store.InDayRange(added[i], date, date + 1) {
          assert added[i] in batch;
          var j :| 0 <= j < |batch| && batch[j] == added[i];
        }
        Store.PurgedNothing(added, "", date, date + 1);
        Store.PurgedUnique(events, "", date, date + 1);
        Store.NewRowsInserted(kept, batch);
        Store.NewRowsNone(once, batch);
        assert once + [] == once;
      }
    }
  }

  /** Rows of a batch that all carry `day` equal to the deleted date are all deleted. */
  lemma {:induction false} AddedAllPurged(added: seq<Store.StoredEvent>, batch: seq<Store.StoredEvent>, date: int)
    requires forall e :: e in added ==> e in batch
    requires forall i :: 0 <= i < |batch| ==> batch[i].day == Some(date)
    ensures Store.Purged(added, "", date, date + 1) == []
    decreases |added|
  {
    if added != [] {
      assert added[0] in added;
      var j :| 0 <= j < |batch| && batch[j] == added[0];
      assert StartsWith(added[0].eventId, "");
      assert forall e :: e in added[1..] ==> e in added;
      AddedAllPurged(added[1..], batch, date);
    }
  }

  /** After an error no later plan runs. */
  lemma {:induction false} ApplyErrorStays(env: Eastern.Oracles, events: seq<Store.StoredEvent>, plans: seq<Plan>, k: nat, m: nat)
    requires k <= m <= |plans| && ApplyUpTo(env, events, plans, k).error.Some?
    ensures ApplyUpTo(env, events, plans, m) == ApplyUpTo(env, events, plans, k)
    decreases m
  {
    hide ApplyPlan;
    if m > k {
      ApplyErrorStays(env, events, plans, k, m - 1);
    }
  }

  lemma ApplyUpToNext(env: Eastern.Oracles, events: seq<Store.StoredEvent>, plans: seq<Plan>, k: nat)
    requires k < |plans| && ApplyUpTo(env, events, plans, k).error.None?
    ensures ApplyUpTo(env, events, plans, k + 1) == ApplyPlan(env, ApplyUpTo(env, events, plans, k).events, plans[k])
  {
    hide ApplyPlan;
  }

  /** `deleteDay`: removes the rows whose `day` is the date of `${day}T00:00:00.000Z`; the count is of the rows removed. */
  method DeleteDay(store: Store.EventStore, env: Eastern.Oracles, day: string) returns (r: Result<nat, string>)
    requires store.Valid()
    modifies store
    ensures store.Valid() && store.online == old(store.online)
    ensures Midnight(env, day).None? ==> r == Err(InvalidDay) && store.events == old(store.events)
    ensures Midnight(env, day).Some? && !old(store.online) ==>
              r == Err(Store.DatabaseError) && store.events == old(store.events)
    ensures Midnight(env, day).Some? && old(store.online) ==>
              var date := DateColumn(Midnight(env, day).value);
              store.events == Store.Purged(old(store.events), "", date, date + 1)
              && r == Ok(|old(store.events)| - |store.events|)
  {
    var midnight := Midnight(env, day);
    if midnight.None? {
      return Err(InvalidDay);
    }
    var date := DateColumn(midnight.value);
    r := store.DeleteDayRangeWithPrefix("", date, date + 1);
  }

  /** `insertManualEvents`: builds the day's batch and hands it to `createMany` with `skipDuplicates`. */
  method InsertManualEvents(store: Store.EventStore, env: Eastern.Oracles, day: string, rows: seq<CsvRow>) returns (r: Result<nat, string>)
    requires store.Valid()
    modifies store
    ensures store.Valid() && store.online == old(store.online)
    ensures ManualEvents(env, day, rows).Err? ==> r == Err(ManualEvents(env, day, rows).error) && store.events == old(store.events)
    ensures ManualEvents(env, day, rows).Ok? && !old(store.online) ==>
              r == Err(Store.DatabaseError) && store.events == old(store.events)
    ensures ManualEvents(env, day, rows).Ok? && old(store.online) ==>
              var added := Store.NewRows(old(store.events), ManualEvents(env, day, rows).value);
              store.events == old(store.events) + added && r == Ok(|added|)
  {
    var batch := ManualEvents(env, day, rows);
    if batch.Err? {
      return Err(batch.error);
    }
    r := store.CreateManySkipDuplicates(batch.value);
  }

  /** One pass of the per-day loop of `main`. */
  method ApplyOne(store: Store.EventStore, env: Eastern.Oracles, plan: Plan) returns (error: Option<string>)
    requires store.Valid() && store.online
    modifies store
    ensures store.Valid() && store.online
    ensures Step(store.events, error) == ApplyPlan(env, old(store.events), plan)
  {
    hide *;
    ApplyPlanCases(env, store.events, plan);
    var deleted := DeleteDay(store, env, plan.day);
    if deleted.Err? {
      return Some(deleted.error);
    }
    if plan.csvRows == [] {
      return None;
    }
    var inserted := InsertManualEvents(store, env, plan.day, plan.csvRows);
    if inserted.Err? {
      return Some(inserted.error);
    }
    return None;
  }

  /** The per-day loop of `main`. */
  method ApplyPlans(store: Store.EventStore, env: Eastern.Oracles, plans: seq<Plan>) returns (error: Option<string>)
    requires store.Valid() && store.online
    modifies store
    ensures store.Valid() && store.online
    ensures store.events == ApplyUpTo(env, old(store.events), plans, |plans|).events
    ensures error == ApplyUpTo(env, old(store.events), plans, |plans|).error
  {
    ghost var original := store.events;
    assert ApplyUpTo(env, original, plans, 0) == Step(original, None);
    hide ApplyUpTo, ApplyPlan;
    var k := 0;
    while k < |plans|
      invariant k <= |plans| && store.Valid() && store.online
      invariant ApplyUpTo(env, original, plans, k) == Step(store.events, None)
    {
      ApplyUpToNext(env, original, plans, k);
      error := ApplyOne(store, env, plans[k]);
      if error.Some? {
        ApplyErrorStays(env, original, plans, k + 1, |plans|);
        return;
      }
      k := k + 1;
    }
    return None;
  }

  // ---------------------------------------------------------------- main

  datatype Report = DryRun(plans: seq<Plan>) | Cancelled(plans: seq<Plan>) | Done(plans: seq<Plan>)

  /** Facts of the run the model takes as given: `DATABASE_URL` is set, the file exists, the confirmation answer. */
  datatype Session = Session(databaseUrl: bool, fileExists: bool, confirmed: bool)

  datatype RunResult = RunResult(events: seq<Store.StoredEvent>, outcome: Result<Report, string>)

  const MissingDatabaseUrl := "Missing required env var: DATABASE_URL"

  /** What `main` does to the table and how it ends. */
  function RunSpec(env: Eastern.Oracles, events: seq<Store.StoredEvent>, online: bool, answers: Answers, session: Session, file: Export): RunResult {
    match PlansOf(env, answers, session.fileExists, file)
    case Err(e) => RunResult(events, Err(e))
    case Ok(plans) =>
      if answers.dryRun then RunResult(events, Ok(DryRun(plans)))
      else if !session.databaseUrl then RunResult(events, Err(MissingDatabaseUrl))
      else if !online then RunResult(events, Err(Store.DatabaseError))
      else if !session.confirmed then RunResult(events, Ok(Cancelled(plans)))
      else
        var s := ApplyUpTo(env, events, plans, |plans|);
        RunResult(s.events, if s.error.Some? then Err(s.error.value) else Ok(Done(plans)))
  }

  method Run(store: Store.EventStore, env: Eastern.Oracles, answers: Answers, session: Session, file: Export)
    returns (outcome: Result<Report, string>)
    requires store.Valid()
    modifies store
    ensures store.Valid() && store.online == old(store.online)
    ensures outcome == RunSpec(env, old(store.events), old(store.online), answers, session, file).outcome
    ensures store.events == RunSpec(env, old(store.events), old(store.online), answers, session, file).events
  {
    hide ApplyUpTo, GroupUpTo, TabularRows, ValidDays, PickDays, PlansFor;
    var days := ValidDays(answers.days);
    if days == [] {
      return Err(NoValidDays);
    }
    if !session.fileExists {
      return Err(FileNotFound(answers.fileName));
    }
    var rows := ReadTabular(answers.fileName, file);
    if rows.Err? {
      return Err(rows.error);
    }
    var byDay := GroupByDay(env, rows.value);
    if byDay.Err? {
      return Err(byDay.error);
    }
    var plans := PlansFor(PickDays(answers.year, answers.month, days), byDay.value);
    if answers.dryRun {
      return Ok(DryRun(plans));
    }
    if !session.databaseUrl {
      return Err(MissingDatabaseUrl);
    }
    if !store.online {
      return Err(Store.DatabaseError);
    }
    if !session.confirmed {
      return Ok(Cancelled(plans));
    }
    var error := ApplyPlans(store, env, plans);
    if error.Some? {
      return Err(error.value);
    }
    return Ok(Done(plans));
  }

  /** A dry run, a refused confirmation and every failure before the writes leave the table as it was. */
  lemma OnlyConfirmedRunsWrite(env: Eastern.Oracles, events: seq<Store.StoredEvent>, online: bool, answers: Answers, session: Session, file: Export)
    requires answers.dryRun || !session.confirmed || !online || !session.databaseUrl
    ensures RunSpec(env, events, online, answers, session, file).events == events
    ensures RunSpec(env, events, online, answers, session, file).outcome.Ok? ==>
              RunSpec(env, events, online, answers, session, file).outcome == (if answers.dryRun then Ok(DryRun(PlansOf(env, answers, session.fileExists, file).value))
                                                                                else Ok(Cancelled(PlansOf(env, answers, session.fileExists, file).value)))
  {
  }

  /** With no valid day number the run stops before reading the file or touching the table. */
  lemma NoDaysNoRun(env: Eastern.Oracles, events: seq<Store.StoredEvent>, online: bool, answers: Answers, session: Session, file: Export)
    requires forall a, x :: a in answers.days ==> !DayAnswer(a, x)
    ensures RunSpec(env, events, online, answers, session, file) == RunResult(events, Err(NoValidDays))
  {
    ValidDaysNone(answers.days);
  }

  /** Each completed day keeps the ids unique and stores every manual id of that day. */
  lemma {:induction false} ApplyUpToUnique(env: Eastern.Oracles, events: seq<Store.StoredEvent>, plans: seq<Plan>, k: nat)
    requires Store.UniqueEventIds(events) && k <= |plans|
    ensures Store.UniqueEventIds(ApplyUpTo(env, events, plans, k).events)
    decreases k
  {
    if k > 0 {
      ApplyUpToUnique(env, events, plans, k - 1);
      ApplyPlanMeaning(env, ApplyUpTo(env, events, plans, k - 1).events, plans[k - 1]);
    }
  }
}
