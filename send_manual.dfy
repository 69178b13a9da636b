/**
 * `scripts/sendManualWebhooksDec2025.ts`: the rows of one December 2025
 * export that fall on the requested Eastern day are turned into
 * `transaction`/`created` webhook bodies and POSTed, in sheet order, to the
 * server's `/webhooks/vagaro` route; the first failed POST ends the run.
 * `--limit` keeps the first rows only and `--dry-run` posts nothing.  The
 * clock, the time-of-day formatter, the file system and `fetch` are given
 * as parameters.
 */
module SendManual {
  import opened Wrappers
  import opened Text
  import opened Js
  import Calendar
  import Eastern
  import BackfillRead
  import BackfillKeys
  import BackfillMain
  import SendManualRead
  import VagaroRoute

  type XlsxRow = BackfillRead.XlsxRow

  // ---------------------------------------------------------------- the webhook body

  /**
   * The transaction payload.  The script writes several fields under more
   * than one name; each value is held once here and written under all its
   * names by `PayloadValue`.
   */
  datatype Payload = Payload(
    transactionId: string,
    createdDate: string,
    customerName: string,
    checkedOutBy: string,
    source: string,
    itemSold: string,
    providerName: string,
    amountDue: real,
    tip: real,
    cashTender: real,
    cardTender: real,
    gcRedemption: real,
    changeDue: real,
    tenderTotal: real)

  /** `buildVagaroWrapper`'s result: the event id and the body to post. */
  datatype Wrapper = Wrapper(eventId: string, createdDate: string, payload: Payload)

  /** `manual-dec2025-{file without .xlsx}-{transactionId}-{row}`. */
  function EventId(file: string, transactionId: string, rowNumber: nat): string {
    "manual-dec2025-" + BackfillRead.StripXlsx(file) + "-" + transactionId + "-" + NatToString(rowNumber)
  }

  /** `buildVagaroWrapper`. */
  function BuildWrapper(row: XlsxRow): (w: Wrapper)
    ensures w.eventId == EventId(row.file, row.transactionId, row.rowNumber)
  {
    var created := Calendar.IsoString(row.checkoutDate);
    Wrapper(
      EventId(row.file, row.transactionId, row.rowNumber),
      created,
      Payload(
        transactionId := row.transactionId,
        createdDate := created,
        customerName := row.customerName,
        checkedOutBy := row.checkedOutBy,
        source := row.source,
        itemSold := row.itemSold,
        providerName := row.providerName,
        amountDue := row.amountDue,
        tip := row.tip,
        cashTender := row.cashTendered,
        cardTender := row.ccAmount,
        gcRedemption := row.gcRedemption,
        changeDue := row.changeDue,
        tenderTotal := row.cashTendered + row.ccAmount))
  }

  /** The payload object as `JSON.stringify` writes it, every alias included. */
  function PayloadValue(p: Payload): Value {
    Obj(map[
      "customerName" := Str(p.customerName),
      "checkedOutBy" := Str(p.checkedOutBy),
      "source" := Str(p.source),
      "itemSold" := Str(p.itemSold),
      "providerName" := Str(p.providerName),
      "tip" := Num(Finite(p.tip)),
      "amountCash" := Num(Finite(p.cashTender)),
      "cash_tender" := Num(Finite(p.cashTender)),
      "creditCardAmount" := Num(Finite(p.cardTender)),
      "amountCard" := Num(Finite(p.cardTender)),
      "card_tender" := Num(Finite(p.cardTender)),
      "gcRedemption" := Num(Finite(p.gcRedemption)),
      "changeDue" := Num(Finite(p.changeDue)),
      "change_due" := Num(Finite(p.changeDue)),
      "tenderAmount" := Num(Finite(p.tenderTotal)),
      "tender_total" := Num(Finite(p.tenderTotal)),
      "totalAmount" := Num(Finite(p.tenderTotal)),
      "createdDate" := Str(p.createdDate),
      "transactionDate" := Str(p.createdDate),
      "id" := Str(p.transactionId),
      "transactionId" := Str(p.transactionId),
      "userPaymentsMstId" := Str(p.transactionId),
      "amountDue" := Num(Finite(p.amountDue)),
      "cashAmount" := Num(Finite(p.cashTender))])
  }

  /** The body object: `{ id, type, action, createdDate, payload }`. */
  function BodyValue(w: Wrapper): Value {
    Obj(map[
      "type" := Str("transaction"),
      "action" := Str("created"),
      "createdDate" := Str(w.createdDate),
      "payload" := PayloadValue(w.payload),
      "id" := Str(w.eventId)])
  }

  /** The three transaction-id fields of a posted payload all carry the row's transaction id. */
  lemma PayloadIds(row: XlsxRow)
    ensures var v := PayloadValue(BuildWrapper(row).payload);
            Get(v, "id") == Str(row.transactionId)
            && Get(v, "transactionId") == Str(row.transactionId)
            && Get(v, "userPaymentsMstId") == Str(row.transactionId)
  {
    hide Calendar.IsoString, EventId, PayloadValue;
    PayloadIdFields(BuildWrapper(row).payload);
  }

  lemma PayloadIdFields(p: Payload)
    ensures Get(PayloadValue(p), "id") == Str(p.transactionId)
    ensures Get(PayloadValue(p), "transactionId") == Str(p.transactionId)
    ensures Get(PayloadValue(p), "userPaymentsMstId") == Str(p.transactionId)
  {
  }

  /** The three tender totals of a posted payload are the cash plus the card tendered. */
  lemma PayloadTender(row: XlsxRow)
    ensures var v := PayloadValue(BuildWrapper(row).payload);
            Get(v, "tenderAmount") == Num(Finite(row.cashTendered + row.ccAmount))
            && Get(v, "tender_total") == Num(Finite(row.cashTendered + row.ccAmount))
            && Get(v, "totalAmount") == Num(Finite(row.cashTendered + row.ccAmount))
  {
    hide Calendar.IsoString, EventId, PayloadValue;
    PayloadTenderFields(BuildWrapper(row).payload);
  }

  lemma PayloadTenderFields(p: Payload)
    ensures Get(PayloadValue(p), "tenderAmount") == Num(Finite(p.tenderTotal))
    ensures Get(PayloadValue(p), "tender_total") == Num(Finite(p.tenderTotal))
    ensures Get(PayloadValue(p), "totalAmount") == Num(Finite(p.tenderTotal))
  {
  }

  /** The created and transaction dates of the body are the row's checkout time in ISO form. */
  lemma BodyDates(row: XlsxRow)
    ensures var w := BuildWrapper(row);
            Get(BodyValue(w), "createdDate") == Str(Calendar.IsoString(row.checkoutDate))
            && Get(PayloadValue(w.payload), "createdDate") == Str(Calendar.IsoString(row.checkoutDate))
            && Get(PayloadValue(w.payload), "transactionDate") == Str(Calendar.IsoString(row.checkoutDate))
  {
    hide Calendar.IsoString, EventId, PayloadValue;
    PayloadDates(BuildWrapper(row).payload);
  }

  lemma PayloadDates(p: Payload)
    ensures Get(PayloadValue(p), "createdDate") == Str(p.createdDate)
    ensures Get(PayloadValue(p), "transactionDate") == Str(p.createdDate)
  {
  }

  lemma PayloadAmounts(p: Payload)
    ensures Get(PayloadValue(p), "cashAmount") == Num(Finite(p.cashTender))
    ensures Get(PayloadValue(p), "amountDue") == Num(Finite(p.amountDue))
  {
  }

  lemma BodyFields(w: Wrapper)
    ensures Get(BodyValue(w), "payload") == PayloadValue(w.payload)
    ensures Get(BodyValue(w), "id") == Str(w.eventId)
    ensures Get(BodyValue(w), "cashAmount") == Undefined && Get(BodyValue(w), "amountDue") == Undefined
  {
    hide PayloadValue;
  }

  /**
   * Rows with different row numbers get different event ids, whatever their
   * files and transaction ids: the id ends in `-{row}`.
   */
  lemma EventIdsDistinct(a: XlsxRow, b: XlsxRow)
    requires a.rowNumber != b.rowNumber
    ensures BuildWrapper(a).eventId != BuildWrapper(b).eventId
  {
    var pa := "manual-dec2025-" + BackfillRead.StripXlsx(a.file) + "-" + a.transactionId;
    var pb := "manual-dec2025-" + BackfillRead.StripXlsx(b.file) + "-" + b.transactionId;
    assert EventId(a.file, a.transactionId, a.rowNumber) == pa + "-" + NatToString(a.rowNumber);
    assert EventId(b.file, b.transactionId, b.rowNumber) == pb + "-" + NatToString(b.rowNumber);
    if pa + "-" + NatToString(a.rowNumber) == pb + "-" + NatToString(b.rowNumber) {
      DashNumberInjective(pa, a.rowNumber, pb, b.rowNumber);
    }
  }

  /**
   * What the webhook route stores for a posted body: the wrapper's event id,
   * and as cash collected the cash tendered less the row's `amountDue` (the
   * body carries the sale amount there, not the change due).
   */
  lemma RouteRecordsSentRow(env: Eastern.Oracles, row: XlsxRow, headers: map<string, string>, ip: string)
    ensures var w := BuildWrapper(row);
            var rec := VagaroRoute.RecordOf(env, VagaroRoute.Request(BodyValue(w), headers, ip));
            rec.Some? ==>
              rec.value.eventId == w.eventId
              && rec.value.cashCollected == Some(row.cashTendered - row.amountDue)
  {
    hide PayloadValue, BodyValue, BuildWrapper, VagaroRoute.RecordOf, VagaroRoute.DeriveCashCollected,
      VagaroRoute.DeriveDay, VagaroRoute.CreatedDateOf, Eastern.NewDate, VagaroRoute.Pick;
    var w := BuildWrapper(row);
    var body := BodyValue(w);
    assert w.payload.cashTender == row.cashTendered && w.payload.amountDue == row.amountDue by {
      WrapperAmounts(row);
    }
    BodyFields(w);
    PayloadAmounts(w.payload);
    VagaroRoute.CashFromNested(body, PayloadValue(w.payload), w.payload.cashTender, w.payload.amountDue);
    assert VagaroRoute.BodyOf(VagaroRoute.Request(body, headers, ip)) == body;
  }

  lemma WrapperAmounts(row: XlsxRow)
    ensures BuildWrapper(row).payload.cashTender == row.cashTendered
    ensures BuildWrapper(row).payload.amountDue == row.amountDue
  {
    hide Calendar.IsoString, EventId;
  }

  // ---------------------------------------------------------------- arguments

  /** What the script reads from its process: arguments, environment and working directory. */
  datatype Process = Process(
    argv: seq<string>,
    /** `process.env.BASE_URL` and `process.env.DASH_TOKEN`. */
    baseUrlEnv: Option<string>,
    dashTokenEnv: Option<string>,
    cwd: string,
    /** `path.isAbsolute` and `path.join`. */
    isAbsolute: string -> bool,
    join: (string, string) -> string)

  /** The options `parseArgs` returns. */
  datatype Options = Options(
    filePath: string,
    day: string,
    baseUrl: string,
    authToken: Option<string>,
    limit: Number,
    delayMs: Number,
    dryRun: bool)

  const DefaultFile := "src/csv/dec2025/12-13-2025.xlsx"
  const DefaultDay := "2025-12-13"
  const DefaultBaseUrl := "http://localhost:3000"

  /** `a ?? b` on optional texts. */
  function OrElse(a: Option<string>, b: Option<string>): (r: Option<string>)
    ensures r.None? <==> a.None? && b.None?
    ensures a.Some? ==> r == a
  {
    if a.Some? then a else b
  }

  /** `s.replace(/\/$/, "")`: one trailing slash removed. */
  function StripTrailingSlash(s: string): (r: string)
    ensures s != [] && s[|s| - 1] == '/' ==> s == r + "/"
    ensures !(s != [] && s[|s| - 1] == '/') ==> r == s
  {
    if s != [] && s[|s| - 1] == '/' then s[..|s| - 1] else s
  }

  /** `argv.slice(2)`. */
  function Arguments(argv: seq<string>): seq<string> {
    if |argv| >= 2 then argv[2..] else []
  }

  /** `parseArgs`. */
  function ParseArgs(p: Process): (o: Options)
  {
    var args := Arguments(p.argv);
    var fileArg := OrElse(OrElse(BackfillMain.GetArg(args, "--file"), BackfillMain.GetArg(args, "-f")), Some(DefaultFile)).value;
    Options(
      filePath := if p.isAbsolute(fileArg) then fileArg else p.join(p.cwd, fileArg),
      day := Trim(BackfillMain.GetArg(args, "--day").GetOr(DefaultDay)),
      baseUrl := StripTrailingSlash(OrElse(OrElse(BackfillMain.GetArg(args, "--base-url"), p.baseUrlEnv), Some(DefaultBaseUrl)).value),
      authToken := OrElse(BackfillMain.GetArg(args, "--auth"), p.dashTokenEnv),
      limit := ParseNumber(BackfillMain.GetArg(args, "--limit").GetOr("0")),
      delayMs := ParseNumber(BackfillMain.GetArg(args, "--delay-ms").GetOr("50")),
      dryRun := "--dry-run" in args || "--dry" in args)
  }

  lemma NoArgument(name: string)
    ensures BackfillMain.GetArg([], name) == None
  {
  }

  lemma ParseZero()
    ensures ParseNumber("0") == Finite(0.0)
  {
    assert Trim("0") == "0";
    MantissaOfDigits("0");
  }

  /**
   * With no arguments the script reads the 13 December export, picks
   * 13 December, sends for real with no limit, and posts to `BASE_URL`, or
   * to localhost when that is unset.
   */
  lemma ParseArgsDefaults(p: Process)
    requires |p.argv| <= 2
    ensures var o := ParseArgs(p);
            o.filePath == (if p.isAbsolute(DefaultFile) then DefaultFile else p.join(p.cwd, DefaultFile))
            && o.day == DefaultDay
            && o.baseUrl == StripTrailingSlash(p.baseUrlEnv.GetOr(DefaultBaseUrl))
            && o.authToken == p.dashTokenEnv
            && o.limit == Finite(0.0)
            && !o.dryRun
  {
    hide ParseNumber, Trim, StripTrailingSlash, BackfillMain.GetArg;
    assert Arguments(p.argv) == [];
    NoArgument("--file");
    NoArgument("-f");
    NoArgument("--day");
    NoArgument("--base-url");
    NoArgument("--auth");
    NoArgument("--limit");
    ParseZero();
    DefaultDayTrimmed();
  }

  lemma DefaultDayTrimmed()
    ensures Trim(DefaultDay) == DefaultDay
  {
    TrimUnchanged(DefaultDay);
  }

  /** `--limit N` and `--day D` given as separate arguments are read back. */
  lemma ParseArgsGiven(p: Process, before: seq<string>, name: string, value: string, after: seq<string>)
    requires |p.argv| >= 2 && p.argv[2..] == before + [name, value] + after
    requires name !in before && value != ""
    ensures name == "--limit" ==> ParseArgs(p).limit == ParseNumber(value)
    ensures name == "--day" ==> ParseArgs(p).day == Trim(value)
  {
    hide ParseNumber, Trim, StripTrailingSlash, BackfillMain.GetArg;
    BackfillMain.GetArgSeparate(before, name, value, after);
  }

  /** Either dry-run flag anywhere among the arguments turns sending off. */
  lemma DryRunFlag(p: Process)
    ensures ParseArgs(p).dryRun <==> "--dry-run" in Arguments(p.argv) || "--dry" in Arguments(p.argv)
  {
    hide ParseNumber, Trim, StripTrailingSlash, BackfillMain.GetArg;
  }

  // ---------------------------------------------------------------- selection

  /** `rows.filter(r => etDay(r.checkoutDate) === day)`. */
  function RowsForDay(env: Eastern.Oracles, rows: seq<XlsxRow>, day: string): (r: seq<XlsxRow>)
    ensures |r| <= |rows|
    ensures forall x :: x in r <==> x in rows && Eastern.EtDay(env, x.checkoutDate) == day
    decreases |rows|
  {
    if rows == [] then []
    else (if Eastern.EtDay(env, rows[0].checkoutDate) == day then [rows[0]] else []) + RowsForDay(env, rows[1..], day)
  }

  /** Row numbers increase along the rows. */
  predicate Increasing(rows: seq<XlsxRow>) {
    forall a, b :: 0 <= a < b < |rows| ==> rows[a].rowNumber < rows[b].rowNumber
  }

  lemma NothingIncreasing()
    ensures Increasing([])
  {
  }

  lemma IncreasingTail(rows: seq<XlsxRow>)
    requires rows != [] && Increasing(rows)
    ensures Increasing(rows[1..])
  {
  }

  lemma IncreasingFirst(rows: seq<XlsxRow>, x: XlsxRow)
    requires rows != [] && Increasing(rows) && x in rows[1..]
    ensures rows[0].rowNumber < x.rowNumber
  {
    var m :| 0 <= m < |rows[1..]| && rows[1..][m] == x;
    assert rows[m + 1] == x;
  }

  lemma IncreasingCons(x: XlsxRow, rest: seq<XlsxRow>)
    requires Increasing(rest)
    requires forall k :: 0 <= k < |rest| ==> x.rowNumber < rest[k].rowNumber
    ensures Increasing([x] + rest)
  {
    var all := [x] + rest;
    forall a, b | 0 <= a < b < |all|
      ensures all[a].rowNumber < all[b].rowNumber
    {
      assert all[b] == rest[b - 1];
      if a > 0 {
        assert all[a] == rest[a - 1];
      }
    }
  }

  /** Filtering by day keeps the sheet's order. */
  lemma {:induction false} RowsForDayIncreasing(env: Eastern.Oracles, rows: seq<XlsxRow>, day: string)
    requires Increasing(rows)
    ensures Increasing(RowsForDay(env, rows, day))
    decreases |rows|
  {
    hide Increasing, Eastern.EtDay;
    if rows == [] {
      assert RowsForDay(env, rows, day) == [];
      NothingIncreasing();
    } else {
      var rest := RowsForDay(env, rows[1..], day);
      IncreasingTail(rows);
      RowsForDayIncreasing(env, rows[1..], day);
      if Eastern.EtDay(env, rows[0].checkoutDate) == day {
        forall k | 0 <= k < |rest|
          ensures rows[0].rowNumber < rest[k].rowNumber
        {
          assert rest[k] in rest;
          IncreasingFirst(rows, rest[k]);
        }
        IncreasingCons(rows[0], rest);
        assert RowsForDay(env, rows, day) == [rows[0]] + rest;
      } else {
        assert RowsForDay(env, rows, day) == rest;
      }
    }
  }

  /** `limit > 0 ? rows.slice(0, limit) : rows`. */
  function TakeLimit(rows: seq<XlsxRow>, limit: Number): (r: seq<XlsxRow>)
    ensures |r| <= |rows| && r == rows[..|r|]
    ensures limit.Finite? && limit.value > 0.0 ==> |r| as real <= limit.value && |r| == Min(Trunc(limit.value), |rows|)
    ensures !(limit.Finite? && limit.value > 0.0) ==> r == rows
  {
    if limit.Finite? && limit.value > 0.0 then
      var k: nat := Trunc(limit.value);
      rows[..Min(k, |rows|)]
    else rows
  }

  function Min(a: nat, b: nat): (r: nat)
    ensures r <= a && r <= b && (r == a || r == b)
  {
    if a < b then a else b
  }

  /** A prefix of increasing rows is increasing. */
  lemma PrefixIncreasing(rows: seq<XlsxRow>, k: nat)
    requires Increasing(rows) && k <= |rows|
    ensures Increasing(rows[..k])
  {
  }

  // ---------------------------------------------------------------- sending

  /** What `fetch` gives back: a response (its status, and its text), or a thrown error. */
  datatype Reply = Reply(ok: bool, status: nat, text: string) | Threw(message: string)

  /** The POST: endpoint, headers and JSON body in, reply out. */
  type Poster = (string, map<string, string>, Value) -> Reply

  /** The headers of every POST: JSON, plus the auth token when one is given and not empty. */
  function Headers(authToken: Option<string>): (h: map<string, string>)
    ensures "content-type" in h && h["content-type"] == "application/json"
    ensures "x-auth-token" in h <==> authToken.Some? && authToken.value != ""
    ensures "x-auth-token" in h ==> h["x-auth-token"] == authToken.value
    ensures |h.Keys| <= 2
  {
    var base := map["content-type" := "application/json"];
    if authToken.Some? && authToken.value != "" then base["x-auth-token" := authToken.value] else base
  }

  /** Everything the send loop needs besides the rows. */
  datatype Context = Context(
    env: Eastern.Oracles,
    endpoint: string,
    headers: map<string, string>,
    day: string,
    dryRun: bool,
    /** `timeKeyLocal`: the Eastern wall clock as `HH:MM:SS`. */
    timeText: int -> string,
    post: Poster)

  /** The progress label of row `i` of `n`, which a failed POST quotes. */
  function Label(ctx: Context, i: nat, n: nat, row: XlsxRow): string {
    NatToString(i + 1) + "/" + NatToString(n) + " " + ctx.day + " " + ctx.timeText(row.checkoutDate)
    + " | " + row.itemSold + " | $" + BackfillKeys.MoneyKey(Finite(row.amountDue))
    + " | cash=$" + BackfillKeys.MoneyKey(Finite(row.cashTendered)) + " cc=$" + BackfillKeys.MoneyKey(Finite(row.ccAmount))
  }

  /** `text.slice(0, 500)`. */
  function Clip(text: string): (r: string)
    ensures |r| <= 500 && |r| <= |text| && r == text[..|r|]
    ensures |text| <= 500 ==> r == text
  {
    if |text| <= 500 then text else text[..500]
  }

  /** The error a non-OK response raises. */
  function PostFailed(status: nat, rowLabel: string, text: string): string {
    "POST failed (" + NatToString(status) + ") " + rowLabel + " :: " + Clip(text)
  }

  /** The bodies posted, in order, and the error that ended the run, if any. */
  datatype Sent = Sent(posted: seq<Wrapper>, failure: Option<string>)

  /** The reply to posting a wrapper. */
  function ReplyTo(ctx: Context, w: Wrapper): Reply {
    ctx.post(ctx.endpoint, ctx.headers, BodyValue(w))
  }

  /** A POST that came back OK. */
  predicate Delivered(ctx: Context, w: Wrapper) {
    var reply := ReplyTo(ctx, w);
    reply.Reply? && reply.ok
  }

  lemma DeliveredMeaning(ctx: Context, w: Wrapper)
    ensures Delivered(ctx, w) <==> ReplyTo(ctx, w).Reply? && ReplyTo(ctx, w).ok
  {
  }

  lemma ReplyToIs(ctx: Context, w: Wrapper)
    ensures ReplyTo(ctx, w) == ctx.post(ctx.endpoint, ctx.headers, BodyValue(w))
  {
  }

  /** The loop of `main` from row `i` on. */
  function SendFrom(ctx: Context, rows: seq<XlsxRow>, i: nat): (s: Sent)
    decreases |rows| - i
  {
    if i >= |rows| then Sent([], None)
    else if ctx.dryRun then SendFrom(ctx, rows, i + 1)
    else
      var w := BuildWrapper(rows[i]);
      match ReplyTo(ctx, w)
      case Threw(message) => Sent([w], Some(message))
      case Reply(ok, status, text) =>
        if !ok then Sent([w], Some(PostFailed(status, Label(ctx, i, |rows|, rows[i]), text)))
        else
          var rest := SendFrom(ctx, rows, i + 1);
          Sent([w] + rest.posted, rest.failure)
  }

  /** A dry run posts nothing and cannot fail. */
  lemma {:induction false} DryRunPostsNothing(ctx: Context, rows: seq<XlsxRow>, i: nat)
    requires ctx.dryRun
    ensures SendFrom(ctx, rows, i) == Sent([], None)
    decreases |rows| - i
  {
    if i < |rows| {
      DryRunPostsNothing(ctx, rows, i + 1);
    }
  }

  /** The posted bodies are those of rows `i`, `i + 1`, ... in order. */
  predicate PostedRows(posted: seq<Wrapper>, rows: seq<XlsxRow>, i: nat) {
    i + |posted| <= |rows|
    && forall j :: 0 <= j < |posted| ==> posted[j] == BuildWrapper(rows[i + j])
  }

  /** Every POST before the last came back OK, and the run failed exactly when the last did not. */
  predicate StoppedAtFailure(ctx: Context, s: Sent) {
    (forall j :: 0 <= j < |s.posted| - 1 ==> Delivered(ctx, s.posted[j]))
    && (s.failure.Some? <==> s.posted != [] && !Delivered(ctx, s.posted[|s.posted| - 1]))
  }

  /**
   * Outside a dry run the bodies are posted for the rows in order; every
   * POST before the last came back OK; the run fails exactly when the last
   * POST did not, and otherwise every row was posted.
   */
  lemma {:induction false} PostsInOrder(ctx: Context, rows: seq<XlsxRow>, i: nat)
    requires !ctx.dryRun && i <= |rows|
    ensures PostedRows(SendFrom(ctx, rows, i).posted, rows, i)
    ensures StoppedAtFailure(ctx, SendFrom(ctx, rows, i))
    ensures SendFrom(ctx, rows, i).failure.None? ==> |SendFrom(ctx, rows, i).posted| == |rows| - i
    decreases |rows| - i
  {
    hide SendFrom, BuildWrapper, Delivered, ReplyTo, PostFailed, Label, PostedRows, StoppedAtFailure;
    SendStep(ctx, rows, i);
    if i == |rows| {
      NothingPosted(ctx, rows, i);
    } else {
      var w := BuildWrapper(rows[i]);
      DeliveredMeaning(ctx, w);
      if Delivered(ctx, w) {
        PostsInOrder(ctx, rows, i + 1);
        PostedCons(ctx, rows, i, SendFrom(ctx, rows, i + 1));
      } else {
        PostedOne(ctx, rows, i, SendFrom(ctx, rows, i));
      }
    }
  }

  lemma NothingPosted(ctx: Context, rows: seq<XlsxRow>, i: nat)
    requires i <= |rows|
    ensures PostedRows([], rows, i) && StoppedAtFailure(ctx, Sent([], None))
  {
  }

  /** A run that ends with the first POST. */
  lemma PostedOne(ctx: Context, rows: seq<XlsxRow>, i: nat, s: Sent)
    requires i < |rows| && s.posted == [BuildWrapper(rows[i])]
    requires s.failure.Some? <==> !Delivered(ctx, BuildWrapper(rows[i]))
    ensures PostedRows(s.posted, rows, i) && StoppedAtFailure(ctx, s)
  {
    hide BuildWrapper, Delivered;
  }

  /** A delivered POST followed by the rest of the run. */
  lemma PostedCons(ctx: Context, rows: seq<XlsxRow>, i: nat, rest: Sent)
    requires i < |rows| && Delivered(ctx, BuildWrapper(rows[i]))
    requires PostedRows(rest.posted, rows, i + 1) && StoppedAtFailure(ctx, rest)
    ensures PostedRows([BuildWrapper(rows[i])] + rest.posted, rows, i)
    ensures StoppedAtFailure(ctx, Sent([BuildWrapper(rows[i])] + rest.posted, rest.failure))
  {
    hide BuildWrapper, Delivered, PostedRows, StoppedAtFailure;
    PostedRowsCons(rows, i, rest.posted);
    StoppedCons(ctx, BuildWrapper(rows[i]), rest);
  }

  lemma PostedRowsCons(rows: seq<XlsxRow>, i: nat, rest: seq<Wrapper>)
    requires i < |rows| && PostedRows(rest, rows, i + 1)
    ensures PostedRows([BuildWrapper(rows[i])] + rest, rows, i)
  {
    hide BuildWrapper;
    var posted := [BuildWrapper(rows[i])] + rest;
    forall j | 0 <= j < |posted|
      ensures posted[j] == BuildWrapper(rows[i + j])
    {
      if j > 0 {
        assert posted[j] == rest[j - 1];
      }
    }
  }

  lemma StoppedCons(ctx: Context, w: Wrapper, rest: Sent)
    requires Delivered(ctx, w) && StoppedAtFailure(ctx, rest)
    ensures StoppedAtFailure(ctx, Sent([w] + rest.posted, rest.failure))
  {
    hide Delivered;
    var posted := [w] + rest.posted;
    forall j | 0 <= j < |posted| - 1
      ensures Delivered(ctx, posted[j])
    {
      if j > 0 {
        assert posted[j] == rest.posted[j - 1];
      }
    }
    if rest.posted != [] {
      assert posted[|posted| - 1] == rest.posted[|rest.posted| - 1];
    }
  }

  /** Rows with increasing row numbers are posted under pairwise distinct event ids. */
  lemma PostedIdsDistinct(ctx: Context, rows: seq<XlsxRow>)
    requires Increasing(rows)
    ensures forall a, b :: 0 <= a < b < |SendFrom(ctx, rows, 0).posted| ==>
              SendFrom(ctx, rows, 0).posted[a].eventId != SendFrom(ctx, rows, 0).posted[b].eventId
  {
    hide SendFrom, BuildWrapper;
    var posted := SendFrom(ctx, rows, 0).posted;
    if ctx.dryRun {
      DryRunPostsNothing(ctx, rows, 0);
    } else {
      PostsInOrder(ctx, rows, 0);
      forall a, b | 0 <= a < b < |posted|
        ensures posted[a].eventId != posted[b].eventId
      {
        assert posted[a] == BuildWrapper(rows[a]) && posted[b] == BuildWrapper(rows[b]);
        EventIdsDistinct(rows[a], rows[b]);
      }
    }
  }

  /** One turn of the loop: skip (dry run), fail on this row, or post it and go on. */
  lemma SendStep(ctx: Context, rows: seq<XlsxRow>, i: nat)
    ensures i >= |rows| ==> SendFrom(ctx, rows, i) == Sent([], None)
    ensures i < |rows| && ctx.dryRun ==> SendFrom(ctx, rows, i) == SendFrom(ctx, rows, i + 1)
    ensures i < |rows| && !ctx.dryRun && ReplyTo(ctx, BuildWrapper(rows[i])).Threw? ==>
              SendFrom(ctx, rows, i) == Sent([BuildWrapper(rows[i])], Some(ReplyTo(ctx, BuildWrapper(rows[i])).message))
    ensures i < |rows| && !ctx.dryRun && ReplyTo(ctx, BuildWrapper(rows[i])).Reply? && !ReplyTo(ctx, BuildWrapper(rows[i])).ok ==>
              SendFrom(ctx, rows, i)
              == Sent([BuildWrapper(rows[i])],
                      Some(PostFailed(ReplyTo(ctx, BuildWrapper(rows[i])).status, Label(ctx, i, |rows|, rows[i]),
                                      ReplyTo(ctx, BuildWrapper(rows[i])).text)))
    ensures i < |rows| && !ctx.dryRun && ReplyTo(ctx, BuildWrapper(rows[i])).Reply? && ReplyTo(ctx, BuildWrapper(rows[i])).ok ==>
              SendFrom(ctx, rows, i)
              == Sent([BuildWrapper(rows[i])] + SendFrom(ctx, rows, i + 1).posted, SendFrom(ctx, rows, i + 1).failure)
  {
    hide BuildWrapper, ReplyTo, PostFailed, Label;
  }

  /** The send loop of `main`: build, post, stop at the first failure. */
  method SendRows(ctx: Context, rows: seq<XlsxRow>) returns (s: Sent)
    ensures s == SendFrom(ctx, rows, 0)
  {
    hide SendFrom, BuildWrapper, ReplyTo, PostFailed, Label;
    var posted: seq<Wrapper> := [];
    var i := 0;
    while i < |rows|
      invariant 0 <= i <= |rows|
      invariant Sent(posted + SendFrom(ctx, rows, i).posted, SendFrom(ctx, rows, i).failure) == SendFrom(ctx, rows, 0)
    {
      SendStep(ctx, rows, i);
      var w := BuildWrapper(rows[i]);
      if ctx.dryRun {
        i := i + 1;
        continue;
      }
      var reply := ctx.post(ctx.endpoint, ctx.headers, BodyValue(w));
      ReplyToIs(ctx, w);
      if reply.Threw? {
        return Sent(posted + [w], Some(reply.message));
      }
      if !reply.ok {
        return Sent(posted + [w], Some(PostFailed(reply.status, Label(ctx, i, |rows|, rows[i]), reply.text)));
      }
      assert (posted + [w]) + SendFrom(ctx, rows, i + 1).posted == posted + ([w] + SendFrom(ctx, rows, i + 1).posted);
      posted := posted + [w];
      i := i + 1;
    }
    s := Sent(posted, None);
    SendStep(ctx, rows, i);
    assert posted + [] == posted;
  }

  // ---------------------------------------------------------------- main

  /** Everything `main` reads besides the Eastern calendar. */
  datatype Host = Host(
    process: Process,
    files: BackfillRead.Files,
    timeText: int -> string,
    post: Poster)

  /** The loop's context for the parsed options. */
  function ContextOf(env: Eastern.Oracles, host: Host, o: Options): Context {
    Context(env, o.baseUrl + "/webhooks/vagaro", Headers(o.authToken), o.day, o.dryRun, host.timeText, host.post)
  }

  /** The rows `main` sends: those on the chosen day, cut to the limit. */
  function Selected(env: Eastern.Oracles, rows: seq<XlsxRow>, o: Options): seq<XlsxRow> {
    TakeLimit(RowsForDay(env, rows, o.day), o.limit)
  }

  /** `main`: the bodies it posts and the error it ends with, if any. */
  function Main(env: Eastern.Oracles, host: Host): (s: Sent)
  {
    var o := ParseArgs(host.process);
    match SendManualRead.ReadXlsxSpec(env, host.files, o.filePath)
    case Err(e) => Sent([], Some(e))
    case Ok(rows) => SendFrom(ContextOf(env, host, o), Selected(env, rows, o), 0)
  }

  lemma SelectedIs(env: Eastern.Oracles, rows: seq<XlsxRow>, o: Options)
    ensures Selected(env, rows, o) == TakeLimit(RowsForDay(env, rows, o.day), o.limit)
  {
  }

  /** `main` as the script runs it. */
  method RunMain(env: Eastern.Oracles, host: Host) returns (s: Sent)
    ensures s == Main(env, host)
  {
    hide SendFrom, Selected, ParseArgs, SendManualRead.ReadXlsxSpec;
    var o := ParseArgs(host.process);
    var read := SendManualRead.ReadXlsx(env, host.files, o.filePath);
    if read.Err? {
      return Sent([], Some(read.error));
    }
    var rowsForDay := RowsForDay(env, read.value, o.day);
    var sendRows := TakeLimit(rowsForDay, o.limit);
    SelectedIs(env, read.value, o);
    s := SendRows(ContextOf(env, host, o), sendRows);
  }

  /** Read rows are in increasing row order. */
  lemma ReadIncreasing(env: Eastern.Oracles, files: BackfillRead.Files, filePath: string)
    requires SendManualRead.ReadXlsxSpec(env, files, filePath).Ok?
    ensures Increasing(SendManualRead.ReadXlsxSpec(env, files, filePath).value)
  {
    hide SendManualRead.ReadXlsxSpec;
    SendManualRead.ReadRowsValid(env, files, filePath);
  }

  /** The rows sent are rows of the file on the chosen day, in sheet order, no more than a positive limit. */
  lemma SelectedRows(env: Eastern.Oracles, files: BackfillRead.Files, o: Options)
    requires SendManualRead.ReadXlsxSpec(env, files, o.filePath).Ok?
    ensures var rows := SendManualRead.ReadXlsxSpec(env, files, o.filePath).value;
            var sel := Selected(env, rows, o);
            (forall j :: 0 <= j < |sel| ==> sel[j] in rows && Eastern.EtDay(env, sel[j].checkoutDate) == o.day)
            && Increasing(sel)
            && (o.limit.Finite? && o.limit.value > 0.0 ==> |sel| as real <= o.limit.value)
            && (!(o.limit.Finite? && o.limit.value > 0.0) ==> sel == RowsForDay(env, rows, o.day))
  {
    hide SendManualRead.ReadXlsxSpec, Eastern.EtDay, Selected, RowsForDay, TakeLimit, Increasing;
    var rows := SendManualRead.ReadXlsxSpec(env, files, o.filePath).value;
    var forDay := RowsForDay(env, rows, o.day);
    var sel := Selected(env, rows, o);
    SelectedIs(env, rows, o);
    ReadIncreasing(env, files, o.filePath);
    RowsForDayIncreasing(env, rows, o.day);
    PrefixIncreasing(forDay, |sel|);
    forall j | 0 <= j < |sel|
      ensures sel[j] in rows && Eastern.EtDay(env, sel[j].checkoutDate) == o.day
    {
      assert sel[j] == forDay[j];
      assert forDay[j] in forDay;
    }
  }

  lemma ContextDryRun(env: Eastern.Oracles, host: Host, o: Options)
    ensures ContextOf(env, host, o).dryRun == o.dryRun
  {
  }

  /**
   * `main` posts, in order, the bodies of the selected rows, every one but
   * the last delivered; it stops at the first failed POST; a dry run or an
   * unreadable file posts nothing; and no two bodies share an event id.
   */
  lemma MainPostsSelectedRows(env: Eastern.Oracles, host: Host)
    ensures var o := ParseArgs(host.process);
            var s := Main(env, host);
            var read := SendManualRead.ReadXlsxSpec(env, host.files, o.filePath);
            (read.Err? ==> s == Sent([], Some(read.error)))
            && (o.dryRun ==> s.posted == [] && (s.failure.Some? ==> read.Err?))
            && (read.Ok? && !o.dryRun ==>
                  PostedRows(s.posted, Selected(env, read.value, o), 0)
                  && StoppedAtFailure(ContextOf(env, host, o), s)
                  && (s.failure.None? ==> |s.posted| == |Selected(env, read.value, o)|))
            && (forall a, b :: 0 <= a < b < |s.posted| ==> s.posted[a].eventId != s.posted[b].eventId)
  {
    hide SendFrom, Selected, ParseArgs, SendManualRead.ReadXlsxSpec, BuildWrapper, ContextOf, Increasing,
      PostedRows, StoppedAtFailure;
    var o := ParseArgs(host.process);
    var read := SendManualRead.ReadXlsxSpec(env, host.files, o.filePath);
    if read.Ok? {
      var ctx := ContextOf(env, host, o);
      var sel := Selected(env, read.value, o);
      assert Main(env, host) == SendFrom(ctx, sel, 0);
      ContextDryRun(env, host, o);
      assert Increasing(sel) by {
        SelectedRows(env, host.files, o);
      }
      PostedIdsDistinct(ctx, sel);
      if o.dryRun {
        DryRunPostsNothing(ctx, sel, 0);
      } else {
        PostsInOrder(ctx, sel, 0);
      }
    }
  }
}
