/**
 * `scripts/manualUpload.ts`, the sending half: each valid row becomes a
 * `transaction`/`created` webhook event, and, once the operator (or
 * `MANUAL_UPLOAD_SEND=1`) agrees and the target's health check passes or
 * is overridden, the events are POSTed one by one with up to two retries.
 * Prompts, the file system, the network and `randomUUID` are given as
 * parameters.
 */
module ManualUploadSend {
  import opened Wrappers
  import opened Text
  import opened Js
  import Calendar
  import Eastern
  import Sheet
  import ManualUpload
  import VagaroRoute

  type ParsedRow = ManualUpload.ParsedRow

  // ---------------------------------------------------------------- payloads

  /** The transaction payload the script sends, field for field. */
  datatype Payload = Payload(
    tax: string,
    tip: real,
    ccMode: string,
    ccType: string,
    points: int,
    ccAmount: real,
    discount: real,
    itemSold: string,
    quantity: real,
    achAmount: real,
    amountDue: real,
    brandName: Option<string>,
    createdBy: string,
    businessId: string,
    cashAmount: real,
    customerId: string,
    checkAmount: real,
    otherAmount: real,
    gcRedemption: real,
    purchaseType: string,
    appointmentId: string,
    businessAlias: string,
    transactionId: string,
    userPaymentId: string,
    businessGroupId: string,
    productDiscount: real,
    serviceCategory: string,
    transactionDate: string,
    memberShipAmount: real,
    bankAccountAmount: real,
    packageRedemption: real,
    serviceProviderId: string,
    userPaymentsMstId: string,
    vagaroPayLaterAmount: real)

  /** The webhook envelope: `{ id, type, action, payload, createdDate }`. */
  datatype Event = Event(id: string, eventType: string, action: string, payload: Payload, createdDate: string)

  /** `s || fallback` for a text that may be null: null and "" both fall back. */
  function OrText(s: Option<string>, fallback: string): (r: string)
    ensures s.Some? && s.value != "" ==> r == s.value
    ensures s.None? || s.value == "" ==> r == fallback
  {
    if s.Some? && s.value != "" then s.value else fallback
  }

  /** `${prefix}-${n}`. */
  function RowId(prefix: string, n: nat): string {
    prefix + "-" + NatToString(n)
  }

  /** `r.checkoutUtc?.toISOString() || new Date().toISOString()`. */
  function CreatedDate(row: ParsedRow, now: int): string {
    Calendar.IsoString(if row.checkoutUtc.Some? then row.checkoutUtc.value else now)
  }

  /** The payload of a row; `createdDate` is the row's checkout time or now. */
  function BuildPayload(row: ParsedRow, createdDate: string): Payload {
    var itemSold := if row.itemSold.Some? && row.itemSold.value != "" then Trim(row.itemSold.value) else "";
    var ccAmount := row.ccAmount.GetOr(0.0);
    Payload(
      tax := NumberToString(row.tax.GetOr(0.0)),
      tip := row.tip.GetOr(0.0),
      ccMode := if ccAmount > 0.0 then "C" else "Manual",
      ccType := OrText(row.brandName, "Manual"),
      points := 0,
      ccAmount := ccAmount,
      discount := row.discount.GetOr(0.0),
      itemSold := itemSold,
      quantity := row.quantity.GetOr(1.0),
      achAmount := 0.0,
      amountDue := row.changeDue.GetOr(0.0),
      brandName := row.brandName,
      createdBy := OrText(row.createdBy, "manual-upload"),
      businessId := "manual-import",
      cashAmount := row.cashAmount.GetOr(0.0),
      customerId := RowId("manual-customer", row.rowNumber),
      checkAmount := row.checkAmount.GetOr(0.0),
      otherAmount := row.otherAmount.GetOr(0.0),
      gcRedemption := row.gcRedemption.GetOr(0.0),
      purchaseType := OrText(row.purchaseType, "Service"),
      appointmentId :=
        if row.appointmentUtc.Some? then Calendar.IsoString(row.appointmentUtc.value)
        else RowId("manual-appt", row.rowNumber),
      businessAlias := "",
      transactionId := OrText(row.transactionId, RowId("manual-tx", row.rowNumber)),
      userPaymentId := RowId("manual-payment", row.rowNumber),
      businessGroupId := "manual-group",
      productDiscount := 0.0,
      serviceCategory := itemSold,
      transactionDate := createdDate,
      memberShipAmount := row.membership.GetOr(0.0),
      bankAccountAmount := row.bankAccountAmount.GetOr(0.0),
      packageRedemption := row.packageRedemption.GetOr(0.0),
      serviceProviderId := OrText(row.serviceProviderId, ""),
      userPaymentsMstId := RowId("manual-mst", row.rowNumber),
      vagaroPayLaterAmount := row.buyNowPayLater.GetOr(0.0))
  }

  /** The event of one row, with the id `randomUUID` gave it. */
  function BuildEvent(row: ParsedRow, eventId: string, now: int): Event {
    var createdDate := CreatedDate(row, now);
    Event(eventId, "transaction", "created", BuildPayload(row, createdDate), createdDate)
  }

  /** `rows.map(...)`: the `i`-th row gets the `i`-th generated id. */
  function BuildEvents(rows: seq<ParsedRow>, uuid: nat -> string, now: int): (events: seq<Event>)
    ensures |events| == |rows|
  {
    seq(|rows|, i requires 0 <= i < |rows| => BuildEvent(rows[i], uuid(i), now))
  }

  /**
   * A valid row keeps its own transaction id, and an event's creation and
   * transaction dates are the row's checkout time when it has one.  The
   * card mode is `C` exactly when a card amount above zero was paid.
   */
  lemma EventMirrorsRow(row: ParsedRow, eventId: string, now: int)
    ensures var e := BuildEvent(row, eventId, now);
            (ManualUpload.IsValid(row) ==> e.payload.transactionId == row.transactionId.value)
            && e.payload.transactionId != ""
            && e.payload.transactionDate == e.createdDate
            && (row.checkoutUtc.Some? ==> e.createdDate == Calendar.IsoString(row.checkoutUtc.value))
            && (e.payload.ccMode == "C" <==> row.ccAmount.Some? && row.ccAmount.value > 0.0)
            && e.id == eventId && e.eventType == "transaction" && e.action == "created"
  {
    hide Calendar.IsoString, NatToString, NumberToString, Trim;
  }

  /** `manual-customer-3` and `manual-customer-5` differ, and so on for each generated id. */
  lemma RowIdInjective(prefix: string, m: nat, n: nat)
    requires m != n
    ensures RowId(prefix, m) != RowId(prefix, n)
  {
    if RowId(prefix, m) == RowId(prefix, n) {
      DashNumberInjective(prefix, m, prefix, n);
    }
  }

  /**
   * Events built from rows with distinct row numbers carry distinct
   * customer, payment and payment-master ids.
   */
  lemma EventIdsDistinct(rows: seq<ParsedRow>, uuid: nat -> string, now: int, i: nat, j: nat)
    requires i < |rows| && j < |rows| && rows[i].rowNumber != rows[j].rowNumber
    ensures var events := BuildEvents(rows, uuid, now);
            events[i].payload.customerId != events[j].payload.customerId
            && events[i].payload.userPaymentId != events[j].payload.userPaymentId
            && events[i].payload.userPaymentsMstId != events[j].payload.userPaymentsMstId
  {
    hide RowId, Calendar.IsoString, NumberToString, Trim, BuildEvent;
    var m, n := rows[i].rowNumber, rows[j].rowNumber;
    var events := BuildEvents(rows, uuid, now);
    assert events[i] == BuildEvent(rows[i], uuid(i), now) && events[j] == BuildEvent(rows[j], uuid(j), now);
    EventRowIds(rows[i], uuid(i), now);
    EventRowIds(rows[j], uuid(j), now);
    RowIdInjective("manual-customer", m, n);
    RowIdInjective("manual-payment", m, n);
    RowIdInjective("manual-mst", m, n);
  }

  /** An event's generated ids are those of its row number. */
  lemma EventRowIds(row: ParsedRow, eventId: string, now: int)
    ensures var p := BuildEvent(row, eventId, now).payload;
            p.customerId == RowId("manual-customer", row.rowNumber)
            && p.userPaymentId == RowId("manual-payment", row.rowNumber)
            && p.userPaymentsMstId == RowId("manual-mst", row.rowNumber)
  {
    hide RowId, Calendar.IsoString, NumberToString, Trim;
  }

  /**
   * The events of the valid rows of a file (each with a transaction id and a
   * checkout time, in increasing row order, as `parseTransactions` returns
   * them): one per row, in order, each with the row's transaction id and
   * its checkout time as creation date, and no two sharing a customer id.
   */
  lemma EventsOfValidRows(rows: seq<ParsedRow>, uuid: nat -> string, now: int)
    requires forall i :: 0 <= i < |rows| ==> ManualUpload.IsValid(rows[i]) && rows[i].checkoutUtc.Some?
    requires forall i, j :: 0 <= i < j < |rows| ==> rows[i].rowNumber < rows[j].rowNumber
    ensures |BuildEvents(rows, uuid, now)| == |rows|
    ensures forall i :: 0 <= i < |rows| ==>
              rows[i].transactionId == Some(BuildEvents(rows, uuid, now)[i].payload.transactionId)
              && rows[i].checkoutUtc.Some?
              && BuildEvents(rows, uuid, now)[i].createdDate == Calendar.IsoString(rows[i].checkoutUtc.value)
    ensures forall i, j :: 0 <= i < j < |rows| ==>
              BuildEvents(rows, uuid, now)[i].payload.customerId != BuildEvents(rows, uuid, now)[j].payload.customerId
  {
    hide BuildEvent;
    var events := BuildEvents(rows, uuid, now);
    forall i | 0 <= i < |rows|
      ensures rows[i].transactionId == Some(events[i].payload.transactionId)
              && rows[i].checkoutUtc.Some?
              && events[i].createdDate == Calendar.IsoString(rows[i].checkoutUtc.value)
    {
      assert events[i] == BuildEvent(rows[i], uuid(i), now);
      EventMirrorsRow(rows[i], uuid(i), now);
    }
    forall i, j | 0 <= i < j < |rows|
      ensures events[i].payload.customerId != events[j].payload.customerId
    {
      EventIdsDistinct(rows, uuid, now, i, j);
    }
  }

  // ---------------------------------------------------------------- the posted body

  /** The JSON object `JSON.stringify` writes for a payload; the amounts the route reads come last. */
  function PayloadValue(p: Payload): Value {
    Obj(map[
      "tax" := Str(p.tax),
      "tip" := Num(Finite(p.tip)),
      "ccMode" := Str(p.ccMode),
      "ccType" := Str(p.ccType),
      "points" := Num(Finite(p.points as real)),
      "ccAmount" := Num(Finite(p.ccAmount)),
      "discount" := Num(Finite(p.discount)),
      "itemSold" := Str(p.itemSold),
      "quantity" := Num(Finite(p.quantity)),
      "achAmount" := Num(Finite(p.achAmount)),
      "brandName" := if p.brandName.Some? then Str(p.brandName.value) else Null,
      "createdBy" := Str(p.createdBy),
      "businessId" := Str(p.businessId),
      "customerId" := Str(p.customerId),
      "checkAmount" := Num(Finite(p.checkAmount)),
      "otherAmount" := Num(Finite(p.otherAmount)),
      "gcRedemption" := Num(Finite(p.gcRedemption)),
      "purchaseType" := Str(p.purchaseType),
      "appointmentId" := Str(p.appointmentId),
      "businessAlias" := Str(p.businessAlias),
      "transactionId" := Str(p.transactionId),
      "userPaymentId" := Str(p.userPaymentId),
      "businessGroupId" := Str(p.businessGroupId),
      "productDiscount" := Num(Finite(p.productDiscount)),
      "serviceCategory" := Str(p.serviceCategory),
      "transactionDate" := Str(p.transactionDate),
      "memberShipAmount" := Num(Finite(p.memberShipAmount)),
      "bankAccountAmount" := Num(Finite(p.bankAccountAmount)),
      "packageRedemption" := Num(Finite(p.packageRedemption)),
      "serviceProviderId" := Str(p.serviceProviderId),
      "userPaymentsMstId" := Str(p.userPaymentsMstId),
      "vagaroPayLaterAmount" := Num(Finite(p.vagaroPayLaterAmount)),
      "amountDue" := Num(Finite(p.amountDue)),
      "cashAmount" := Num(Finite(p.cashAmount))])
  }

  /** The JSON object of an event. */
  function EventValue(e: Event): Value {
    Obj(map[
      "type" := Str(e.eventType),
      "action" := Str(e.action),
      "createdDate" := Str(e.createdDate),
      "payload" := PayloadValue(e.payload),
      "id" := Str(e.id)])
  }

  lemma PayloadValueAmounts(p: Payload)
    ensures Get(PayloadValue(p), "cashAmount") == Num(Finite(p.cashAmount))
    ensures Get(PayloadValue(p), "amountDue") == Num(Finite(p.amountDue))
  {
  }

  lemma EventValueFields(e: Event)
    ensures Get(EventValue(e), "payload") == PayloadValue(e.payload)
    ensures Get(EventValue(e), "id") == Str(e.id)
    ensures Get(EventValue(e), "cashAmount") == Undefined && Get(EventValue(e), "amountDue") == Undefined
  {
    hide PayloadValue;
  }

  /**
   * What the webhook route makes of an uploaded row: the stored event id is
   * the generated one, and the cash collected is the row's cash less its
   * change due (the script sends the change due as `amountDue`), with
   * missing amounts as 0.
   */
  lemma RouteRecordsUploadedRow(env: Eastern.Oracles, row: ParsedRow, eventId: string, now: int,
                                headers: map<string, string>, ip: string)
    ensures var e := BuildEvent(row, eventId, now);
            var rec := VagaroRoute.RecordOf(env, VagaroRoute.Request(EventValue(e), headers, ip));
            rec.Some? ==>
              rec.value.eventId == eventId
              && rec.value.cashCollected == Some(row.cashAmount.GetOr(0.0) - row.changeDue.GetOr(0.0))
  {
    hide PayloadValue, EventValue, BuildEvent, VagaroRoute.RecordOf, VagaroRoute.DeriveCashCollected,
      VagaroRoute.DeriveDay, VagaroRoute.CreatedDateOf, Eastern.NewDate, VagaroRoute.Pick;
    var e := BuildEvent(row, eventId, now);
    var body := EventValue(e);
    EventRowAmounts(row, eventId, now);
    EventValueFields(e);
    PayloadValueAmounts(e.payload);
    VagaroRoute.CashFromNested(body, PayloadValue(e.payload), e.payload.cashAmount, e.payload.amountDue);
    assert VagaroRoute.BodyOf(VagaroRoute.Request(body, headers, ip)) == body;
  }

  /** An event carries its row's cash amount and its change due as amount due, 0 when missing. */
  lemma EventRowAmounts(row: ParsedRow, eventId: string, now: int)
    ensures var p := BuildEvent(row, eventId, now).payload;
            p.cashAmount == row.cashAmount.GetOr(0.0) && p.amountDue == row.changeDue.GetOr(0.0)
            && BuildEvent(row, eventId, now).id == eventId
  {
    hide RowId, Calendar.IsoString, NumberToString, Trim;
  }

  // ---------------------------------------------------------------- prompts

  /** `/^y(es)?$/i.test(answer.trim())`. */
  predicate IsYes(answer: string) {
    var t := Trim(answer);
    (|t| == 1 || |t| == 3)
    && (t[0] == 'y' || t[0] == 'Y')
    && (|t| == 3 ==> (t[1] == 'e' || t[1] == 'E') && (t[2] == 's' || t[2] == 'S'))
  }

  /** An answer is a yes exactly when, trimmed and lower-cased, it is `y` or `yes`. */
  lemma IsYesLower(answer: string)
    ensures IsYes(answer) <==> Lower(Trim(answer)) == "y" || Lower(Trim(answer)) == "yes"
  {
    var t := Trim(answer);
    var l := Lower(t);
    if |t| == 1 {
      assert l == "y" <==> l[0] == 'y';
    } else if |t| == 3 {
      assert l == "yes" <==> l[0] == 'y' && l[1] == 'e' && l[2] == 's';
    }
  }

  /** `answer.trim() || process.cwd()`, which must name a directory. */
  function PromptDirectory(answer: string, cwd: string, isDirectory: string -> bool): (r: Result<string, string>)
    ensures r.Ok? ==> isDirectory(r.value) && (r.value == cwd || r.value == Trim(answer))
    ensures r.Err? ==> !isDirectory(if Trim(answer) != "" then Trim(answer) else cwd)
  {
    var dir := OrText(Some(Trim(answer)), cwd);
    if isDirectory(dir) then Ok(dir) else Err("Directory not found: " + dir)
  }

  /** `f.toLowerCase().endsWith(".xlsx")`. */
  predicate IsXlsx(name: string) {
    var l := Lower(name);
    |l| >= 5 && l[|l| - 5..] == ".xlsx"
  }

  /** The directory entries kept by the `.xlsx` filter, in listing order. */
  function XlsxFiles(entries: seq<string>): (files: seq<string>)
    ensures |files| <= |entries|
    ensures forall f :: f in files <==> f in entries && IsXlsx(f)
  {
    if entries == [] then []
    else
      var init := XlsxFiles(entries[..|entries| - 1]);
      var last := entries[|entries| - 1];
      assert entries == entries[..|entries| - 1] + [last];
      if IsXlsx(last) then init + [last] else init
  }

  /**
   * `promptFile`: the `choice`-th `.xlsx` entry (counting from 1), joined
   * to the directory; an error when there is none or the choice is not a
   * whole number in range.
   */
  function PromptFile(dir: string, entries: seq<string>, choice: string, join: (string, string) -> string)
    : (r: Result<string, string>)
  {
    hide ParseNumber;
    var files := XlsxFiles(entries);
    if files == [] then Err("No .xlsx files found in " + dir)
    else
      var idx := ParseNumber(Trim(choice));
      if idx.Finite? && IsIntegral(idx.value) && 1.0 <= idx.value <= |files| as real then
        Ok(join(dir, files[idx.value.Floor - 1]))
      else Err("Invalid selection: " + choice)
  }

  /** A selection is always one of the listed `.xlsx` entries. */
  lemma PromptFileChoosesXlsx(dir: string, entries: seq<string>, choice: string, join: (string, string) -> string)
    ensures PromptFile(dir, entries, choice, join).Ok? ==>
              exists f :: f in entries && IsXlsx(f) && PromptFile(dir, entries, choice, join).value == join(dir, f)
  {
    hide ParseNumber;
    var files := XlsxFiles(entries);
    if PromptFile(dir, entries, choice, join).Ok? {
      var idx := ParseNumber(Trim(choice));
      var f := files[idx.value.Floor - 1];
      assert f in files;
    }
  }

  /** Typing the number `k` shown next to an entry selects that entry; any other whole number is refused. */
  lemma PromptFileByNumber(dir: string, entries: seq<string>, k: nat, join: (string, string) -> string)
    ensures XlsxFiles(entries) == [] ==> PromptFile(dir, entries, NatToString(k), join) == Err("No .xlsx files found in " + dir)
    ensures 1 <= k <= |XlsxFiles(entries)| ==>
              PromptFile(dir, entries, NatToString(k), join) == Ok(join(dir, XlsxFiles(entries)[k - 1]))
    ensures !(1 <= k <= |XlsxFiles(entries)|) ==> PromptFile(dir, entries, NatToString(k), join).Err?
  {
    ChoiceNumber(k);
    hide XlsxFiles, ParseNumber, Trim, NatToString;
    assert (k as real).Floor == k;
  }

  /** `Number` reads hexadecimal: typing `0x1` picks the first `.xlsx` file. */
  lemma PromptFileByHex(dir: string, entries: seq<string>, join: (string, string) -> string)
    requires XlsxFiles(entries) != []
    ensures PromptFile(dir, entries, "0x1", join) == Ok(join(dir, XlsxFiles(entries)[0]))
  {
    hide XlsxFiles, ParseNumber, Trim;
    HexOne();
    assert (1.0).Floor == 1;
  }

  /** The trimmed answer `0x1` reads as 1. */
  lemma HexOne()
    ensures ParseNumber(Trim("0x1")) == Finite(1.0)
  {
    hide ParseNumber, Trim;
    HexDigitExample();
    RadixTextShape('x', "1");
    assert "0x1" == "0" + ['x'] + "1";
  }

  /** The digits of `k`, trimmed, read as the number `k`. */
  lemma ChoiceNumber(k: nat)
    ensures ParseNumber(Trim(NatToString(k))) == Finite(k as real)
  {
    var w := NatToString(k);
    assert !IsSpace(w[0]) && !IsSpace(w[|w| - 1]);
    TrimUnchanged(w);
    NatToStringValue(k);
    ParseDigits(w);
  }

  // ---------------------------------------------------------------- the network

  /** What a `fetch` came back with: a response, or the error it threw. */
  datatype Response = Response(ok: bool, status: nat) | Threw(message: string)

  const FetchMissing := "fetch is not available in this Node runtime. Use Node 18+."
  const DefaultTarget := "https://web-production-68a4e.up.railway.app/webhooks/vagaro"

  /** The result of the health check. */
  datatype Probe = Probe(ok: bool, status: Option<nat>, error: Option<string>)

  /**
   * `probeTarget`: `GET <origin of the target>/health`.  `origin` is the
   * origin `new URL(target)` gives, or the error it throws; `health` is the
   * answer to a GET of a URL.
   */
  function ProbeTarget(hasFetch: bool, origin: Result<string, string>, health: string -> Response): (p: Probe)
  {
    if !hasFetch then Probe(false, None, Some(FetchMissing))
    else
      match origin
      case Err(message) => Probe(false, None, Some(message))
      case Ok(o) =>
        match health(o + "/health")
        case Threw(message) => Probe(false, None, Some(message))
        case Response(ok, status) =>
          if ok then Probe(true, Some(status), None)
          else Probe(false, Some(status), Some("health check non-200 (" + NatToString(status) + ")"))
  }

  /** The probe passes exactly when `fetch` exists, the target parses and `/health` answers ok; a failure always says why. */
  lemma ProbeMeaning(hasFetch: bool, origin: Result<string, string>, health: string -> Response)
    ensures var p := ProbeTarget(hasFetch, origin, health);
            (p.ok <==> hasFetch && origin.Ok? && health(origin.value + "/health").Response?
                       && health(origin.value + "/health").ok)
            && (p.ok <==> p.error.None?)
            && (p.ok ==> p.status == Some(health(origin.value + "/health").status))
  {
    hide NatToString;
  }

  /** `maxRetries`: a payload is tried at most three times. */
  const MaxRetries: nat := 2

  /** One POST: the payload's position and the attempt (from 0). */
  datatype Post = Post(index: nat, attempt: nat)

  /** The answer to attempt `a` of payload `i` is a response with `ok` set. */
  predicate Delivers(reply: (nat, nat) -> Response, i: nat, a: nat) {
    reply(i, a).Response? && reply(i, a).ok
  }

  /** The POSTs of payload `i` from attempt `a` on: tries until one is ok or the retries run out. */
  function Attempts(reply: (nat, nat) -> Response, i: nat, a: nat): seq<Post>
    decreases MaxRetries + 1 - a
  {
    if a > MaxRetries then []
    else [Post(i, a)] + (if Delivers(reply, i, a) then [] else Attempts(reply, i, a + 1))
  }

  /** Some attempt of payload `i` from `a` on succeeds. */
  predicate DeliveredFrom(reply: (nat, nat) -> Response, i: nat, a: nat)
    decreases MaxRetries + 1 - a
  {
    a <= MaxRetries && (Delivers(reply, i, a) || DeliveredFrom(reply, i, a + 1))
  }

  /** All POSTs for the first `n` payloads, in order. */
  function Posts(reply: (nat, nat) -> Response, n: nat): seq<Post> {
    if n == 0 then [] else Posts(reply, n - 1) + Attempts(reply, n - 1, 0)
  }

  /** How many of the first `n` payloads were delivered. */
  function Successes(reply: (nat, nat) -> Response, n: nat): (s: nat)
    ensures s <= n
  {
    if n == 0 then 0 else Successes(reply, n - 1) + (if DeliveredFrom(reply, n - 1, 0) then 1 else 0)
  }

  /**
   * The attempts of one payload: numbered from `a` in order, never more
   * than the retries allow, every attempt but the last answered with a
   * failure, and the payload delivered exactly when the last one succeeded.
   */
  lemma {:induction false} AttemptsMeaning(reply: (nat, nat) -> Response, i: nat, a: nat)
    requires a <= MaxRetries
    ensures 1 <= |Attempts(reply, i, a)| <= MaxRetries + 1 - a
    ensures forall k :: 0 <= k < |Attempts(reply, i, a)| ==> Attempts(reply, i, a)[k] == Post(i, a + k)
    ensures forall b :: a <= b < a + |Attempts(reply, i, a)| - 1 ==> !Delivers(reply, i, b)
    ensures DeliveredFrom(reply, i, a) <==> Delivers(reply, i, a + |Attempts(reply, i, a)| - 1)
    decreases MaxRetries - a
  {
    if !Delivers(reply, i, a) && a < MaxRetries {
      AttemptsMeaning(reply, i, a + 1);
      var rest := Attempts(reply, i, a + 1);
      assert Attempts(reply, i, a) == [Post(i, a)] + rest;
    }
  }

  /** The attempts of payload `i` from `a` on are numbered from `a` and stop with the retries. */
  lemma {:induction false} AttemptsShape(reply: (nat, nat) -> Response, i: nat, a: nat)
    requires a <= MaxRetries
    ensures 1 <= |Attempts(reply, i, a)| <= MaxRetries + 1 - a
    ensures forall k :: 0 <= k < |Attempts(reply, i, a)| ==> Attempts(reply, i, a)[k] == Post(i, a + k)
    decreases MaxRetries - a
  {
    if !Delivers(reply, i, a) && a < MaxRetries {
      AttemptsShape(reply, i, a + 1);
    }
  }

  /** A payload is delivered exactly when one of its three attempts is answered ok. */
  lemma {:induction false} DeliveredMeaning(reply: (nat, nat) -> Response, i: nat, a: nat)
    requires a <= MaxRetries + 1
    ensures DeliveredFrom(reply, i, a) <==> exists b :: a <= b <= MaxRetries && Delivers(reply, i, b)
    decreases MaxRetries + 1 - a
  {
    if a <= MaxRetries {
      DeliveredMeaning(reply, i, a + 1);
      if DeliveredFrom(reply, i, a + 1) {
        var b :| a + 1 <= b <= MaxRetries && Delivers(reply, i, b);
        assert a <= b;
      }
    }
  }

  /** Every POST is for one of the first `n` payloads and is one of its three attempts. */
  predicate WithinPayloads(posts: seq<Post>, n: nat) {
    forall k :: 0 <= k < |posts| ==> posts[k].index < n && posts[k].attempt <= MaxRetries
  }

  /** The POSTs never go back to an earlier payload. */
  predicate InPayloadOrder(posts: seq<Post>) {
    forall k, l :: 0 <= k < l < |posts| ==> posts[k].index <= posts[l].index
  }

  /** Appending the attempts of payload `m` after those of the earlier payloads keeps both. */
  lemma AppendAttempts(before: seq<Post>, reply: (nat, nat) -> Response, m: nat)
    requires WithinPayloads(before, m) && InPayloadOrder(before)
    ensures WithinPayloads(before + Attempts(reply, m, 0), m + 1) && InPayloadOrder(before + Attempts(reply, m, 0))
  {
    var last := Attempts(reply, m, 0);
    AttemptsShape(reply, m, 0);
    hide Attempts;
    var all := before + last;
    forall k, l | 0 <= k < l < |all|
      ensures all[k].index <= all[l].index
    {
      if l >= |before| {
        assert all[l] == last[l - |before|];
        if k >= |before| {
          assert all[k] == last[k - |before|];
        }
      }
    }
    forall k | 0 <= k < |all|
      ensures all[k].index < m + 1 && all[k].attempt <= MaxRetries
    {
      if k >= |before| {
        assert all[k] == last[k - |before|];
      }
    }
  }

  /** The POSTs go out payload by payload, in order, each payload at most three times. */
  lemma {:induction false} PostsInOrder(reply: (nat, nat) -> Response, n: nat)
    ensures WithinPayloads(Posts(reply, n), n) && InPayloadOrder(Posts(reply, n))
  {
    hide WithinPayloads, InPayloadOrder, Attempts;
    if n == 0 {
      NoPostsInOrder();
    } else {
      PostsInOrder(reply, n - 1);
      AppendAttempts(Posts(reply, n - 1), reply, n - 1);
    }
  }

  lemma NoPostsInOrder()
    ensures WithinPayloads([], 0) && InPayloadOrder([])
  {
  }

  /** At most three POSTs per payload. */
  lemma {:induction false} PostsCount(reply: (nat, nat) -> Response, n: nat)
    ensures |Posts(reply, n)| <= 3 * n
  {
    if n > 0 {
      PostsCount(reply, n - 1);
      AttemptsShape(reply, n - 1, 0);
    }
  }

  /** When every first attempt is answered ok, every payload is delivered with one POST each. */
  lemma {:induction false} AllFirstTriesOk(reply: (nat, nat) -> Response, n: nat)
    requires forall i :: 0 <= i < n ==> Delivers(reply, i, 0)
    ensures Successes(reply, n) == n && |Posts(reply, n)| == n
  {
    if n > 0 {
      AllFirstTriesOk(reply, n - 1);
      assert Delivers(reply, n - 1, 0);
      assert Attempts(reply, n - 1, 0) == [Post(n - 1, 0)];
    }
  }

  /** When no attempt is answered ok, nothing is delivered and every payload is POSTed three times. */
  lemma {:induction false} NothingOk(reply: (nat, nat) -> Response, n: nat)
    requires forall i, a :: 0 <= i < n && 0 <= a <= MaxRetries ==> !Delivers(reply, i, a)
    ensures Successes(reply, n) == 0 && |Posts(reply, n)| == 3 * n
  {
    if n > 0 {
      NothingOk(reply, n - 1);
      AttemptsMeaning(reply, n - 1, 0);
      DeliveredMeaning(reply, n - 1, 0);
      assert !Delivers(reply, n - 1, |Attempts(reply, n - 1, 0)| - 1);
    }
  }

  /** What `sendPayloads` logs at the end, and the POSTs it made. */
  datatype SendReport = SendReport(success: nat, failed: nat, posts: seq<Post>)

  /** The report of sending `n` payloads. */
  function ReportOf(reply: (nat, nat) -> Response, n: nat): (r: SendReport)
    ensures r.success + r.failed == n
  {
    SendReport(Successes(reply, n), n - Successes(reply, n), Posts(reply, n))
  }

  /** One attempt: it is POSTed, and the next follows only when it was not answered ok. */
  lemma AttemptStep(reply: (nat, nat) -> Response, i: nat, a: nat)
    requires a <= MaxRetries
    ensures Delivers(reply, i, a) <==> reply(i, a).Response? && reply(i, a).ok
    ensures Attempts(reply, i, a) == [Post(i, a)] + (if Delivers(reply, i, a) then [] else Attempts(reply, i, a + 1))
    ensures DeliveredFrom(reply, i, a) <==> Delivers(reply, i, a) || DeliveredFrom(reply, i, a + 1)
  {
  }

  /** Past the last retry there is nothing more to try. */
  lemma AttemptsEnd(reply: (nat, nat) -> Response, i: nat)
    ensures Attempts(reply, i, MaxRetries + 1) == [] && !DeliveredFrom(reply, i, MaxRetries + 1)
  {
  }

  /** The retry loop for one payload (the inner `for`). */
  method SendOne(reply: (nat, nat) -> Response, i: nat) returns (delivered: bool, posts: seq<Post>)
    ensures delivered == DeliveredFrom(reply, i, 0)
    ensures posts == Attempts(reply, i, 0)
  {
    hide Attempts, DeliveredFrom, Delivers;
    var attempt := 0;
    posts := [];
    delivered := false;
    while attempt <= MaxRetries
      invariant attempt <= MaxRetries + 1
      invariant posts + Attempts(reply, i, attempt) == Attempts(reply, i, 0)
      invariant DeliveredFrom(reply, i, 0) == DeliveredFrom(reply, i, attempt)
      invariant !delivered
      decreases MaxRetries + 1 - attempt
    {
      AttemptStep(reply, i, attempt);
      posts := posts + [Post(i, attempt)];
      var res := reply(i, attempt);
      if res.Response? && res.ok {
        delivered := true;
        break;
      }
      if attempt < MaxRetries {
        attempt := attempt + 1;
        continue;
      }
      break;
    }
    AttemptsEnd(reply, i);
  }

  /**
   * `sendPayloads`: without `fetch` it throws; otherwise each payload is
   * POSTed until a response is ok, at most three times, and the successes
   * and failures are counted.
   */
  method SendPayloads(payloads: seq<Event>, hasFetch: bool, reply: (nat, nat) -> Response)
    returns (r: Result<SendReport, string>)
    ensures !hasFetch ==> r == Err(FetchMissing)
    ensures hasFetch ==> r == Ok(ReportOf(reply, |payloads|))
  {
    if !hasFetch {
      return Err(FetchMissing);
    }
    var success, failed := 0, 0;
    var posts: seq<Post> := [];
    var i := 0;
    while i < |payloads|
      invariant i <= |payloads|
      invariant success == Successes(reply, i) && failed == i - success
      invariant posts == Posts(reply, i)
    {
      var delivered, tries := SendOne(reply, i);
      posts := posts + tries;
      if delivered {
        success := success + 1;
      } else {
        failed := failed + 1;
      }
      i := i + 1;
    }
    r := Ok(SendReport(success, failed, posts));
  }

  // ---------------------------------------------------------------- the run

  /**
   * What a run sees of its surroundings: the environment variables
   * `MANUAL_UPLOAD_DIR`, `MANUAL_UPLOAD_FILE`, `MANUAL_WEBHOOK_URL` and
   * `MANUAL_UPLOAD_SEND`, the file system, the workbook reader, the
   * network and `randomUUID`.
   */
  datatype Host = Host(
    uploadDir: Option<string>,
    uploadFile: Option<string>,
    webhookUrl: Option<string>,
    uploadSend: Option<string>,
    cwd: string,
    isDirectory: string -> bool,
    listing: string -> seq<string>,
    join: (string, string) -> string,
    /** The sheets of the workbook at a path, or the error reading it throws. */
    workbook: string -> Result<seq<Sheet.Grid>, string>,
    uuid: nat -> string,
    hasFetch: bool,
    /** The origin of a URL, or the error `new URL` throws. */
    origin: string -> Result<string, string>,
    /** The answer to a GET of a URL. */
    health: string -> Response,
    /** The answer to attempt `a` of POSTing the `i`-th event. */
    reply: (nat, nat) -> Response)

  /** What the operator types at the directory, file, send and continue prompts. */
  datatype Answers = Answers(directory: string, file: string, send: string, proceed: string)

  /** How a run ends. */
  datatype Outcome =
    | Failed(message: string)
    | NothingToSend
    | Declined
    | Abandoned(probe: Probe)
    | Sent(events: seq<Event>, target: string, probe: Probe, report: SendReport)

  /** The workbook a run opens: the environment's choices, else the prompts'. */
  function ChosenFile(host: Host, answers: Answers): Result<string, string> {
    var dir :=
      if host.uploadDir.Some? && host.uploadDir.value != "" then Ok(host.uploadDir.value)
      else PromptDirectory(answers.directory, host.cwd, host.isDirectory);
    match dir
    case Err(message) => Err(message)
    case Ok(d) =>
      if host.uploadFile.Some? && host.uploadFile.value != "" then Ok(host.uploadFile.value)
      else PromptFile(d, host.listing(d), answers.file, host.join)
  }

  /** The valid rows of the chosen workbook, or the error that ends the run. */
  function ValidRowsOf(env: Eastern.Oracles, host: Host, answers: Answers): Result<seq<ParsedRow>, string> {
    hide ManualUpload.ParseTransactionsSpec, ChosenFile;
    match ChosenFile(host, answers)
    case Err(message) => Err(message)
    case Ok(path) =>
      match host.workbook(path)
      case Err(message) => Err(message)
      case Ok(sheets) =>
        match ManualUpload.ParseTransactionsSpec(env, sheets)
        case Err(message) => Err(message)
        case Ok(parsed) => Ok(parsed.valid)
  }

  /** `MANUAL_WEBHOOK_URL || DefaultTarget`. */
  function Target(host: Host): string {
    OrText(host.webhookUrl, DefaultTarget)
  }

  /** The operator (or `MANUAL_UPLOAD_SEND=1`) agreed to send. */
  predicate SendAgreed(host: Host, answers: Answers) {
    host.uploadSend == Some("1") || IsYes(answers.send)
  }

  /** `main`: an error anywhere ends the run with its message (and exit code 1). */
  function Upload(env: Eastern.Oracles, host: Host, answers: Answers): Outcome {
    hide ValidRowsOf, BuildEvents, ProbeTarget, IsYes;
    match ValidRowsOf(env, host, answers)
    case Err(message) => Failed(message)
    case Ok(rows) =>
      var events := BuildEvents(rows, host.uuid, env.now);
      if events == [] then NothingToSend
      else if !SendAgreed(host, answers) then Declined
      else
        var target := Target(host);
        var probe := ProbeTarget(host.hasFetch, host.origin(target), host.health);
        if !probe.ok && !IsYes(answers.proceed) then Abandoned(probe)
        else if !host.hasFetch then Failed(FetchMissing)
        else Sent(events, target, probe, ReportOf(host.reply, |events|))
  }

  /**
   * Nothing is sent unless there is something to send, the operator agreed
   * (or `MANUAL_UPLOAD_SEND` is `1`), and the health check passed or the
   * operator chose to continue; then every event is accounted as a success
   * or a failure, and the POSTs go out event by event, each at most three
   * times.
   */
  lemma SendNeedsConsent(env: Eastern.Oracles, host: Host, answers: Answers)
    ensures var o := Upload(env, host, answers);
            o.Sent? ==>
              SendAgreed(host, answers)
              && (o.probe.ok || IsYes(answers.proceed))
              && host.hasFetch
              && o.events != []
              && o.report.success + o.report.failed == |o.events|
              && WithinPayloads(o.report.posts, |o.events|)
              && InPayloadOrder(o.report.posts)
              && |o.report.posts| <= 3 * |o.events|
  {
    hide ValidRowsOf, BuildEvents, ProbeTarget, IsYes;
    var o := Upload(env, host, answers);
    if o.Sent? {
      PostsInOrder(host.reply, |o.events|);
      PostsCount(host.reply, |o.events|);
    }
  }

  /** With `MANUAL_UPLOAD_SEND=1` the send prompt is never asked: its answer changes nothing. */
  lemma AutoSendIgnoresAnswer(env: Eastern.Oracles, host: Host, answers: Answers, other: string)
    requires host.uploadSend == Some("1")
    ensures Upload(env, host, answers) == Upload(env, host, answers.(send := other))
  {
    hide BuildEvents, ProbeTarget, IsYes, ReportOf, Target, ManualUpload.ParseTransactionsSpec,
      PromptDirectory, PromptFile;
  }

  /**
   * The events a run sends are those of the file's valid rows, one per row
   * in row order: each keeps its row's transaction id and has the row's
   * checkout time as creation date, and no two share a customer id.
   */
  lemma SentEventsMirrorRows(env: Eastern.Oracles, host: Host, answers: Answers)
    requires ValidRowsOf(env, host, answers).Ok?
    ensures var rows := ValidRowsOf(env, host, answers).value;
            var events := BuildEvents(rows, host.uuid, env.now);
            (Upload(env, host, answers).Sent? ==> Upload(env, host, answers).events == events)
            && (forall i :: 0 <= i < |rows| ==>
                  rows[i].transactionId == Some(events[i].payload.transactionId)
                  && rows[i].checkoutUtc.Some?
                  && events[i].createdDate == Calendar.IsoString(rows[i].checkoutUtc.value))
            && (forall i, j :: 0 <= i < j < |rows| ==> events[i].payload.customerId != events[j].payload.customerId)
  {
    hide BuildEvents, ProbeTarget, IsYes, ChosenFile, ManualUpload.ParseTransactionsSpec, Upload;
    var path := ChosenFile(host, answers).value;
    var sheets := host.workbook(path).value;
    var rows := ValidRowsOf(env, host, answers).value;
    assert rows == ManualUpload.ParseTransactionsSpec(env, sheets).value.valid;
    ManualUpload.ValidRowsDated(env, sheets);
    forall i | 0 <= i < |rows|
      ensures ManualUpload.IsValid(rows[i]) && rows[i].checkoutUtc.Some?
    {
      assert rows[i] in rows;
    }
    EventsOfValidRows(rows, host.uuid, env.now);
    UploadSendsRows(env, host, answers);
  }

  lemma UploadSendsRows(env: Eastern.Oracles, host: Host, answers: Answers)
    requires ValidRowsOf(env, host, answers).Ok?
    ensures Upload(env, host, answers).Sent? ==>
              Upload(env, host, answers).events == BuildEvents(ValidRowsOf(env, host, answers).value, host.uuid, env.now)
  {
    hide BuildEvents, ProbeTarget, IsYes, ValidRowsOf, ReportOf;
  }

  /** `main`, step by step, with the parse and the send loop as methods. */
  method RunUpload(env: Eastern.Oracles, host: Host, answers: Answers) returns (o: Outcome)
    ensures o == Upload(env, host, answers)
  {
    hide BuildEvents, ProbeTarget, IsYes, ChosenFile, ManualUpload.ParseTransactionsSpec, ReportOf;
    var file := ChosenFile(host, answers);
    if file.Err? {
      return Failed(file.error);
    }
    var sheets := host.workbook(file.value);
    if sheets.Err? {
      return Failed(sheets.error);
    }
    var parsed := ManualUpload.ParseTransactions(env, sheets.value);
    if parsed.Err? {
      return Failed(parsed.error);
    }
    var events := BuildEvents(parsed.value.valid, host.uuid, env.now);
    if events == [] {
      return NothingToSend;
    }
    if !SendAgreed(host, answers) {
      return Declined;
    }
    var target := Target(host);
    var probe := ProbeTarget(host.hasFetch, host.origin(target), host.health);
    if !probe.ok && !IsYes(answers.proceed) {
      return Abandoned(probe);
    }
    var sent := SendPayloads(events, host.hasFetch, host.reply);
    match sent
    case Err(message) => o := Failed(message);
    case Ok(report) => o := Sent(events, target, probe, report);
  }
}
