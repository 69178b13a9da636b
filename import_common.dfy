/**
 * What the two spreadsheet importers (`importIsaSheet.ts` and
 * `importCompareSheet.ts`) have in common: the customer and appointment ids
 * they derive, the transaction body they store, the stored row itself, and
 * the loop that looks each event id up and inserts the rows not yet stored.
 */
module SheetImport {
  import opened Wrappers
  import opened Text
  import opened Js
  import Calendar
  import BackfillIds
  import Store
  import VagaroRoute

  /** `toCustomerId`: the slug of the name after `prefix`, or the row number when the slug is empty. */
  function CustomerId(prefix: string, name: string, rowNumber: nat): string {
    var slug := BackfillIds.Slug(name);
    prefix + (if slug != "" then slug else NatToString(rowNumber))
  }

  /**
   * Customer ids tell customers apart: names with the same non-empty slug
   * share an id whatever their rows, names with different non-empty slugs
   * never do, and nameless customers on different rows get different ids.
   */
  lemma CustomerIdIdentifies(prefix: string, a: string, b: string, rowA: nat, rowB: nat)
    ensures BackfillIds.Slug(a) != "" && BackfillIds.Slug(a) == BackfillIds.Slug(b) ==>
              CustomerId(prefix, a, rowA) == CustomerId(prefix, b, rowB)
    ensures BackfillIds.Slug(a) != "" && BackfillIds.Slug(b) != "" && BackfillIds.Slug(a) != BackfillIds.Slug(b) ==>
              CustomerId(prefix, a, rowA) != CustomerId(prefix, b, rowB)
    ensures BackfillIds.Slug(a) == "" && BackfillIds.Slug(b) == "" && rowA != rowB ==>
              CustomerId(prefix, a, rowA) != CustomerId(prefix, b, rowB)
  {
    var sa, sb := BackfillIds.Slug(a), BackfillIds.Slug(b);
    if sa != "" && sb != "" && sa != sb {
      assert (prefix + sa)[|prefix|..] == sa && (prefix + sb)[|prefix|..] == sb;
    }
    if sa == "" && sb == "" && rowA != rowB {
      NatToStringValue(rowA);
      NatToStringValue(rowB);
      var x, y := NatToString(rowA), NatToString(rowB);
      assert (prefix + x)[|prefix|..] == x && (prefix + y)[|prefix|..] == y;
    }
  }

  /** `toAppointmentId` once the value is read as text: its runs of other characters dashed, or the row number. */
  function AppointmentIdOfText(prefix: string, raw: string, rowNumber: nat): string {
    if raw == "" then prefix + NatToString(rowNumber)
    else
      var slug := BackfillIds.DashRuns(Lower(Trim(raw)));
      prefix + (if slug != "" then slug else NatToString(rowNumber))
  }

  /**
   * Appointment ids ignore case and surrounding white space, a blank value
   * falls back to the row number, and a value with text in it never does.
   */
  lemma AppointmentIdOfTextMeaning(prefix: string, a: string, b: string, rowA: nat, rowB: nat)
    ensures Trim(a) != "" && Lower(Trim(a)) == Lower(Trim(b)) ==>
              AppointmentIdOfText(prefix, a, rowA) == AppointmentIdOfText(prefix, b, rowB)
    ensures Trim(a) == "" ==> AppointmentIdOfText(prefix, a, rowA) == prefix + NatToString(rowA)
    ensures Trim(a) != "" ==> AppointmentIdOfText(prefix, a, rowA) == prefix + BackfillIds.DashRuns(Lower(Trim(a)))
                              && BackfillIds.DashRuns(Lower(Trim(a))) != ""
  {
    if a == "" {
      assert Trim(a) == "";
    }
    if b == "" {
      assert Trim(b) == "";
    }
  }

  /** The constants that tell the two importers' rows apart. */
  datatype Origin = Origin(
    businessId: string,
    businessAlias: string,
    businessGroupId: string,
    serviceCategory: string,
    uploadFile: string,
    sourceIp: string,
    userAgent: string)

  /** The values of the stored transaction body that depend on the row. */
  datatype Body = Body(
    transactionDate: string,
    transactionId: string,
    userPaymentId: string,
    userPaymentsMstId: string,
    brandName: Option<string>,
    itemSold: string,
    purchaseType: string,
    quantity: real,
    ccAmount: real,
    cashAmount: real,
    checkAmount: real,
    packageRedemption: real,
    bankAccountAmount: real,
    vagaroPayLaterAmount: real,
    otherAmount: real,
    gcRedemption: real,
    tax: string,
    tip: real,
    discount: real,
    memberShipAmount: real,
    ccType: string,
    customerId: string,
    serviceProviderId: string,
    serviceProviderName: string,
    amountDue: real,
    appointmentId: string,
    createdBy: string,
    source: string,
    changeDue: real,
    customerName: string,
    appointmentDate: Option<string>,
    iouAmount: real)

  function Amount(x: real): Value {
    Num(Finite(x))
  }

  /** A text, or `null`. */
  function TextOrNull(t: Option<string>): Value {
    if t.Some? then Str(t.value) else Null
  }

  /** `Math.max(cash - changeDue, 0)`: the cash kept. */
  function NetCash(cash: real, changeDue: real): (r: real)
    ensures r >= 0.0 && r >= cash - changeDue
    ensures r == cash - changeDue || r == 0.0
  {
    if cash - changeDue > 0.0 then cash - changeDue else 0.0
  }

  /** `x || 1`: a zero quantity counts as one. */
  function QuantityOr1(x: real): (r: real)
    ensures r != 0.0
    ensures x != 0.0 ==> r == x
  {
    if x != 0.0 then x else 1.0
  }

  /** The transaction body as stored, with the importer's constants. */
  function BodyValue(origin: Origin, b: Body): Value {
    Obj(map[
      "transactionDate" := Str(b.transactionDate),
      "businessId" := Str(origin.businessId),
      "businessAlias" := Str(origin.businessAlias),
      "transactionId" := Str(b.transactionId),
      "userPaymentId" := Str(b.userPaymentId),
      "userPaymentsMstId" := Str(b.userPaymentsMstId),
      "brandName" := TextOrNull(b.brandName),
      "itemSold" := Str(b.itemSold),
      "purchaseType" := Str(b.purchaseType),
      "quantity" := Amount(b.quantity),
      "ccAmount" := Amount(b.ccAmount),
      "checkAmount" := Amount(b.checkAmount),
      "achAmount" := Amount(0.0),
      "packageRedemption" := Amount(b.packageRedemption),
      "bankAccountAmount" := Amount(b.bankAccountAmount),
      "vagaroPayLaterAmount" := Amount(b.vagaroPayLaterAmount),
      "otherAmount" := Amount(b.otherAmount),
      "points" := Amount(0.0),
      "gcRedemption" := Amount(b.gcRedemption),
      "tax" := Str(b.tax),
      "tip" := Amount(b.tip),
      "discount" := Amount(b.discount),
      "memberShipAmount" := Amount(b.memberShipAmount),
      "productDiscount" := Amount(0.0),
      "ccType" := Str(b.ccType),
      "ccMode" := Str("Manual"),
      "customerId" := Str(b.customerId),
      "serviceProviderId" := Str(b.serviceProviderId),
      "serviceProviderName" := Str(b.serviceProviderName),
      "businessGroupId" := Str(origin.businessGroupId),
      "appointmentId" := Str(b.appointmentId),
      "serviceCategory" := Str(origin.serviceCategory),
      "createdBy" := Str(b.createdBy),
      "source" := Str(b.source),
      "changeDue" := Amount(b.changeDue),
      "customerName" := Str(b.customerName),
      "appointmentDate" := TextOrNull(b.appointmentDate),
      "iouAmount" := Amount(b.iouAmount),
      "amountDue" := Amount(b.amountDue),
      "cashAmount" := Amount(b.cashAmount)])
  }

  /** The stored payload: `{ id, type, action, payload, createdDate }`. */
  function EventValue(origin: Origin, eventId: string, createdDate: string, b: Body): Value {
    Obj(map[
      "type" := Str("transaction"),
      "action" := Str("created"),
      "createdDate" := Str(createdDate),
      "payload" := BodyValue(origin, b),
      "id" := Str(eventId)])
  }

  /** The row `webhookEvent.create` is given for one imported transaction, received at `receivedAt`. */
  function StoredEventOf(origin: Origin, eventId: string, checkoutDate: int, receivedAt: int, b: Body): Store.StoredEvent {
    Store.StoredEvent(
      eventId := eventId,
      entityType := "transaction",
      action := "created",
      businessIds := [origin.businessId],
      createdDate := Some(checkoutDate),
      receivedAt := Some(receivedAt),
      payload := EventValue(origin, eventId, Calendar.IsoString(checkoutDate), b),
      headers := Obj(map["x-manual-upload" := Str(origin.uploadFile)]),
      sourceIp := origin.sourceIp,
      userAgent := origin.userAgent,
      cashCollected := None,
      day := Calendar.UtcMidnight(checkoutDate))
  }

  lemma BodyCashFields(origin: Origin, b: Body)
    ensures Get(BodyValue(origin, b), "cashAmount") == Num(Finite(b.cashAmount))
    ensures Get(BodyValue(origin, b), "amountDue") == Num(Finite(b.amountDue))
  {
  }

  lemma EventValueFields(origin: Origin, eventId: string, createdDate: string, b: Body)
    ensures Get(EventValue(origin, eventId, createdDate, b), "payload") == BodyValue(origin, b)
    ensures Get(EventValue(origin, eventId, createdDate, b), "cashAmount") == Undefined
    ensures Get(EventValue(origin, eventId, createdDate, b), "amountDue") == Undefined
  {
  }

  /**
   * The stored row is written without a cash amount; the cash the backfill
   * route later derives from its payload is the body's cash less its
   * `amountDue`.
   */
  lemma StoredCash(origin: Origin, eventId: string, checkoutDate: int, receivedAt: int, b: Body)
    ensures StoredEventOf(origin, eventId, checkoutDate, receivedAt, b).cashCollected.None?
    ensures VagaroRoute.DeriveCashCollected(StoredEventOf(origin, eventId, checkoutDate, receivedAt, b).payload)
            == b.cashAmount - b.amountDue
  {
    hide Calendar.IsoString, BodyValue, EventValue;
    var created := Calendar.IsoString(checkoutDate);
    var v := EventValue(origin, eventId, created, b);
    EventValueFields(origin, eventId, created, b);
    BodyCashFields(origin, b);
    VagaroRoute.CashFromNested(v, BodyValue(origin, b), b.cashAmount, b.amountDue);
  }

  /**
   * The stored row is a created transaction under the importer's business
   * id, dated at checkout, with its day the UTC midnight of the checkout
   * for any checkout in a year outside 0..99.
   */
  lemma StoredRowShape(origin: Origin, eventId: string, checkoutDate: int, receivedAt: int, b: Body)
    requires -Calendar.MaxTime <= checkoutDate <= Calendar.MaxTime
    requires !(0 <= Calendar.UtcDate(checkoutDate).year <= 99)
    ensures var e := StoredEventOf(origin, eventId, checkoutDate, receivedAt, b);
            e.eventId == eventId && e.entityType == "transaction" && e.action == "created"
            && e.businessIds == [origin.businessId] && e.createdDate == Some(checkoutDate)
            && e.day == Some(checkoutDate - Calendar.TimeInDay(checkoutDate))
            && e.day.value <= checkoutDate < e.day.value + Calendar.MsPerDay
  {
    hide Calendar.IsoString, EventValue, Calendar.UtcMidnight, Calendar.TimeInDay;
    Calendar.UtcMidnightTruncates(checkoutDate);
  }

  /**
   * The import loop: for each row in turn, `findUnique` on its event id,
   * skip it when a row is found, insert it otherwise.  A database that does
   * not answer fails the first lookup and nothing is written.
   */
  method InsertMissing(store: Store.EventStore, batch: seq<Store.StoredEvent>) returns (r: Result<nat, string>)
    requires store.Valid()
    modifies store
    ensures store.Valid() && store.online == old(store.online)
    ensures old(store.online) ==> store.events == old(store.events) + Store.NewRows(old(store.events), batch)
                                  && r == Ok(|Store.NewRows(old(store.events), batch)|)
    ensures !old(store.online) ==> store.events == old(store.events)
                                   && r == if batch == [] then Ok(0) else Err(Store.DatabaseError)
  {
    hide Store.NewRows;
    ghost var start := store.events;
    ghost var added: seq<Store.StoredEvent> := [];
    var inserted: nat := 0;
    var i := 0;
    while i < |batch|
      invariant 0 <= i <= |batch|
      invariant store.Valid() && store.online == old(store.online)
      invariant !store.online ==> i == 0 && added == []
      invariant store.events == start + added
      invariant Store.NewRows(start, batch) == added + Store.NewRows(store.events, batch[i..])
      invariant inserted == |added|
    {
      var e := batch[i];
      InsertStep(start, batch, added, store.events, i);
      var existing := store.FindUnique(e.eventId);
      if existing.Err? {
        return Err(existing.error);
      }
      if existing.value.Some? {
        i := i + 1;
      } else {
        var outcome := store.Create(e);
        added := added + [e];
        inserted := inserted + 1;
        i := i + 1;
      }
    }
    r := Ok(inserted);
  }

  /** One step of the loop: the row at `i` is added exactly when its id is not stored yet. */
  lemma NewRowsAt(events: seq<Store.StoredEvent>, batch: seq<Store.StoredEvent>, i: nat)
    requires i < |batch|
    ensures Store.NewRows(events, batch[i..]) ==
              if Store.HasEventId(events, batch[i].eventId) then Store.NewRows(events, batch[i + 1..])
              else [batch[i]] + Store.NewRows(events + [batch[i]], batch[i + 1..])
  {
    assert batch[i..][0] == batch[i] && batch[i..][1..] == batch[i + 1..];
  }

  /** The loop's invariant carried past the row at `i`, whether it is skipped or added. */
  lemma InsertStep(start: seq<Store.StoredEvent>, batch: seq<Store.StoredEvent>, added: seq<Store.StoredEvent>,
                   events: seq<Store.StoredEvent>, i: nat)
    requires i < |batch|
    requires Store.NewRows(start, batch) == added + Store.NewRows(events, batch[i..])
    ensures Store.HasEventId(events, batch[i].eventId) ==>
              Store.NewRows(start, batch) == added + Store.NewRows(events, batch[i + 1..])
    ensures !Store.HasEventId(events, batch[i].eventId) ==>
              Store.NewRows(start, batch) == (added + [batch[i]]) + Store.NewRows(events + [batch[i]], batch[i + 1..])
  {
    hide Store.NewRows;
    NewRowsAt(events, batch, i);
    if !Store.HasEventId(events, batch[i].eventId) {
      var rest := Store.NewRows(events + [batch[i]], batch[i + 1..]);
      assert added + ([batch[i]] + rest) == (added + [batch[i]]) + rest;
    }
  }

  /** Running the import again on the table it produced inserts nothing. */
  lemma RerunInsertsNothing(events: seq<Store.StoredEvent>, batch: seq<Store.StoredEvent>)
    requires Store.UniqueEventIds(events)
    ensures Store.NewRows(events + Store.NewRows(events, batch), batch) == []
  {
    Store.NewRowsInserted(events, batch);
    Store.NewRowsNone(events + Store.NewRows(events, batch), batch);
  }
}
