/**
 * The match keys of a spreadsheet row, the event `buildCandidate` makes of
 * a row that is missing, and what the indexing of a later run reads back
 * from that event once it is stored.  The event keeps the row's change due
 * under `amountDue` and names neither customer nor provider, so a later run
 * finds it through its fallback key only when the change due and the
 * amount due round to the same cents, and through its ultra key when the
 * change due or the tip rounds to zero.
 */
module BackfillCandidate {
  import opened Wrappers
  import opened Text
  import opened Js
  import Calendar
  import Eastern
  import Sheet
  import Store
  import opened BackfillKeys
  import BackfillIds
  import BackfillRange
  import opened BackfillRead
  import opened BackfillExisting

  /** `etDay(row.checkoutDate)`: the day a row is reconciled under. */
  function RowDay(env: Eastern.Oracles, row: XlsxRow): (r: string)
    ensures '|' !in r
  {
    Eastern.EtDay(env, row.checkoutDate)
  }

  /** `candidateMatchKey`. */
  function StrictKeyOf(env: Eastern.Oracles, row: XlsxRow): string {
    MatchKey(env, RowDay(env, row), row.checkoutDate, row.itemSold, Finite(row.amountDue), Finite(row.tip),
             row.customerName, row.providerName)
  }

  /** `candidateMatchKeyFallback`. */
  function FallbackKeyOf(env: Eastern.Oracles, row: XlsxRow): string {
    FallbackKey(env, RowDay(env, row), row.checkoutDate, row.itemSold, Finite(row.amountDue), Finite(row.tip))
  }

  /** `candidateMatchKeyUltraFallback`. */
  function UltraKeyOf(env: Eastern.Oracles, row: XlsxRow): string {
    UltraKey(env, RowDay(env, row), row.checkoutDate, row.itemSold)
  }

  /** A row is missing from a day's index when none of its three keys is in it. */
  predicate IsMissing(env: Eastern.Oracles, keys: set<string>, row: XlsxRow) {
    StrictKeyOf(env, row) !in keys && FallbackKeyOf(env, row) !in keys && UltraKeyOf(env, row) !in keys
  }

  /** A row's three keys nest and are pairwise different. */
  lemma RowKeyTiers(env: Eastern.Oracles, row: XlsxRow)
    ensures StrictKeyOf(env, row) == FallbackKeyOf(env, row) + "|" + NormalizePersonName(row.customerName)
                                     + "|" + NormalizePersonName(row.providerName)
    ensures FallbackKeyOf(env, row) == UltraKeyOf(env, row) + "|" + MoneyKey(Finite(row.amountDue))
                                       + "|" + MoneyKey(Finite(row.tip))
    ensures StrictKeyOf(env, row) != FallbackKeyOf(env, row) && StrictKeyOf(env, row) != UltraKeyOf(env, row)
            && FallbackKeyOf(env, row) != UltraKeyOf(env, row)
  {
    var day := RowDay(env, row);
    KeyTiers(env, day, row.checkoutDate, row.itemSold, Finite(row.amountDue), Finite(row.tip), row.customerName, row.providerName);
    TiersDistinct(env, day, row.checkoutDate, row.itemSold, Finite(row.amountDue), Finite(row.tip), row.customerName, row.providerName,
                  day, row.checkoutDate, row.itemSold, Finite(row.amountDue), Finite(row.tip));
  }

  /**
   * The strict key determines the row's day and its other two keys, so
   * whether a row is missing from a day's index depends on its strict key
   * alone.
   */
  lemma StrictKeyDetermines(env: Eastern.Oracles, r1: XlsxRow, r2: XlsxRow)
    requires StrictKeyOf(env, r1) == StrictKeyOf(env, r2)
    ensures RowDay(env, r1) == RowDay(env, r2)
    ensures FallbackKeyOf(env, r1) == FallbackKeyOf(env, r2) && UltraKeyOf(env, r1) == UltraKeyOf(env, r2)
    ensures forall keys :: IsMissing(env, keys, r1) <==> IsMissing(env, keys, r2)
  {
    hide MatchKey, MoneyKey, Eastern.EtDay;
    var d1, d2 := RowDay(env, r1), RowDay(env, r2);
    MatchKeyInjective(env, d1, r1.checkoutDate, r1.itemSold, Finite(r1.amountDue), Finite(r1.tip), r1.customerName, r1.providerName,
                      d2, r2.checkoutDate, r2.itemSold, Finite(r2.amountDue), Finite(r2.tip), r2.customerName, r2.providerName);
    assert UltraParts(env, d1, r1.checkoutDate, r1.itemSold)[0] == d1;
  }

  /** `MissingCandidate`: the event id, the checkout, the body of the transaction and the row it came from. */
  datatype Candidate = Candidate(eventId: string, checkoutDate: int, payloadBody: Value, sourceRow: XlsxRow)

  const ManualPrefix := "manual-dec2025-"
  const BusinessId := "manual-dec2025"

  /** The file name without its `.xlsx` extension, as the ids use it. */
  function SuffixOf(row: XlsxRow): string {
    StripXlsx(row.file)
  }

  /** `manual-dec2025-{file}-{transactionId}-{row}`. */
  function EventIdOf(row: XlsxRow): string {
    ManualPrefix + SuffixOf(row) + "-" + row.transactionId + "-" + NatToString(row.rowNumber)
  }

  /**
   * The event id is a function of the row's file, transaction and row
   * number; it carries the prefix the purge deletes by, and rows of one
   * file and transaction on different sheet rows get different ids.
   */
  lemma EventIdShape(row: XlsxRow, other: XlsxRow)
    ensures StartsWith(EventIdOf(row), ManualPrefix)
    ensures row.file == other.file && row.transactionId == other.transactionId && row.rowNumber == other.rowNumber
            ==> EventIdOf(row) == EventIdOf(other)
    ensures row.file == other.file && row.transactionId == other.transactionId && row.rowNumber != other.rowNumber
            ==> EventIdOf(row) != EventIdOf(other)
  {
    var p := ManualPrefix + SuffixOf(row) + "-" + row.transactionId + "-";
    assert EventIdOf(row) == p + NatToString(row.rowNumber);
    assert EventIdOf(row)[..|ManualPrefix|] == ManualPrefix;
    if row.file == other.file && row.transactionId == other.transactionId && row.rowNumber != other.rowNumber {
      assert EventIdOf(other) == p + NatToString(other.rowNumber);
      NatToStringValue(row.rowNumber);
      NatToStringValue(other.rowNumber);
      assert (p + NatToString(row.rowNumber))[|p|..] == NatToString(row.rowNumber);
      assert (p + NatToString(other.rowNumber))[|p|..] == NatToString(other.rowNumber);
    }
  }

  function Money(x: real): Value {
    Num(Finite(x))
  }

  /** The text fields of the body that the ids and the checkout determine. */
  datatype BodyTexts = BodyTexts(
    ccType: string,
    customerId: string,
    appointmentId: string,
    userPaymentId: string,
    userPaymentsMstId: string,
    transactionDate: string)

  function TextsOf(row: XlsxRow): BodyTexts {
    var suffix := SuffixOf(row);
    BodyTexts(
      ccType := OrElse(row.chargeMethod, "Manual"),
      customerId := BackfillIds.CustomerId(row.customerName, row.rowNumber, suffix),
      appointmentId := BackfillIds.AppointmentId(Sheet.Date(row.appointmentDate.GetOr(row.checkoutDate)), row.rowNumber, suffix),
      userPaymentId := "dec2025-" + suffix + "-payment-" + NatToString(row.rowNumber),
      userPaymentsMstId := "dec2025-" + suffix + "-mst-" + NatToString(row.rowNumber),
      transactionDate := Calendar.IsoString(row.checkoutDate))
  }

  /** The body of the transaction: the amounts under the names the cash-out report reads. */
  function BodyWith(row: XlsxRow, texts: BodyTexts): Value {
    var soldTotal := row.cashTendered + row.ccAmount;
    // Keys a later run reads come last.
    Obj(map[
      "tax" := Str("0"),
      "ccMode" := Str("N"),
      "ccType" := Str(texts.ccType),
      "points" := Money(0.0),
      "ccAmount" := Money(row.ccAmount),
      "cardAmount" := Money(row.ccAmount),
      "discount" := Money(0.0),
      "quantity" := Money(1.0),
      "achAmount" := Money(0.0),
      "brandName" := Null,
      "createdBy" := Str(row.checkedOutBy),
      "businessId" := Str(BusinessId),
      "customerId" := Str(texts.customerId),
      "checkAmount" := Money(0.0),
      "otherAmount" := Money(0.0),
      "gcRedemption" := Money(row.gcRedemption),
      "purchaseType" := Str("Service"),
      "appointmentId" := Str(texts.appointmentId),
      "businessAlias" := Str(""),
      "userPaymentId" := Str(texts.userPaymentId),
      "businessGroupId" := Str(BusinessId),
      "productDiscount" := Money(0.0),
      "serviceCategory" := Str("ManualDec2025"),
      "memberShipAmount" := Money(0.0),
      "bankAccountAmount" := Money(0.0),
      "packageRedemption" := Money(0.0),
      "serviceProviderId" := Str(row.providerId),
      "userPaymentsMstId" := Str(texts.userPaymentsMstId),
      "vagaroPayLaterAmount" := Money(0.0),
      "tip" := Money(row.tip),
      "itemSold" := Str(row.itemSold),
      "amountDue" := Money(row.changeDue),
      "changeDue" := Money(row.changeDue),
      "cashAmount" := Money(row.cashTendered),
      "amountCash" := Money(row.cashTendered),
      "transactionId" := Str(row.transactionId),
      "tenderAmount" := Money(soldTotal),
      "totalAmount" := Money(soldTotal),
      "transactionDate" := Str(texts.transactionDate)
    ])
  }

  function PayloadBody(row: XlsxRow): Value {
    BodyWith(row, TextsOf(row))
  }

  /** The fields a later run reads: service, date, amount and tip, and no names. */
  lemma BodyWithReadFields(row: XlsxRow, texts: BodyTexts)
    ensures var b := BodyWith(row, texts);
            Get(b, "itemSold") == Str(row.itemSold)
            && Get(b, "transactionDate") == Str(texts.transactionDate)
            && Get(b, "amountDue") == Num(Finite(row.changeDue))
            && Get(b, "tip") == Num(Finite(row.tip))
  {
    hide BodyWith;
    BodyWithService(row, texts);
    BodyWithAmount(row, texts);
  }

  lemma BodyWithService(row: XlsxRow, texts: BodyTexts)
    ensures Get(BodyWith(row, texts), "itemSold") == Str(row.itemSold)
    ensures Get(BodyWith(row, texts), "transactionDate") == Str(texts.transactionDate)
  {
    assert Get(BodyWith(row, texts), "itemSold") == Str(row.itemSold);
  }

  lemma BodyWithAmount(row: XlsxRow, texts: BodyTexts)
    ensures Get(BodyWith(row, texts), "amountDue") == Num(Finite(row.changeDue))
    ensures Get(BodyWith(row, texts), "tip") == Num(Finite(row.tip))
  {
    assert Get(BodyWith(row, texts), "amountDue") == Num(Finite(row.changeDue));
  }

  lemma BodyWithoutNames(row: XlsxRow, texts: BodyTexts)
    ensures var b := BodyWith(row, texts);
            Get(b, "customerName") == Undefined && Get(b, "serviceProviderName") == Undefined
  {
    hide BodyWith;
    BodyWithoutCustomer(row, texts);
    BodyWithoutProvider(row, texts);
  }

  lemma BodyWithoutCustomer(row: XlsxRow, texts: BodyTexts)
    ensures Get(BodyWith(row, texts), "customerName") == Undefined
  {
  }

  lemma BodyWithoutProvider(row: XlsxRow, texts: BodyTexts)
    ensures Get(BodyWith(row, texts), "serviceProviderName") == Undefined
  {
  }

  /** The cash-out report's fields: change due, cash tendered and the total sold. */
  lemma BodyWithCashFields(row: XlsxRow, texts: BodyTexts)
    ensures var b := BodyWith(row, texts);
            Get(b, "changeDue") == Num(Finite(row.changeDue))
            && Get(b, "cashAmount") == Num(Finite(row.cashTendered)) && Get(b, "amountCash") == Num(Finite(row.cashTendered))
            && Get(b, "tenderAmount") == Num(Finite(row.cashTendered + row.ccAmount))
            && Get(b, "totalAmount") == Num(Finite(row.cashTendered + row.ccAmount))
            && Get(b, "transactionId") == Str(row.transactionId)
  {
    var b := BodyWith(row, texts);
    assert Get(b, "changeDue") == Num(Finite(row.changeDue));
    assert Get(b, "cashAmount") == Num(Finite(row.cashTendered));
    assert Get(b, "amountCash") == Num(Finite(row.cashTendered));
    assert Get(b, "tenderAmount") == Num(Finite(row.cashTendered + row.ccAmount));
    assert Get(b, "totalAmount") == Num(Finite(row.cashTendered + row.ccAmount));
  }

  /**
   * What the body says: the change due stands under both `amountDue` and
   * `changeDue`, the cash tendered under both cash names, the cash plus the
   * card under both totals, and the body names no customer and no provider.
   */
  lemma PayloadBodyFields(row: XlsxRow)
    ensures var b := PayloadBody(row);
            Get(b, "itemSold") == Str(row.itemSold)
            && Get(b, "transactionDate") == Str(Calendar.IsoString(row.checkoutDate))
            && Get(b, "amountDue") == Num(Finite(row.changeDue)) && Get(b, "changeDue") == Num(Finite(row.changeDue))
            && Get(b, "tip") == Num(Finite(row.tip))
            && Get(b, "cashAmount") == Num(Finite(row.cashTendered)) && Get(b, "amountCash") == Num(Finite(row.cashTendered))
            && Get(b, "tenderAmount") == Num(Finite(row.cashTendered + row.ccAmount))
            && Get(b, "totalAmount") == Num(Finite(row.cashTendered + row.ccAmount))
            && Get(b, "transactionId") == Str(row.transactionId)
            && Get(b, "customerName") == Undefined && Get(b, "serviceProviderName") == Undefined
  {
    hide BodyWith;
    BodyWithReadFields(row, TextsOf(row));
    BodyWithoutNames(row, TextsOf(row));
    BodyWithCashFields(row, TextsOf(row));
  }

  /** `buildCandidate`. */
  function BuildCandidate(row: XlsxRow): (c: Candidate)
    ensures c.eventId == EventIdOf(row) && c.checkoutDate == row.checkoutDate && c.sourceRow == row
  {
    Candidate(EventIdOf(row), row.checkoutDate, PayloadBody(row), row)
  }

  /** The JSON stored as the event's payload: the transaction wrapped as a webhook delivery. */
  function Wrapper(c: Candidate): Value {
    Obj(map[
      "id" := Str(c.eventId),
      "type" := Str("transaction"),
      "action" := Str("created"),
      "payload" := c.payloadBody,
      "createdDate" := Str(Calendar.IsoString(c.checkoutDate))
    ])
  }

  /**
   * The row `create` is given, or the error `utcRangeForEtDay` throws for
   * the candidate's day; `now` is the instant of the insert.
   */
  function RecordOf(env: Eastern.Oracles, c: Candidate, now: int): (r: Result<Store.StoredEvent, string>)
    ensures r.Ok? <==> BackfillRange.UtcRangeForEtDay(env, Eastern.EtDay(env, c.checkoutDate)).Ok?
    ensures r.Ok? ==> r.value.eventId == c.eventId && r.value.payload == Wrapper(c)
                      && r.value.day == Some(BackfillRange.UtcRangeForEtDay(env, Eastern.EtDay(env, c.checkoutDate)).value.start)
  {
    match BackfillRange.UtcRangeForEtDay(env, Eastern.EtDay(env, c.checkoutDate))
    case Err(e) => Err(e)
    case Ok(range) =>
      Ok(Store.StoredEvent(
        eventId := c.eventId,
        entityType := "transaction",
        action := "created",
        businessIds := [BusinessId],
        createdDate := Some(c.checkoutDate),
        receivedAt := Some(now),
        payload := Wrapper(c),
        headers := Obj(map["x-manual-upload" := Str(c.sourceRow.file)]),
        sourceIp := BusinessId,
        userAgent := "excel-dec2025-backfill",
        cashCollected := None,
        day := Some(range.start)))
  }

  /** The stored record lies in the range of its own day, so the next run's query for that day returns it. */
  lemma RecordInOwnDay(env: Eastern.Oracles, c: Candidate, now: int)
    requires RecordOf(env, c, now).Ok?
    ensures var range := BackfillRange.UtcRangeForEtDay(env, Eastern.EtDay(env, c.checkoutDate)).value;
            Store.InDayRange(RecordOf(env, c, now).value, range.start, range.end)
  {
  }

  /** The query's columns for the wrapped candidate: service, date and amounts from the body, no names. */
  lemma WrappedRow(row: XlsxRow)
    ensures MatchRowOf(Wrapper(BuildCandidate(row)))
            == ExistingMatchRow(
                 itemSold := Some(row.itemSold),
                 transactionDate := Some(Calendar.IsoString(row.checkoutDate)),
                 amountDue := Some(NumberToString(row.changeDue)),
                 tip := Some(NumberToString(row.tip)),
                 customerName := None,
                 providerName := None)
  {
    var c := BuildCandidate(row);
    WrapperFields(c);
    PayloadBodyFields(row);
    hide Wrapper, PayloadBody, BodyWith, TextsOf, MatchRowOf, TextField, NumberToString, Calendar.IsoString;
    var w := Wrapper(c);
    var b := PayloadBody(row);
    assert Get(w, "payload") == b;
  }

  /** The wrapper carries the body under `payload` and names no customer and no provider. */
  lemma WrapperFields(c: Candidate)
    ensures Get(Wrapper(c), "payload") == c.payloadBody
    ensures Get(Wrapper(c), "customerName") == Undefined && Get(Wrapper(c), "serviceProviderName") == Undefined
  {
    hide Calendar.IsoString;
  }

  /** `Number(text.replace(/[^0-9.-]/g, "")) || 0` gives back a finite amount written by `String`. */
  lemma AmountReadsBack(x: real)
    requires IsShortDecimal(x)
    ensures AmountOf(Some(NumberToString(x))) == Finite(x)
  {
    Sheet.NumberToStringNumeral(x);
    ParseNumberToString(x);
  }

  /**
   * The reading a later run makes of the stored record: the row's service
   * and checkout, its change due as the amount, its tip, and no names.
   * Cell amounts are decimals with a bounded number of fraction digits.
   */
  lemma WrappedReading(row: XlsxRow)
    requires ValidRow(row)
    requires IsShortDecimal(row.changeDue) && IsShortDecimal(row.tip)
    ensures ReadingOf(MatchRowOf(Wrapper(BuildCandidate(row))))
            == Reading(row.itemSold, Calendar.IsoString(row.checkoutDate), Finite(row.changeDue), Finite(row.tip), "", "")
  {
    hide Wrapper, BuildCandidate, MatchRowOf, PayloadBody, BodyWith, TextsOf, Calendar.IsoString, NumberToString,
         AmountOf, Trim, IsShortDecimal, Lower, IsSummaryLabel;
    WrappedRow(row);
    Sheet.TrimmedTrim(row.itemSold);
    Sheet.IsoStringEnds(row.checkoutDate);
    Sheet.TrimmedTrim(Calendar.IsoString(row.checkoutDate));
    AmountReadsBack(row.changeDue);
    AmountReadsBack(row.tip);
  }

  /**
   * The keys the stored record contributes to the index of its day, when
   * `new Date` reads its ISO date back as the checkout: the fallback key
   * built from the change due, and the ultra key when the change due or the
   * tip rounds to zero; never a strict key.
   */
  lemma InsertedRecordKeys(env: Eastern.Oracles, row: XlsxRow)
    requires ValidRow(row)
    requires IsShortDecimal(row.changeDue) && IsShortDecimal(row.tip)
    requires env.parseDate(Calendar.IsoString(row.checkoutDate)) == Some(row.checkoutDate)
    ensures RecordKeys(env, RowDay(env, row), ReadingOf(MatchRowOf(Wrapper(BuildCandidate(row)))))
            == {FallbackKey(env, RowDay(env, row), row.checkoutDate, row.itemSold, Finite(row.changeDue), Finite(row.tip))}
               + (if Cents(row.changeDue) == 0 || Cents(row.tip) == 0
                  then {UltraKey(env, RowDay(env, row), row.checkoutDate, row.itemSold)} else {})
  {
    hide MatchKey, FallbackKey, UltraKey, MoneyKey, Eastern.EtDay, ReadingOf, MatchRowOf, Wrapper, BuildCandidate,
         Calendar.IsoString, NumberToString, PayloadBody, BodyWith, TextsOf, RecordKeys, Cents, Trim, Lower, IsShortDecimal;
    var x := ReadingOf(MatchRowOf(Wrapper(BuildCandidate(row))));
    WrappedReading(row);
    Sheet.IsoStringEnds(row.checkoutDate);
    assert InstantOn(env, RowDay(env, row), x) == Some(row.checkoutDate);
    RecordKeysOn(env, RowDay(env, row), x, row.checkoutDate);
    MoneyKeyZero(Finite(row.changeDue));
    MoneyKeyZero(Finite(row.tip));
  }

  /**
   * A later run recognises the row from its own stored record exactly when
   * the change due and the amount due round to the same cents (the
   * fallback key), or the change due or the tip rounds to zero (the ultra
   * key); the strict key never matches, since the record names nobody.
   */
  lemma RecognisedOnRerun(env: Eastern.Oracles, row: XlsxRow)
    requires ValidRow(row)
    requires IsShortDecimal(row.changeDue) && IsShortDecimal(row.tip)
    requires env.parseDate(Calendar.IsoString(row.checkoutDate)) == Some(row.checkoutDate)
    ensures !IsMissing(env, RecordKeys(env, RowDay(env, row), ReadingOf(MatchRowOf(Wrapper(BuildCandidate(row))))), row)
            <==> Cents(row.amountDue) == Cents(row.changeDue) || Cents(row.changeDue) == 0 || Cents(row.tip) == 0
  {
    hide MatchKey, FallbackKey, UltraKey, MoneyKey, Eastern.EtDay, ReadingOf, MatchRowOf, Wrapper, BuildCandidate, RecordKeys,
         Calendar.IsoString, NumberToString, PayloadBody, BodyWith, TextsOf, Cents, Trim, Lower, IsShortDecimal, ValidRow;
    var day := RowDay(env, row);
    var t := row.checkoutDate;
    var keys := RecordKeys(env, day, ReadingOf(MatchRowOf(Wrapper(BuildCandidate(row)))));
    InsertedRecordKeys(env, row);
    var fallback' := FallbackKey(env, day, t, row.itemSold, Finite(row.changeDue), Finite(row.tip));
    var ultra := UltraKey(env, day, t, row.itemSold);
    TiersDistinct(env, day, t, row.itemSold, Finite(row.amountDue), Finite(row.tip), row.customerName, row.providerName,
                  day, t, row.itemSold, Finite(row.changeDue), Finite(row.tip));
    TiersDistinct(env, day, t, row.itemSold, Finite(row.amountDue), Finite(row.tip), row.customerName, row.providerName,
                  day, t, row.itemSold, Finite(row.amountDue), Finite(row.tip));
    TiersDistinct(env, day, t, row.itemSold, Finite(row.changeDue), Finite(row.tip), row.customerName, row.providerName,
                  day, t, row.itemSold, Finite(row.changeDue), Finite(row.tip));
    FallbackKeyAmounts(env, day, t, row.itemSold, Finite(row.amountDue), Finite(row.changeDue), Finite(row.tip));
    MoneyKeyCents(row.amountDue, row.changeDue);
    assert StrictKeyOf(env, row) !in keys;
    assert FallbackKeyOf(env, row) in keys <==> Cents(row.amountDue) == Cents(row.changeDue);
    assert UltraKeyOf(env, row) in keys <==> Cents(row.changeDue) == 0 || Cents(row.tip) == 0;
  }

  /** Every key of an event stored in a day's range is in that day's index. */
  lemma StoredRecordIndexed(env: Eastern.Oracles, events: seq<Store.StoredEvent>, day: string, e: Store.StoredEvent, k: string)
    requires BackfillRange.UtcRangeForEtDay(env, day).Ok?
    requires e in events
    requires Store.InDayRange(e, BackfillRange.UtcRangeForEtDay(env, day).value.start, BackfillRange.UtcRangeForEtDay(env, day).value.end)
    requires k in RecordKeys(env, day, ReadingOf(MatchRowOf(e.payload)))
    ensures ExistingKeysSpec(env, events, true, day).Ok?
    ensures k in ExistingKeysSpec(env, events, true, day).value
  {
    hide RecordKeys, ReadingOf, MatchRowOf;
    var range := BackfillRange.UtcRangeForEtDay(env, day).value;
    var inRange := Store.DayRange(events, range.start, range.end);
    var rows := MatchRows(inRange);
    assert e in inRange;
    var i :| 0 <= i < |inRange| && inRange[i] == e;
    KeysOfRowsUnion(env, day, rows, |rows|, k);
  }
}
