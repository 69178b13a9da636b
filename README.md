# vag-hooks in Dafny

A model of the reconciliation and ingestion core of vag-hooks, a small
service that receives Vagaro webhooks, stores them in a Postgres
`WebhookEvent` table and reports cash and pay figures from them, together
with the operator scripts that backfill, import, resend and compare
transactions from Vagaro's spreadsheet exports.

What is modelled, file by file:

- `backfill_*.dfy` — the December 2025 backfill (`scripts/backfillDec2025.ts`):
  the normalisers and the three tiers of match keys (strict, fallback,
  ultra), the Eastern-day-to-UTC-range arithmetic, the provider lookup,
  the export reader, the index of stored events per Eastern day, the
  candidate event built for a missing row, and `main` with its purge,
  dry-run and apply stages. The apply loop runs as written and keeps a
  per-day key set; the corrected loop is proved idempotent beside it.
- `vagaro_route.dfy`, `backfill_route.dfy`, `cash_metrics.dfy`,
  `paysheet.dfy` — the server routes: webhook ingestion with its derived
  cash and day, the `cash_collected`/`day` repair route, the daily cash
  report, and the pay sheet (week range, pay split, percentage settings).
- `webhook_server.dfy` — the standalone server in `index.js`: signature
  check, body parsing, event dispatch and status decisions.
- `master_backfill*.dfy`, `manual_upload*.dfy`, `send_manual*.dfy`,
  `import_*.dfy` — the other importers and senders: row gating, defaults
  and clamps, id synthesis, check-then-insert and delete-then-insert
  loops, and the retrying and stop-at-first-failure senders.
- `compare_mixup.dfy`, `compare_webhooks.dfy`, `list_sheet_range.dfy` — the
  comparison scripts: greedy tolerance matching, missing/mismatched
  classification, and the range listing.
- `store.dfy` — the `WebhookEvent` table as a class `Store.EventStore`
  whose `events` the writing operations reassign, with an `online` flag for
  a database that does not answer.
- `js.dfy`, `sheet.dfy`, `calendar.dfy`, `eastern.dfy`, `ordering.dfy`,
  `employees.dfy`, `common.dfy` — JavaScript values and number text,
  spreadsheet cells, UTC calendar arithmetic (`Date.UTC`, `toISOString`),
  the Eastern-time and date-parsing oracles, `Array.prototype.sort`, the
  provider directory, and shared text helpers.

Money is a `real` (an exact rational) and rounding to cents is explicit;
instants are integer epoch milliseconds. Files, the clock, `Intl`, `new
Date(string)`, HMAC, `JSON.parse`, `fetch`, prompts and `randomUUID` are
parameters.

## Model

| member | source | states |
|---|---|---|
| VagaroRoute.NumOf | src/routes/vagaro.ts:9-12 | a finite number reads as itself; a value that is neither a number nor a string reads as 0 |
| VagaroRoute.NumOfText | src/routes/vagaro.ts:9-12 | a decimal written as text reads back as the same number |
| VagaroRoute.NumOfNonNumericText | src/routes/vagaro.ts:9-12 | text that does not parse to a finite number counts as 0 |
| VagaroRoute.Pick | src/routes/vagaro.ts:14-16 | a non-empty path never yields `null`: a nullish step gives `undefined` |
| VagaroRoute.PickCompose | src/routes/vagaro.ts:14-16 | following a path in two legs is following it in one |
| VagaroRoute.PickOne | src/routes/vagaro.ts:15 | one step gives the property of a truthy value when it is not nullish, and `undefined` otherwise |
| VagaroRoute.CashPrefersTopLevel | src/routes/vagaro.ts:18-23 | top-level `cashAmount` and `amountDue` give cash minus amount due |
| VagaroRoute.CashFromNested | src/routes/vagaro.ts:18-23 | with both top-level amounts nullish, the nested `payload` amounts are used |
| VagaroRoute.CashNotClamped | src/routes/vagaro.ts:22 | cash 10 with 25 due gives -15: the collected cash is not clamped at 0 |
| VagaroRoute.DeriveDay | src/routes/vagaro.ts:25-29 | the derived day is always a UTC midnight |
| VagaroRoute.DeriveDayStartsDay | src/routes/vagaro.ts:25-29 | outside the years 0..99 the day is the start of the created date's own UTC day |
| VagaroRoute.BusinessIdsOf | src/routes/vagaro.ts:43-45 | the body's `businessIds` through `String` when it is an array, else the nested ones, else [] |
| VagaroRoute.RecordOf | src/routes/vagaro.ts:33-57 | the row created carries the body's id as text, the derived cash and day, the body as payload and the receive time; it exists exactly when its dates are valid |
| VagaroRoute.Post | src/routes/vagaro.ts:31-66 | one `create`: 200 exactly when the row is inserted (the table grows by that row), 500 otherwise with the table unchanged |
| VagaroRoute.RedeliveryRefused | src/routes/vagaro.ts:38-64 | a body whose id is already stored is not inserted again |
| WebhookServer.HexChar | index.js:26 | each nibble is written as one hex digit that reads back as that nibble |
| WebhookServer.HexEncode | index.js:24-26 | the hex digest has two digits per byte |
| WebhookServer.HexDecode | index.js:36-37 | hex decoding yields at most one byte per two characters |
| WebhookServer.HexRoundTrip | index.js:24-37 | decoding the hex digest gives back the digest's bytes |
| WebhookServer.TimingSafeEqual | index.js:35-42 | it throws exactly on a length mismatch and is true exactly on equal buffers |
| WebhookServer.StripPrefix | index.js:29-31 | a leading `sha256=` is removed and anything else is kept whole |
| WebhookServer.VerifySignature | index.js:21-43 | no secret or no signature never verifies; a verified signature decodes to 32 bytes |
| WebhookServer.AcceptsDigest | index.js:21-43 | the body's HMAC digest in hex verifies, bare or with `sha256=` |
| WebhookServer.VerifiesIffDigest | index.js:21-43 | a signature verifies exactly when a secret and a signature are given and it decodes to the body's digest |
| WebhookServer.PrefixIrrelevant | index.js:29-31 | adding `sha256=` to a bare signature does not change the verdict |
| WebhookServer.ShortSignatureRejected | index.js:34-42 | fewer than 64 hex digits, or a first character that is not hex, never verifies |
| WebhookServer.ConcatAppend | index.js:51 | concatenating chunks distributes over appending them |
| WebhookServer.ParseBody | index.js:50-57 | the raw text is the decoded concatenation; the error "Invalid JSON" with `null` data appears exactly when parsing fails, else the parsed data |
| WebhookServer.SplitChunk | index.js:125-143 | splitting one chunk in two anywhere does not change what is parsed |
| WebhookServer.HandleWebhookEvent | index.js:64-112 | it throws exactly on a nullish event; a handled type is "processed" and every other type "ignored", echoing the type |
| WebhookServer.TotalSizeAppend | index.js:129 | the running size grows by each chunk's length |
| WebhookServer.TotalSizePrefix | index.js:128-140 | the size of a prefix of the chunks never exceeds the whole |
| WebhookServer.Serve | index.js:117-179 | the request callback answers exactly as the response function of the request |
| WebhookServer.NotFoundOffRoute | index.js:119-123 | 404 exactly for a request that is not a POST to /webhook |
| WebhookServer.TooLargeIff | index.js:128-137 | on the route, 413 exactly when the chunks' total size exceeds the limit |
| WebhookServer.UnsignedWithoutSecret | index.js:152-159 | without a configured secret no request is refused with 401 |
| WebhookServer.SignedEventProcessed | index.js:142-166 | a POST to /webhook within the limit, signed with the body's digest and carrying a non-null JSON body, gets 200 |
| CashMetrics.OrZero | src/routes/metrics.ts:47 | `(x \|\| 0)` keeps a finite non-zero sum and turns NaN into 0 |
| CashMetrics.RoundCents | src/routes/metrics.ts:52 | rounding to cents moves a finite total by at most half a cent |
| CashMetrics.ToFinite | src/routes/metrics.ts:72-76 | a value is read exactly when it is not nullish and `Number` makes it finite, and then as that number |
| CashMetrics.ParseMonth | src/routes/metrics.ts:14-17 | a month is accepted exactly when its year part is a truthy number and its month part lies in 1..12 |
| CashMetrics.MonthAccepted | src/routes/metrics.ts:12-17 | every `YYYY-MM` with a positive year and a month 1..12 is accepted as that year and month |
| CashMetrics.NextMonthStart | src/routes/metrics.ts:19-20 | the exclusive end `Date.UTC(year, mon, 1)` is the start plus the month's length in days |
| CashMetrics.MonthSpan | src/routes/metrics.ts:19-20 | the month's range runs from its first UTC midnight to the first of the next month |
| CashMetrics.CurrentMonth | src/routes/metrics.ts:61-66 | the default month is written as `YYYY-MM` text |
| CashMetrics.CurrentMonthContainsNow | src/routes/metrics.ts:12-66 | the default month parses back as the current UTC year and month, and its range contains now |
| CashMetrics.EventValue | src/routes/metrics.ts:33-43 | a numeric `cash_collected` in the payload wins; otherwise the computed value is finite and never negative |
| CashMetrics.ValueIgnoresStoredColumns | src/routes/metrics.ts:33-42 | the value is read from the payload alone: the stored cash and day columns do not change it |
| CashMetrics.ValueOfAmounts | src/routes/metrics.ts:39-41 | without `cash_collected`, the value is `max(0, cashAmount - amountDue)` |
| CashMetrics.IsoDateUtc | src/routes/metrics.ts:68-70 | the day key is written as `YYYY-MM-DD` text |
| CashMetrics.AddEvent | src/routes/metrics.ts:43-47 | a valueless event changes nothing; otherwise only its UTC day's total changes, by its value, and the day appears if new |
| CashMetrics.DailyTotals | src/routes/metrics.ts:30-48 | the loop computes the totals of all events in order |
| CashMetrics.TotalsDays | src/routes/metrics.ts:30-48 | a day has a total exactly when some event with a value falls on it |
| CashMetrics.TotalsSum | src/routes/metrics.ts:30-48 | with finite values, each day's total is the sum of that day's event values |
| CashMetrics.ZeroSum | src/routes/metrics.ts:30-48 | a day without a total has no value to sum |
| CashMetrics.Results | src/routes/metrics.ts:50-53 | one result per day with a total |
| CashMetrics.ResultsMeaning | src/routes/metrics.ts:50-53 | the results are strictly ascending by day, list exactly the days with a total, and give each its total rounded to cents |
| CashMetrics.Rows | src/routes/metrics.ts:50-53 | each listed day carries its total rounded to cents, in the given order |
| CashMetrics.SortedDays | src/routes/metrics.ts:50 | sorting the keys keeps exactly the days that have a total |
| CashMetrics.CashDailySpec | src/routes/metrics.ts:10-59 | the reply is 400 exactly when the month (the query's, else the current one) does not parse |
| CashMetrics.CashDaily | src/routes/metrics.ts:10-59 | the handler's reply is the specification's on the table it reads |
| BackfillRoute.CashAgreesWithIngest | src/routes/backfill.ts:26-30 | with finite top-level amounts the backfilled cash is cash minus amount due, as the ingest route computes it |
| BackfillRoute.CashDisagreesOnBooleans | src/routes/backfill.ts:26-30 | a boolean `cashAmount` counts as 1 here but as 0 at ingest (`src/routes/vagaro.ts:9-12`) |
| BackfillRoute.FirstFalse | src/routes/backfill.ts:22-40 | the loop stops at the first row that cannot be updated; every row before it is updated |
| BackfillRoute.Fillable | src/routes/backfill.ts:32-33 | a row can be updated exactly when its source date gives a valid day |
| BackfillRoute.PatchedUpTo | src/routes/backfill.ts:22-40 | after k updates exactly the first k selected rows carry the computed cash and day, and every other row is as it was |
| BackfillRoute.PatchedUntouched | src/routes/backfill.ts:22-40 | a selected row not yet reached is still as it was |
| BackfillRoute.PatchStep | src/routes/backfill.ts:35-39 | one more update changes exactly the next selected row |
| BackfillRoute.Backfill | src/routes/backfill.ts:8-47 | the handler's reply and the new table are the specification's |
| BackfillRoute.FillRows | src/routes/backfill.ts:20-40 | the loop updates the selected rows in order up to the first that throws, and counts them |
| BackfillRoute.ForbiddenIff | src/routes/backfill.ts:10-13 | 403 exactly when `DASH_TOKEN` is unset or differs from the header, and then nothing is written |
| BackfillRoute.CompletedRunFillsAll | src/routes/backfill.ts:15-42 | a 200 run leaves every row with a cash value and reports the number of rows that had none |
| BackfillRoute.FilledRowsUntouched | src/routes/backfill.ts:16 | a row that already has a cash value is never changed |
| BackfillRoute.SecondRunUpdatesNothing | src/routes/backfill.ts:15-42 | a second run after a complete one updates 0 rows and changes nothing |
| BackfillRoute.ValidDatesComplete | src/routes/backfill.ts:32-45 | when every selected row's source date is a valid time outside the years 0..99, the run does not fail with 500 |
| Paysheet.RoundCurrency | src/routes/paysheet.ts:467-469 | the rounded amount lies within half a cent (plus `Number.EPSILON`) of the value |
| Paysheet.RoundWholeCents | src/routes/paysheet.ts:467-469 | an amount in whole cents is left unchanged |
| Paysheet.RoundIdempotent | src/routes/paysheet.ts:467-469 | rounding a rounded amount changes nothing |
| Paysheet.RoundNonNegative | src/routes/paysheet.ts:467-469 | a non-negative amount rounds to a non-negative one |
| Paysheet.RoundHundredths | src/routes/paysheet.ts:489 | rounding to hundredths moves a value by at most half a hundredth |
| Paysheet.ParsePercentage | src/routes/paysheet.ts:475-490 | nullish or "" gives no value; a number outside 0..100 or not finite throws; an accepted value lies in 0..100 |
| Paysheet.PercentageNearInput | src/routes/paysheet.ts:480-489 | an accepted percentage is the input rounded to hundredths |
| Paysheet.CleanAmount | src/routes/paysheet.ts:505 | cleaning removes every `$`, `,` and white-space character and nothing else is added |
| Paysheet.ParseCurrency | src/routes/paysheet.ts:492-520 | a finite number is rounded to cents and a non-finite one refused; text yields only non-negative amounts; any other type throws |
| Paysheet.NegativeTextRefused | src/routes/paysheet.ts:513-515 | text reading as a negative number is refused with "Amount must be zero or positive" |
| Paysheet.NoiseIsNoValue | src/routes/paysheet.ts:505-508 | text made only of `$`, `,` and spaces gives no value |
| Paysheet.CurrencyTextRoundTrip | src/routes/paysheet.ts:504-516 | a dollar amount written as `$` and whole cents reads back as that amount |
| Paysheet.ParseDate | src/routes/paysheet.ts:442-453 | a date is read exactly when the trimmed text has the shape `dddd-dd-dd`, and it is a UTC midnight |
| Paysheet.FormatDate | src/routes/paysheet.ts:463-465 | a date in the years 1000..9999 is written in the shape `parseDate` accepts |
| Paysheet.FormatParseRoundTrip | src/routes/paysheet.ts:442-465 | parsing a formatted date gives back the start of its UTC day |
| Paysheet.ParseDateOf | src/routes/paysheet.ts:445-451 | a well-formed date text reads as `Date.UTC` of its year, month and day |
| Paysheet.AddDays | src/routes/paysheet.ts:437-438 | adding n days adds n times a day's milliseconds |
| Paysheet.StartOfWeek | src/routes/paysheet.ts:455-461 | the week starts at a Sunday midnight (UTC) |
| Paysheet.WeekStartIsSunday | src/routes/paysheet.ts:455-461 | going back the weekday's number of days from a midnight lands on a Sunday midnight |
| Paysheet.StartOfWeekOnOrBefore | src/routes/paysheet.ts:455-461 | the week's start is at most seven days before the date and not after it; a Sunday's own midnight starts its week |
| Paysheet.SundayStartsItsWeek | src/routes/paysheet.ts:455-461 | the start of the week of a Sunday midnight is that midnight |
| Paysheet.WeekRange | src/routes/paysheet.ts:431-440 | an unparseable non-empty input is refused with "Invalid weekStart; expected YYYY-MM-DD"; otherwise the week starts on a Sunday and ends six days later |
| Paysheet.ResolveWeekRange | src/routes/paysheet.ts:431-440 | the labels fail exactly when the range does |
| Paysheet.CurrentWeekContainsNow | src/routes/paysheet.ts:431-433 | an empty `weekStart` gives the week from the Sunday midnight on or before now to six days later, and that week holds now (for times outside the years 0..99) |
| Paysheet.SundayNamesItsWeek | src/routes/paysheet.ts:431-440 | a Sunday's formatted date names the week from that Sunday to the next Saturday |
| Paysheet.WeekLabels | src/routes/paysheet.ts:436-439 | the labels are the formatted start and the formatted start plus six days |
| Paysheet.WeekOfStart | src/routes/paysheet.ts:431-440 | an input already at its week's start gives the range from it to six days later |
| Paysheet.TransactionOf | src/routes/paysheet.ts:186-198 | an entry without a truthy event id is dropped; a kept one carries its id as text |
| Paysheet.TransactionsOf | src/routes/paysheet.ts:182-199 | a non-array gives no transactions; every kept transaction has a non-empty id |
| Paysheet.CollectTransactions | src/routes/paysheet.ts:186-199 | at most one transaction per entry, each with a non-empty id |
| Paysheet.EligibleCount | src/routes/paysheet.ts:222 | the eligible count never exceeds the number of transactions |
| Paysheet.AssistantRate | src/routes/paysheet.ts:223-224 | the rate is 0 exactly without a service percentage, and 2 exactly at 50% or more |
| Paysheet.SplitOf | src/routes/paysheet.ts:211-225 | tech and house service add up to the sales, tip fee and tech tip to the tips; the assistant fee is count times rate |
| Paysheet.SplitConserves | src/routes/paysheet.ts:211-233 | before rounding and the clamp, house pay plus tech pay is the sales plus the tips |
| Paysheet.SummaryShown | src/routes/paysheet.ts:176-248 | a commission comparison appears exactly when the service percentage is below 50; a missing provider id shows as "(unknown)" |
| Paysheet.CommissionOf | src/routes/paysheet.ts:238-248 | the comparison exists exactly for a service percentage below 50 |
| Paysheet.SummaryPay | src/routes/paysheet.ts:226-236 | house pay is the rounded house share; tech pay is the rounded tech share clamped at 0, so never negative |
| Paysheet.PayAddsUp | src/routes/paysheet.ts:226-233 | when the tech share is not clamped, house pay plus tech pay is the sales plus tips within a cent |
| Paysheet.CommissionShortfall | src/routes/paysheet.ts:238-248 | below 50% the comparison's baseline is 50% and its delta is the rounded shortfall to 50%, never negative for non-negative sales |
| Paysheet.TotalTechPayNonNegative | src/routes/paysheet.ts:266-290 | the week's total tech pay is never negative |
| Paysheet.DataReply | src/routes/paysheet.ts:63-326 | 500 exactly when the week is invalid or the database fails, else 200 |
| Paysheet.DataReplyProviders | src/routes/paysheet.ts:300-320 | a 200 reply lists one provider per grouped row with its pay, assistant fee, commission comparison (null exactly when none) and every transaction's event id |
| Paysheet.SummaryValueFields | src/routes/paysheet.ts:306-320 | a provider's reply entry carries its pay figures, comparison and transactions |
| Paysheet.PercentageStore.FindUnique | src/routes/paysheet.ts:381 | the stored settings of the provider, none, or the database error |
| Paysheet.PercentageStore.Delete | src/routes/paysheet.ts:391-395 | removes the provider's record; a failed delete is swallowed and changes nothing |
| Paysheet.PercentageStore.Upsert | src/routes/paysheet.ts:404-417 | the existing record patched with the mentioned fields, or the created one, is stored and returned |
| Paysheet.ValidateRequest | src/routes/paysheet.ts:330-379 | refuses a blank provider id and a body mentioning no setting; the patch mentions exactly the fields the body has |
| Paysheet.SaveSpec | src/routes/paysheet.ts:328-429 | 400 exactly on an invalid request, 500 exactly on a valid one the database refuses; no change unless 200 |
| Paysheet.SavePercentage | src/routes/paysheet.ts:328-429 | the handler's reply and the table after it are the specification's |
| Paysheet.SavedIsEffective | src/routes/paysheet.ts:383-424 | after a save the provider holds the effective settings, the record is removed exactly when all are null, and the reply shows them |
| Paysheet.UnmentionedKept | src/routes/paysheet.ts:383-410 | settings the body does not mention keep their stored values |
| Paysheet.OthersUntouched | src/routes/paysheet.ts:381-417 | no other provider's settings change |
| Employees.LookupProviderName | src/routes/employees.ts:28-30 | a name is found exactly for an id in the directory, and it is that id's name |
| Employees.DirectoryNamesNonEmpty | src/routes/employees.ts:1-26 | every directory entry has a non-empty name |
| Eastern.NewDate | src/routes/vagaro.ts:26 | `new Date(undefined)` is not a date; a string is read by the date parser |
| Store.CreateOutcomeFor | src/routes/vagaro.ts:38-58 | `create` inserts exactly when the database answers and the id is new, and raises the duplicate-id error exactly when the id is stored |
| Store.AppendUnique | src/routes/vagaro.ts:38-58 | appending a row with a new id keeps the ids unique |
| Store.DayRange | scripts/backfillDec2025.ts:545-574 | the rows selected are exactly those whose `day` lies in the range |
| Store.CreatedRange | src/routes/metrics.ts:23-28 | the rows selected are exactly those created in the range |
| Store.Purged | scripts/backfillDec2025.ts:790-800 | a row is deleted exactly when its `day` lies in the range and its id has the prefix |
| Store.PurgedUnique | scripts/backfillDec2025.ts:790-800 | deleting rows keeps the ids unique |
| Store.PurgedAppend | scripts/backfillDec2025.ts:790-800 | deleting from two groups of rows is deleting from each |
| Store.PurgedNothing | scripts/backfillDec2025.ts:790-800 | a table with no matching row is left as it is |
| Store.PurgedTwice | scripts/backfillDec2025.ts:790-800 | deleting twice deletes nothing more |
| Store.NewRows | scripts/masterBackfillCsv.ts:250-251 | `createMany` with `skipDuplicates` adds only rows of the batch |
| Store.NewRowsInserted | scripts/masterBackfillCsv.ts:250-251 | afterwards every id of the batch is stored and the ids are still unique |
| Store.NewRowsNone | scripts/masterBackfillCsv.ts:250-251 | a batch whose ids are all stored adds nothing |
| Store.NewRowsAll | scripts/masterBackfillCsv.ts:250-251 | a batch of distinct new ids is added whole |
| Store.FindEventId | scripts/importIsaSheet.ts:179 | `findUnique` on `eventId` finds a row exactly when one has that id, and it is that row |
| Store.NullCashIndices | src/routes/backfill.ts:15-18 | the rows selected are exactly those without a cash value, in table order |
| Store.NullCashIndicesEmpty | src/routes/backfill.ts:15-18 | a table where every row has a cash value selects none |
| Store.EventStore.Create | src/routes/vagaro.ts:38-58 | inserts the row exactly when the outcome is `Created`, otherwise leaves the table as it was |
| Store.EventStore.FindUnique | scripts/importIsaSheet.ts:179 | the row with the id, or none, or the database error |
| Store.EventStore.QueryDayRange | scripts/backfillDec2025.ts:545-574 | the rows of the day range, or the database error |
| Store.EventStore.FindNullCash | src/routes/backfill.ts:15-18 | the rows without a cash value, or the database error |
| Store.EventStore.QueryCreatedRange | src/routes/metrics.ts:23-28 | the rows created in the range ordered by created date, or the database error |
| Store.EventStore.DeleteDayRangeWithPrefix | scripts/backfillDec2025.ts:794-800 | deletes exactly the matching rows and returns how many, or fails with nothing deleted |
| Store.EventStore.CreateManySkipDuplicates | scripts/masterBackfillCsv.ts:250-251 | appends the batch's new rows and returns their number, or fails with nothing written |
| Store.EventStore.UpdateCashAndDay | src/routes/backfill.ts:35-38 | sets one row's cash and day and nothing else |
| BackfillKeys.NormalizeServiceName | scripts/backfillDec2025.ts:95-101 | the service name keeps only lower-case letters, digits and single spaces and is never longer than its input |
| BackfillKeys.NormalizePersonName | scripts/backfillDec2025.ts:103-109 | the person name keeps only lower-case letters and single spaces and is never longer than its input |
| BackfillKeys.MoneyKey | scripts/backfillDec2025.ts:111-115 | a non-finite amount is written `0.00` |
| BackfillKeys.MoneyKeyValue | scripts/backfillDec2025.ts:111-115 | the text reads back as the amount rounded to cents |
| BackfillKeys.MoneyKeyZero | scripts/backfillDec2025.ts:111-115 | the text is `0.00` exactly when the amount is not finite or rounds to zero cents |
| BackfillKeys.MoneyKeyCents | scripts/backfillDec2025.ts:111-115 | two amounts get the same text exactly when they round to the same cents |
| BackfillKeys.MoneyKeyHasNoBar | scripts/backfillDec2025.ts:111-115 | the amount text never holds the `|` separator |
| BackfillKeys.KeyTiers | scripts/backfillDec2025.ts:130-164 | the strict key is the fallback key plus the two names, and the fallback key is the ultra key plus the two amounts |
| BackfillKeys.UltraKeyIsJoin | scripts/backfillDec2025.ts:607-611 | the ultra key is day, minute and service joined by `|` |
| BackfillKeys.MatchKeyInjective | scripts/backfillDec2025.ts:130-148 | two equal strict keys come from equal day, minute, service, amounts and names |
| BackfillKeys.TiersDistinct | scripts/backfillDec2025.ts:130-187 | a strict, a fallback and an ultra key never coincide, whatever they were built from |
| BackfillKeys.FallbackKeyAmounts | scripts/backfillDec2025.ts:150-164 | two fallback keys that differ only in the amount are equal exactly when the amounts' texts are |
| BackfillRange.OffsetAt | scripts/backfillDec2025.ts:216-237 | the Eastern offset read from the clock is folded into (-12h, +12h] |
| BackfillRange.DayComponents | scripts/backfillDec2025.ts:207-211 | a day is read exactly when its three dash-separated parts are numbers |
| BackfillRange.UtcRangeForEtDay | scripts/backfillDec2025.ts:204-262 | the range, when found, starts at the offset-corrected midnight of the day, ends before the next, is under two days long and holds valid times; otherwise the error names the bad day or an invalid time |
| BackfillRange.RangeRejectsNonNumbers | scripts/backfillDec2025.ts:207-213 | the invalid-day error is raised exactly when a part of the day is not a number |
| BackfillRange.ComponentsOfFormatted | scripts/backfillDec2025.ts:189-211 | a day written by the Eastern day formatter reads back as its own year, month and day |
| BackfillRange.StartIsEasternMidnight | scripts/backfillDec2025.ts:215-238 | when the clock shows one offset at the guess and at the corrected start, the start is Eastern midnight |
| BackfillIds.SlugShape | scripts/backfillDec2025.ts:264-267 | the customer slug holds lower-case letters, digits and single inner dashes only |
| BackfillIds.SlugIdempotent | scripts/backfillDec2025.ts:264-267 | slugging a slug changes nothing |
| BackfillIds.CustomerId | scripts/backfillDec2025.ts:264-267 | the id is the file's customer prefix plus the slug, or plus the row number when the slug is empty |
| BackfillIds.CustomerIdIdentifies | scripts/backfillDec2025.ts:264-267 | names with one non-empty slug share an id, different slugs never do, and unnamed rows differ by row number |
| BackfillIds.AppointmentIdOfText | scripts/backfillDec2025.ts:269-274 | a blank cell gives the row-number id, otherwise the trimmed, lower-cased text with its non-slug runs turned into dashes |
| BackfillIds.Fingerprint | scripts/backfillDec2025.ts:284-289 | the fingerprint is the letters of the name, lower-cased, with the one spelling alias; it is empty exactly when the name has no letters |
| BackfillIds.BetancourtAlias | scripts/backfillDec2025.ts:287 | the misspelt directory name is mapped onto the spelling the directory uses |
| BackfillIds.FindFrom | scripts/backfillDec2025.ts:295-305 | the first entry after a point that satisfies the test, or none when no later entry does |
| BackfillIds.ResolveProviderIdAsWritten | scripts/backfillDec2025.ts:276-308 | the lookup as written: a found id is one of the directory's |
| BackfillIds.BlankProviderAsWritten | scripts/backfillDec2025.ts:276-308 | as written, a name with no letters resolves to the first directory entry |
| BackfillIds.ResolveProviderId | scripts/backfillDec2025.ts:276-308 | the corrected lookup: a name with no letters finds nobody; a found id belongs to an entry whose fingerprint equals the name's or whose name holds it loosely |
| BackfillIds.ResolveAgreesWithSource | scripts/backfillDec2025.ts:276-308 | for every name with a letter, the corrected lookup returns what the source returns |
| BackfillIds.ResolveExactFirst | scripts/backfillDec2025.ts:295-296 | the first entry with the same fingerprint wins over every loose match |
| BackfillIds.ResolveNoneIff | scripts/backfillDec2025.ts:295-307 | nobody is found exactly when no entry matches exactly or loosely |
| BackfillIds.ResolveListedName | scripts/backfillDec2025.ts:276-308 | a directory name resolves to its own id unless an earlier entry shares its fingerprint |
| BackfillIds.DirectoryNamesStartCapital | src/routes/employees.ts:1-26 | every directory name starts with a capital letter |
| BackfillRead.OrElse | scripts/backfillDec2025.ts:422-446 | `a \|\| b` on text is empty exactly when both are |
| BackfillRead.BuildRow | scripts/backfillDec2025.ts:422-459 | the pushed row keeps its row number, service and checkout; its ids, customer, cashier, source and charge method are never empty; cash tendered is never negative; a row without a provider id is `Unknown Tech` |
| BackfillRead.ClassifyRowMeaning | scripts/backfillDec2025.ts:386-459 | a row stops the sheet exactly at a `total` service, is skipped when the service is blank or the checkout date unreadable, and otherwise is a summary label or pushed with its own service |
| BackfillRead.PushedRowValid | scripts/backfillDec2025.ts:409-459 | every pushed row is well formed and carries its own row number |
| BackfillRead.CollectStopsAt | scripts/backfillDec2025.ts:386-390 | nothing after the first `total` row is read |
| BackfillRead.CollectedRows | scripts/backfillDec2025.ts:359-459 | the rows read are well formed, lie after the header and keep sheet order |
| BackfillRead.Basename | scripts/backfillDec2025.ts:319 | the base name is the path's last segment |
| BackfillRead.StripXlsx | scripts/backfillDec2025.ts:320 | the suffix drops a final `.xlsx` in any case, and nothing else |
| BackfillRead.ScanRows | scripts/backfillDec2025.ts:359-472 | the loop reads exactly the rows the per-row decisions push, and its counters add up to the rows examined |
| BackfillRead.ReadXlsx | scripts/backfillDec2025.ts:310-493 | reading a file yields the rows the specification collects or its error; the counters add up and a stop lies after the header |
| BackfillRead.ReadRowsValid | scripts/backfillDec2025.ts:310-493 | every row read is well formed, lies after row 23, and row numbers ascend |
| BackfillExisting.TextField | scripts/backfillDec2025.ts:545-571 | `->>` gives no text exactly for a null or missing field, the string itself, or a number's decimal text |
| BackfillExisting.FirstNonNull | scripts/backfillDec2025.ts:547-571 | `COALESCE` of two is the first present one, and absent only when both are |
| BackfillExisting.MatchRowOf | scripts/backfillDec2025.ts:545-571 | each column is taken from the inner payload first, then the outer one (the date finally from `createdDate`) |
| BackfillExisting.AmountOf | scripts/backfillDec2025.ts:585-586 | the amount is the number left after stripping other characters, or 0; never NaN |
| BackfillExisting.InstantOn | scripts/backfillDec2025.ts:578-599 | a stored row counts for a day exactly when its service and date are present, the date parses and its Eastern day is that day |
| BackfillExisting.RecordKeysRules | scripts/backfillDec2025.ts:601-612 | a counted row adds its fallback key, its strict key exactly when it names someone, and its ultra key exactly when an amount is `0.00`; other rows add nothing |
| BackfillExisting.KeysOfRowsUnion | scripts/backfillDec2025.ts:576-615 | the set holds exactly the keys of the rows read |
| BackfillExisting.ExistingKeyHasSource | scripts/backfillDec2025.ts:542-616 | every key in a day's set comes from a stored row inside the day's range |
| BackfillExisting.ExistingMatchKeysForDay | scripts/backfillDec2025.ts:542-616 | the method's loop builds the specified key set or returns the range or database error |
| BackfillCandidate.RowKeyTiers | scripts/backfillDec2025.ts:166-187 | a sheet row's three keys are nested tiers of one another |
| BackfillCandidate.StrictKeyDetermines | scripts/backfillDec2025.ts:166-187 | rows with one strict key share day, fallback and ultra key, and so are missing together |
| BackfillCandidate.EventIdShape | scripts/backfillDec2025.ts:619-620 | the event id starts `manual-dec2025-`, is fixed by file, transaction and row, and differs between rows of one file and transaction |
| BackfillCandidate.PayloadBodyFields | scripts/backfillDec2025.ts:631-674 | the body stores the service, the ISO checkout, the change due under both `amountDue` and `changeDue`, and the tip |
| BackfillCandidate.BodyWithCashFields | scripts/backfillDec2025.ts:626-674 | cash tendered under both aliases, card plus cash as tender and total |
| BackfillCandidate.BodyWithoutNames | scripts/backfillDec2025.ts:631-674 | the body names neither customer nor provider |
| BackfillCandidate.BuildCandidate | scripts/backfillDec2025.ts:618-677 | the candidate carries the row's event id, checkout and source row |
| BackfillCandidate.RecordOf | scripts/backfillDec2025.ts:874-919 | the record exists exactly when the checkout's Eastern day has a range; it wraps the body and stores the range start as `day` |
| BackfillCandidate.RecordInOwnDay | scripts/backfillDec2025.ts:917-918 | the stored record lies inside its own day's range |
| BackfillCandidate.InsertedRecordKeys | scripts/backfillDec2025.ts:542-616 | a stored backfill record gives its day the fallback key of its change due, plus the ultra key when change due or tip is zero, and never a strict key |
| BackfillCandidate.RecognisedOnRerun | scripts/backfillDec2025.ts:813-819 | a later run sees the row as present exactly when change due and amount due agree in cents, or change due or tip is zero |
| BackfillCandidate.StoredRecordIndexed | scripts/backfillDec2025.ts:542-616 | every key of a stored row inside a day's range is in that day's set |
| BackfillMain.FirstIndex | scripts/backfillDec2025.ts:683 | `indexOf`: the first position holding the name, or none |
| BackfillMain.FirstWithPrefix | scripts/backfillDec2025.ts:685-686 | `find`: the first argument with the prefix, or none |
| BackfillMain.GetArgSeparate | scripts/backfillDec2025.ts:682-688 | a flag followed by a non-empty value yields that value |
| BackfillMain.GetArgInline | scripts/backfillDec2025.ts:682-688 | an inline `name=value` yields the value |
| BackfillMain.ParseArgs | scripts/backfillDec2025.ts:679-706 | dry run exactly when one of its three spellings is given; apply exactly when asked and not a dry run; the directory defaults |
| BackfillMain.DayFile | scripts/backfillDec2025.ts:720-727 | exactly the three supported days map to their `MM-DD-YYYY.xlsx` file |
| BackfillMain.SelectFiles | scripts/backfillDec2025.ts:711-735 | an explicit file wins; an unsupported day is the error naming it; otherwise the day's file or the three defaults |
| BackfillMain.ReadAllRows | scripts/backfillDec2025.ts:737-741 | reading succeeds exactly when every file reads, and every row read is well formed |
| BackfillMain.ReadAll | scripts/backfillDec2025.ts:737-741 | the loop returns the concatenated rows or the first error |
| BackfillMain.ReadAllStops | scripts/backfillDec2025.ts:737-741 | the first failing file decides the result |
| BackfillMain.RowsOfDay | scripts/backfillDec2025.ts:775-782 | a day's rows are rows of the sheet on that Eastern day that the day filter admits |
| BackfillMain.GroupedRows | scripts/backfillDec2025.ts:775-782 | a day is grouped exactly when it has rows, and its group is those rows in order |
| BackfillMain.GroupByDay | scripts/backfillDec2025.ts:775-782 | the loop builds the specified grouping |
| BackfillMain.DayKeys | scripts/backfillDec2025.ts:784-786 | the days are distinct grouped days: the trimmed `--day` when grouped, else all grouped days ascending |
| BackfillMain.PurgeSpec | scripts/backfillDec2025.ts:788-801 | without the flag nothing is deleted; the flag without a day is refused |
| BackfillMain.PurgeRemoves | scripts/backfillDec2025.ts:788-801 | a purge deletes exactly the rows of the day's range whose id starts `manual-dec2025-` |
| BackfillMain.IndexHoldsDays | scripts/backfillDec2025.ts:806-811 | the index succeeds exactly when every day's keys do and holds each day's set |
| BackfillMain.MissingOfDayIff | scripts/backfillDec2025.ts:813-819 | a candidate is missing exactly when it is built from a row none of whose three keys is in the day's set |
| BackfillMain.MissingSpecIff | scripts/backfillDec2025.ts:808-821 | the missing list is the union of the days' missing rows |
| BackfillMain.IndexAndCollect | scripts/backfillDec2025.ts:802-821 | the loop returns the specified index and missing list, or the first error |
| BackfillMain.PlansOf | scripts/backfillDec2025.ts:862-919 | one plan per missing candidate, in order |
| BackfillMain.PurgeStage | scripts/backfillDec2025.ts:788-801 | the stage deletes what the specification deletes or fails with the table unchanged |
| BackfillMain.ApplyStage | scripts/backfillDec2025.ts:802-936 | the stage's result and table are those of the specification's loop as written |
| BackfillMain.Backfill | scripts/backfillDec2025.ts:708-939 | the whole script's result and table are those of the specification, with the loop as written |
| BackfillMain.DryRunNeverWrites | scripts/backfillDec2025.ts:857-860 | without `--apply` nothing is inserted, and without a purge the table is unchanged |
| BackfillMain.IndexGrows | scripts/backfillDec2025.ts:542-616 | adding rows to the table never removes a key from a day's set |
| BackfillMain.MissingSpecShrinks | scripts/backfillDec2025.ts:808-821 | a larger index leaves exactly the earlier missing plans it does not cover |
| BackfillMain.RerunInsertsNothingEndToEnd | scripts/backfillDec2025.ts:708-939 | with the corrected loop, a second run on the same sheets after a successful first inserts nothing and leaves the table unchanged |
| BackfillMain.ApplyRerunInsertsNothing | scripts/backfillDec2025.ts:802-936 | the same at the apply stage |
| BackfillApply.PlanOf | scripts/backfillDec2025.ts:864-919 | a plan pairs the candidate's Eastern day and strict key with its record |
| BackfillApply.AddKey | scripts/backfillDec2025.ts:932-933 | the key joins its day's set and every other day is unchanged |
| BackfillApply.StepMeaning | scripts/backfillDec2025.ts:863-935 | after a failure nothing changes; a known key is skipped; a row is inserted exactly when its key is new, its record built, the database answers and its id is new |
| BackfillApply.RunGrows | scripts/backfillDec2025.ts:862-936 | the loop only appends, once per insert, and never drops a key |
| BackfillApply.AtMostOncePerKey | scripts/backfillDec2025.ts:930-933 | within one run, at most one row per day and strict key is inserted |
| BackfillApply.RunSettles | scripts/backfillDec2025.ts:862-936 | with the corrected loop, after a successful run every plan's key is recorded or its id stored |
| BackfillApply.RerunInsertsNothing | scripts/backfillDec2025.ts:862-936 | with the corrected loop, rerunning the plans a larger index still misses inserts nothing |
| BackfillApply.AsWrittenRerunDuplicates | scripts/backfillDec2025.ts:921-933 | as written, a rerun that does not recognise the stored row inserts the second row of a shared strict key |
| BackfillApply.ApplyMissing | scripts/backfillDec2025.ts:862-936 | the loop's table and result are those of the specified run as written: the count inserted or the first error |
| BackfillApply.RunAborted | scripts/backfillDec2025.ts:927 | once an error is raised, the rest of the plans are not run |
| MasterBackfillRows.StripMoney | scripts/masterBackfillCsv.ts:41-43 | no `$`, comma or white space is left |
| MasterBackfillRows.Unparen | scripts/masterBackfillCsv.ts:44 | text wrapped in parentheses becomes the negated inner text; other text is unchanged |
| MasterBackfillRows.ParseMoneyCents | scripts/masterBackfillCsv.ts:39-47 | an amount written in cents, with or without `$`, reads back as its value |
| MasterBackfillRows.ParseMoneyParentheses | scripts/masterBackfillCsv.ts:39-47 | an amount in parentheses reads back negated |
| MasterBackfillRows.ParseMoneyGarbage | scripts/masterBackfillCsv.ts:45-46 | text that is not a finite number after cleaning reads as 0 |
| MasterBackfillRows.NormalizeHeaderShape | scripts/masterBackfillCsv.ts:49-51 | a normalized header is trimmed, lower-case, with single spaces |
| MasterBackfillRows.NormalizeHeaderIdempotent | scripts/masterBackfillCsv.ts:49-51 | normalizing twice changes nothing |
| MasterBackfillRows.GetFirstFilled | scripts/masterBackfillCsv.ts:53-59 | `get` returns the trimmed value of the first key with a non-blank value, and nothing exactly when every key is blank or absent |
| MasterBackfillRows.GetTrimmed | scripts/masterBackfillCsv.ts:53-59 | a value returned is non-empty and trimmed |
| MasterBackfillRows.ClockRoundTrip | scripts/masterBackfillCsv.ts:83 | a written `H:MM[:SS]` reads back as the same clock |
| MasterBackfillRows.SlashDateRoundTrip | scripts/masterBackfillCsv.ts:83-91 | a written `M/D/YYYY[ H:MM[:SS]]` matches the pattern and reads back as its own parts |
| MasterBackfillRows.GuessCreatedDateCases | scripts/masterBackfillCsv.ts:61-95 | no date column gives now; a date the parser reads is that date; otherwise the slash form or now |
| MasterBackfillRows.GuessSlashDate | scripts/masterBackfillCsv.ts:82-91 | a slash date the parser refuses and without a time is taken at 12:00 UTC of that day |
| MasterBackfillRows.CsvRecordFields | scripts/masterBackfillCsv.ts:133-147 | a record has exactly the normalized headers as keys, each holding the trimmed field of the last column with that header |
| MasterBackfillRows.CsvKeysNormalized | scripts/masterBackfillCsv.ts:142-146 | every key of a record is already normalized |
| MasterBackfillRows.ReadCsv | scripts/masterBackfillCsv.ts:133-148 | the file is read exactly when every record has as many fields as the header, one row per record |
| MasterBackfillRows.RecordHasKey | scripts/masterBackfillCsv.ts:172-187 | a row's key comes from a non-empty cell under a named header |
| MasterBackfillRows.RecordValue | scripts/masterBackfillCsv.ts:176-186 | the key holds the text of the last such cell, with dates as ISO text |
| MasterBackfillRows.ReadXlsx | scripts/masterBackfillCsv.ts:150-192 | a workbook without sheets is refused; otherwise the rows of the first sheet |
| MasterBackfillRows.TotalRowEndsData | scripts/masterBackfillCsv.ts:169 | nothing after the first `total` row is read |
| MasterBackfillRows.BlankRowSkipped | scripts/masterBackfillCsv.ts:170 | a row whose first cell is blank contributes nothing |
| MasterBackfill.BaseNameOf | scripts/masterBackfillCsv.ts:195 | the base name of a joined path is the file name |
| MasterBackfill.ExtNameOf | scripts/masterBackfillCsv.ts:195 | the extension is the last dot and what follows it |
| MasterBackfill.TabularRows | scripts/masterBackfillCsv.ts:194-199 | `.csv` and `.xlsx` (any case) pick their reader; any other extension is refused |
| MasterBackfill.ReadTabular | scripts/masterBackfillCsv.ts:194-199 | the method reads what the specification reads |
| MasterBackfill.ValidDaysMembers | scripts/masterBackfillCsv.ts:308-310 | a day is kept exactly when an answer is a whole or fractional number from 1 to 31 |
| MasterBackfill.PickDays | scripts/masterBackfillCsv.ts:201-204 | one day text per day number |
| MasterBackfill.DayTextIsEtDay | scripts/masterBackfillCsv.ts:23-37 | the requested day's text is the Eastern day text of any instant on that day |
| MasterBackfill.RowsOn | scripts/masterBackfillCsv.ts:320-327 | a day's rows are exactly the rows whose guessed date falls on it |
| MasterBackfill.GroupUpToMeaning | scripts/masterBackfillCsv.ts:320-327 | grouping succeeds exactly when every row has an Eastern day, and each bucket holds that day's rows in order |
| MasterBackfill.GroupByDay | scripts/masterBackfillCsv.ts:320-327 | the loop builds the specified grouping |
| MasterBackfill.PlansAreDays | scripts/masterBackfillCsv.ts:329-330 | one plan per valid day, in the order asked, holding that day's rows |
| MasterBackfill.ManualWebhookFields | scripts/masterBackfillCsv.ts:104-131 | the wrapper holds the payload and no top-level cash or amount due |
| MasterBackfill.ManualWebhookCash | scripts/masterBackfillCsv.ts:108-128 | the cash the webhook route derives from the wrapper is the parsed cash column |
| MasterBackfill.ManualPayloadOptional | scripts/masterBackfillCsv.ts:114-128 | `changeDue` is present exactly when not 0, and `transactionId` exactly when a column gives it |
| MasterBackfill.DateColumn | scripts/masterBackfillCsv.ts:210 | a `@db.Date` column keeps the UTC date: the stored value is the day's UTC midnight at or before the instant |
| MasterBackfill.DateColumnSameDay | scripts/masterBackfillCsv.ts:210-213 | two instants store the same date exactly when they lie on one UTC day |
| MasterBackfill.ManualIdsDistinct | scripts/masterBackfillCsv.ts:232 | rows of one day get different ids |
| MasterBackfill.ManualEventsShape | scripts/masterBackfillCsv.ts:227-248 | the batch's ids are `manual-csv-<day>-<nnnn>`, unique, and every row stores the date of the day's noon |
| MasterBackfill.ManualEventBackfilledCash | scripts/masterBackfillCsv.ts:104-131 | the cash the backfill route reads from a manual row is the parsed cash column |
| MasterBackfill.ApplyPlanCases | scripts/masterBackfillCsv.ts:368-380 | a bad day stops the run; otherwise its date's rows are deleted and, when it has rows, the batch is inserted |
| MasterBackfill.DeletesOnlyThatDay | scripts/masterBackfillCsv.ts:216-218 | a row is deleted exactly when its `day` is the date |
| MasterBackfill.ApplyPlanMeaning | scripts/masterBackfillCsv.ts:368-385 | the ids stay unique, rows of other dates survive, and every manual id of the day is stored |
| MasterBackfill.InsertedRows | scripts/masterBackfillCsv.ts:250-252 | inserting keeps every row, keeps the ids unique and stores every manual id |
| MasterBackfill.ApplyPlanTwice | scripts/masterBackfillCsv.ts:368-385 | applying a day twice leaves the table as applying it once |
| MasterBackfill.DeleteDay | scripts/masterBackfillCsv.ts:206-225 | deletes exactly the rows of the date and reports how many, or fails with the table unchanged |
| MasterBackfill.InsertManualEvents | scripts/masterBackfillCsv.ts:227-253 | inserts the day's batch, skipping stored ids, and reports the count, or fails with the table unchanged |
| MasterBackfill.ApplyOne | scripts/masterBackfillCsv.ts:368-385 | one iteration changes the table as the day's plan specifies |
| MasterBackfill.ApplyPlans | scripts/masterBackfillCsv.ts:368-386 | the loop applies the plans in order and stops at the first error |
| MasterBackfill.ApplyUpToUnique | scripts/masterBackfillCsv.ts:368-386 | the ids stay unique after every day |
| MasterBackfill.Run | scripts/masterBackfillCsv.ts:255-389 | the script's table and outcome are those of the specification |
| MasterBackfill.OnlyConfirmedRunsWrite | scripts/masterBackfillCsv.ts:337-366 | a dry run, a missing database, an unreachable database or a refused confirmation leave the table as it was |
| MasterBackfill.NoDaysNoRun | scripts/masterBackfillCsv.ts:312 | with no valid day the run stops with the error before anything else |
| CompareMixup.RangeIsTheWeek | scripts/compareMixupWebhooks.ts:21-22 | the range runs from Eastern midnight of 23 November 2025 to that of 30 November |
| CompareMixup.IdByName | scripts/compareMixupWebhooks.ts:14 | the id of the first directory entry with exactly that name, and none exactly when no entry has it |
| CompareMixup.ProviderMap | scripts/compareMixupWebhooks.ts:13-19 | the map exists exactly when every tracked name is in the directory, and pairs each with its id in order |
| CompareMixup.TrackedProvidersListed | scripts/compareMixupWebhooks.ts:8-19 | both tracked providers are found, with their directory ids |
| CompareMixup.FindProvider | scripts/compareMixupWebhooks.ts:119 | the provider found has the name ignoring case, and none exactly when no provider does |
| CompareMixup.FindProviderIgnoresCase | scripts/compareMixupWebhooks.ts:119 | upper- or lower-casing the sheet's name does not change the provider found |
| CompareMixup.FindById | scripts/compareMixupWebhooks.ts:169 | the provider with the id, and none exactly when no provider has it |
| CompareMixup.NormalizeService | scripts/compareMixupWebhooks.ts:68-70 | the service key is lower-case, trimmed and never longer than the service |
| CompareMixup.NormalizeServiceIdempotent | scripts/compareMixupWebhooks.ts:68-70 | normalizing a key again changes nothing |
| CompareMixup.DashesToSpace | scripts/compareMixupWebhooks.ts:58 | no dash is left in the date text |
| CompareMixup.ParseMixupDate | scripts/compareMixupWebhooks.ts:56-61 | an empty checkout has no date |
| CompareMixup.ParseRow | scripts/compareMixupWebhooks.ts:115-137 | a kept row has its own number, a transaction id, a tracked provider and the key of its service |
| CompareMixup.ParseRowKept | scripts/compareMixupWebhooks.ts:115-120 | a row is kept exactly when it has a transaction id and names a tracked provider ignoring case |
| CompareMixup.HeaderRowOf | scripts/compareMixupWebhooks.ts:105-113 | the data starts after the first row whose first cell is `checkout date` |
| CompareMixup.ParsedFrom | scripts/compareMixupWebhooks.ts:106-138 | every row collected is the reading of its own sheet row, in ascending row order |
| CompareMixup.ParsedFromHas | scripts/compareMixupWebhooks.ts:106-138 | every kept row is collected |
| CompareMixup.KeepInWeekMeaning | scripts/compareMixupWebhooks.ts:140 | the rows kept are exactly those with a checkout inside the week, in order |
| CompareMixup.LoadMixupRows | scripts/compareMixupWebhooks.ts:97-141 | the method collects the specified rows |
| CompareMixup.MixupRowsMeaning | scripts/compareMixupWebhooks.ts:97-141 | every row loaded lies after the header, is the reading of its sheet row and falls in the week, and the rows ascend |
| CompareMixup.AmountOf | scripts/compareMixupWebhooks.ts:170 | a finite number is itself; a missing value is 0 |
| CompareMixup.TenderSum | scripts/compareMixupWebhooks.ts:171-183 | with no tender field present the tender is 0 |
| CompareMixup.CashAndCardTender | scripts/compareMixupWebhooks.ts:171-183 | with only cash and card present, the tender is their sum |
| CompareMixup.WebhookRowOf | scripts/compareMixupWebhooks.ts:166-197 | the net amount is the tender less the tip, the tip and tender are read from the inner payload, and the key is the service's |
| CompareMixup.WebhookProvider | scripts/compareMixupWebhooks.ts:168-169 | a tracked provider id in the payload gives that provider's id and name |
| CompareMixup.NestedPayloadRead | scripts/compareMixupWebhooks.ts:167 | a nested `payload` object is the one read |
| CompareMixup.CashAndCardNet | scripts/compareMixupWebhooks.ts:166-197 | a payload with cash, card and tip gives their net amount |
| CompareMixup.WebhookRowsMeaning | scripts/compareMixupWebhooks.ts:166-198 | one webhook row per queried row, in order |
| CompareMixup.Candidate | scripts/compareMixupWebhooks.ts:207-221 | a sheet row is a candidate exactly when the service keys match, both times exist and lie within an hour, and the price and tip differences are within their tolerances when either side is positive |
| CompareMixup.BestUpTo | scripts/compareMixupWebhooks.ts:205-227 | the best match is one of the candidates |
| CompareMixup.FindMatch | scripts/compareMixupWebhooks.ts:201-228 | the loop returns the specified best candidate |
| CompareMixup.BestIsFirstLeast | scripts/compareMixupWebhooks.ts:201-228 | no match exactly when no row is a candidate; otherwise the first candidate with the least score |
| CompareMixup.Available | scripts/compareMixupWebhooks.ts:258 | the rows offered are exactly the loaded rows not yet linked |
| CompareMixup.Pick | scripts/compareMixupWebhooks.ts:258-259 | the pick is an unlinked candidate row |
| CompareMixup.PickIsBest | scripts/compareMixupWebhooks.ts:258-259 | no pick only when no unlinked row is a candidate; otherwise no unlinked candidate scores lower |
| CompareMixup.CsvRowsOf | scripts/compareMixupWebhooks.ts:279-286 | one entry per loaded row, with its webhook exactly when it was linked |
| CompareMixup.Unlinked | scripts/compareMixupWebhooks.ts:278 | the unmatched rows are exactly the loaded rows never linked |
| CompareMixup.BuildComparison | scripts/compareMixupWebhooks.ts:251-289 | the loop builds the specified comparison |
| CompareMixup.ComparisonShape | scripts/compareMixupWebhooks.ts:257-276 | one entry per webhook, in order, with deltas exactly when matched |
| CompareMixup.LinkedAtMostOnce | scripts/compareMixupWebhooks.ts:253-261 | every linked row is a loaded row and no row is linked to two webhooks |
| CompareMixup.UnmatchedAreUnlinked | scripts/compareMixupWebhooks.ts:278 | a row is listed unmatched exactly when no entry links it |
| CompareMixup.CsvRowsShowLinks | scripts/compareMixupWebhooks.ts:272-286 | a row's entry shows a webhook exactly when linked, and the webhook and deltas of the entry that linked it |
| CompareMixup.GreedyChoice | scripts/compareMixupWebhooks.ts:257-276 | each webhook's match is a candidate not linked by an earlier webhook and beats every such candidate; unmatched only when none remains |
| CompareMixup.FormatStatus | scripts/compareMixupWebhooks.ts:306-321 | the status is `(n/a)`, `No CSV match` or `No webhook` exactly in their cases, and otherwise starts `Linked` |
| CompareMixup.LinkedPrefix | scripts/compareMixupWebhooks.ts:313 | a provider mismatch is shown exactly when the ids differ |
| CompareMixup.StatusColumns | scripts/compareMixupWebhooks.ts:347-386 | a webhook's status says `No CSV match` exactly when it has no match, and a row's says `No webhook` exactly when it is unlinked |
| CompareWebhooks.ReadRowMeaning | scripts/compareWebhooks.ts:83-101 | a row is kept exactly when it is after the header, names a provider, a transaction and a service other than `total`, and the provider is the target ignoring case |
| CompareWebhooks.RowsOrdered | scripts/compareWebhooks.ts:83-102 | the kept rows are readings of their own rows in ascending order |
| CompareWebhooks.RowsComplete | scripts/compareWebhooks.ts:83-102 | every kept row is loaded |
| CompareWebhooks.ReadRows | scripts/compareWebhooks.ts:83-102 | the loop loads the specified rows |
| CompareWebhooks.LoadSheetTransactions | scripts/compareWebhooks.ts:73-105 | the file's rows, or the error for an unreadable or empty workbook |
| CompareWebhooks.UniqueIds | scripts/compareWebhooks.ts:120 | the distinct ids are exactly the ids, each once |
| CompareWebhooks.UniqueIdsOfDistinct | scripts/compareWebhooks.ts:120 | distinct ids are kept as they are |
| CompareWebhooks.MatchesOf | scripts/compareWebhooks.ts:109-115 | every match carries one of the queried ids |
| CompareWebhooks.MatchesOfMembers | scripts/compareWebhooks.ts:109-115 | the matches are exactly the events whose inner transaction id is queried |
| CompareWebhooks.FetchWebhookMatches | scripts/compareWebhooks.ts:107-116 | no ids means no query and no matches; otherwise the matches or the database error |
| CompareWebhooks.MatchesForMembers | scripts/compareWebhooks.ts:123-130 | a transaction's group is exactly the matches with its id |
| CompareWebhooks.GroupMatches | scripts/compareWebhooks.ts:123-130 | the loop groups the matches by non-empty transaction id |
| CompareWebhooks.MissingOfMembers | scripts/compareWebhooks.ts:135-140 | a row is missing exactly when no match has its id |
| CompareWebhooks.MismatchedOfMembers | scripts/compareWebhooks.ts:142-145 | a row is mismatched exactly when it has matches and none names the target, and it lists their providers |
| CompareWebhooks.MissingAndMismatchedDisjoint | scripts/compareWebhooks.ts:135-146 | a row is never both missing and mismatched |
| CompareWebhooks.Classify | scripts/compareWebhooks.ts:132-146 | the loop builds the specified missing and mismatched lists |
| CompareWebhooks.GroupEmptyIffNoEvent | scripts/compareWebhooks.ts:107-140 | a queried id has no matches exactly when no stored event carries it |
| CompareWebhooks.GroupHasTargetIffEvent | scripts/compareWebhooks.ts:107-145 | a queried id has a target match exactly when a stored event carries it with the target's id |
| CompareWebhooks.GroupMissing | scripts/compareWebhooks.ts:153-166 | the loop groups the missing rows by id, in first-seen order |
| CompareWebhooks.GroupedMissingAddsUp | scripts/compareWebhooks.ts:153-173 | the groups' row counts, amounts and tips add up to those of the missing rows |
| CompareWebhooks.Compare | scripts/compareWebhooks.ts:118-187 | the script's report is the specified one |
| CompareWebhooks.ReportMissingIff | scripts/compareWebhooks.ts:118-146 | a sheet row is reported missing exactly when no stored event carries its transaction id |
| CompareWebhooks.ReportMismatchedIff | scripts/compareWebhooks.ts:118-146 | a sheet row is reported mismatched exactly when stored events carry its id but none with the target's id |
| ListSheetRange.ParseDate | scripts/listSheetRange.ts:97-106 | an absent or empty argument is refused as missing, one the parser cannot read at `T00:00:00-05:00` as invalid, otherwise that instant |
| ListSheetRange.WindowOfMeaning | scripts/listSheetRange.ts:109-111 | the window runs from the start day to a day after the end day, or exactly the start day without an end |
| ListSheetRange.SelectMembers | scripts/listSheetRange.ts:114-117 | the rows selected are exactly those with a checkout inside the window |
| ListSheetRange.ListRows | scripts/listSheetRange.ts:108-122 | the script's listing or error is the specified one |
| ListSheetRange.ListedRows | scripts/listSheetRange.ts:113-117 | the listing holds exactly the target's loaded rows whose checkout is in the window |
| ListSheetRange.ListedSorted | scripts/listSheetRange.ts:119-122 | the listing is ascending by checkout and a permutation of the selection |
| ManualUpload.ParseNumberCell | scripts/manualUpload.ts:118-128 | a number cell is its number; a cell that is neither number nor text, or text with no numeral, gives nothing |
| ManualUpload.NumberTextReadsBack | scripts/manualUpload.ts:118-128 | a short decimal written as text reads back as itself |
| ManualUpload.NoiseIgnored | scripts/manualUpload.ts:122 | characters other than digits, `.` and `-` around the number do not change it |
| ManualUpload.SameNumerals | scripts/manualUpload.ts:122-125 | two texts with the same numeral characters read the same |
| ManualUpload.ExcelDateToDate | scripts/manualUpload.ts:104-116 | a date cell is itself; text is parsed after its first spaced dash becomes a space; other cells give nothing |
| ManualUpload.ExcelEpochIsDateUtc | scripts/manualUpload.ts:107 | the serial epoch is 30 December 1899 at UTC midnight |
| ManualUpload.ExcelSerialWholeDays | scripts/manualUpload.ts:106-108 | a whole serial is that many days after the epoch, at UTC midnight |
| ManualUpload.ExcelSerialUnixEpoch | scripts/manualUpload.ts:106-108 | serial 25569 is 1 January 1970 |
| ManualUpload.ReplaceFirstUnchanged | scripts/manualUpload.ts:111 | text with no spaced dash is unchanged |
| ManualUpload.ReplaceFirstOnly | scripts/manualUpload.ts:111 | only the first spaced dash is replaced, by one space |
| ManualUpload.ToIsoDateNY | scripts/manualUpload.ts:89-102 | a day exactly when there is a date, and it is the date's Eastern day |
| ManualUpload.Clean | scripts/manualUpload.ts:260 | a cleaned header keeps lower-case letters and digits only |
| ManualUpload.LabelKeys | scripts/manualUpload.ts:262 | one key per label, the cleaned lower-cased label |
| ManualUpload.FindColumn | scripts/manualUpload.ts:261-270 | the loop finds the specified column, or the fallback |
| ManualUpload.TextOf | scripts/manualUpload.ts:347-370 | a truthy cell gives its trimmed text, a falsy one nothing |
| ManualUpload.BuildParsedRow | scripts/manualUpload.ts:340-371 | the parsed row carries its own row number |
| ManualUpload.BuildParsedRowDated | scripts/manualUpload.ts:340-346 | the row's local day is the Eastern day of its checkout |
| ManualUpload.HasTotalMeaning | scripts/manualUpload.ts:311 | a row stops the scan exactly when one of its cells is text reading `TOTAL` |
| ManualUpload.ScanLengthRow | scripts/manualUpload.ts:308-312 | every row read lies before the first `TOTAL` row and inside the sheet |
| ManualUpload.RowsFromMeaning | scripts/manualUpload.ts:308-372 | the rows read are consecutive from the first data row, each the reading of its sheet row |
| ManualUpload.ScanRows | scripts/manualUpload.ts:308-372 | the loop reads the specified rows |
| ManualUpload.HasTotalCell | scripts/manualUpload.ts:310-311 | the loop finds a `TOTAL` cell exactly when the row has one |
| ManualUpload.ValidRows | scripts/manualUpload.ts:374 | the valid rows are exactly the rows with a transaction id and a local day, in order |
| ManualUpload.ValidRowsOrdered | scripts/manualUpload.ts:374 | filtering keeps the rows ascending |
| ManualUpload.DayCountsDomain | scripts/manualUpload.ts:375-380 | a day is counted exactly when a valid row falls on it |
| ManualUpload.DayCountsCount | scripts/manualUpload.ts:375-380 | each day's count is the number of valid rows on it |
| ManualUpload.DayCountsSum | scripts/manualUpload.ts:375-380 | the day counts add up to the number of valid rows |
| ManualUpload.IdSetMeaning | scripts/manualUpload.ts:376-381 | the id set is exactly the valid rows' non-empty ids |
| ManualUpload.CountRows | scripts/manualUpload.ts:377-382 | the loop builds the specified day counts and id set |
| ManualUpload.ParsedCounts | scripts/manualUpload.ts:245-394 | the valid rows are no more than the data rows, the day counts add up to them, and the ids are theirs |
| ManualUpload.ValidRowsDated | scripts/manualUpload.ts:245-394 | every valid row has a checkout and its Eastern day |
| ManualUpload.ParseTransactions | scripts/manualUpload.ts:245-394 | the method returns the specified parse or the missing-worksheet error |
| ManualUploadSend.OrText | scripts/manualUpload.ts:405-464 | `a \|\| b` on optional text |
| ManualUploadSend.BuildEvents | scripts/manualUpload.ts:404-475 | one event per valid row |
| ManualUploadSend.EventMirrorsRow | scripts/manualUpload.ts:404-475 | the event keeps the row's transaction id, never an empty one, dates the transaction at its creation (the row's checkout when it has one), and has `ccMode` `C` exactly when the row has a positive card amount |
| ManualUploadSend.EventRowIds | scripts/manualUpload.ts:447-464 | the customer, payment and master ids are built from the row number |
| ManualUploadSend.RowIdInjective | scripts/manualUpload.ts:447-464 | different row numbers give different ids |
| ManualUploadSend.EventIdsDistinct | scripts/manualUpload.ts:447-464 | events of different rows get different customer, payment and master ids |
| ManualUploadSend.EventRowAmounts | scripts/manualUpload.ts:413-425 | cash is the row's or 0, and `amountDue` is the change due or 0 |
| ManualUploadSend.EventValueFields | scripts/manualUpload.ts:468-474 | the JSON event holds the id and payload, and no top-level cash or amount due |
| ManualUploadSend.RouteRecordsUploadedRow | scripts/manualUpload.ts:404-498 | the webhook route records a sent event under its id, with the row's cash less its change due |
| ManualUploadSend.IsYesLower | scripts/manualUpload.ts:145 | yes exactly for `y` or `yes` in any case, trimmed |
| ManualUploadSend.PromptDirectory | scripts/manualUpload.ts:130-139 | the answer, or the working directory when blank, when it is a directory; otherwise the error |
| ManualUploadSend.XlsxFiles | scripts/manualUpload.ts:231 | exactly the entries ending `.xlsx` in any case, in order |
| ManualUploadSend.PromptFileChoosesXlsx | scripts/manualUpload.ts:230-243 | a chosen file is one of the directory's `.xlsx` entries |
| ManualUploadSend.PromptFileByNumber | scripts/manualUpload.ts:230-243 | no files is the error naming the directory; a number in range picks that file |
| ManualUploadSend.PromptFileByHex | scripts/manualUpload.ts:238-239 | `Number` reads hexadecimal, so the answer `0x1` picks the first `.xlsx` file |
| ManualUploadSend.ProbeMeaning | scripts/manualUpload.ts:148-162 | the probe succeeds exactly when fetch exists, the target has an origin and its health page answers ok, and then carries the status |
| ManualUploadSend.AttemptsMeaning | scripts/manualUpload.ts:189-220 | a payload is posted one to three times, retrying only after a failed try |
| ManualUploadSend.DeliveredMeaning | scripts/manualUpload.ts:189-220 | a payload counts as sent exactly when one of its tries answers ok |
| ManualUploadSend.PostsInOrder | scripts/manualUpload.ts:183-225 | the posts go out payload by payload, in order |
| ManualUploadSend.PostsCount | scripts/manualUpload.ts:170-220 | at most three posts per payload |
| ManualUploadSend.AllFirstTriesOk | scripts/manualUpload.ts:183-225 | when every first try is ok, every payload is sent once |
| ManualUploadSend.NothingOk | scripts/manualUpload.ts:183-225 | when no try is ok, nothing is sent and every payload is tried three times |
| ManualUploadSend.ReportOf | scripts/manualUpload.ts:171-227 | successes and failures add up to the payloads |
| ManualUploadSend.SendOne | scripts/manualUpload.ts:189-220 | the inner loop's posts and outcome are the specified ones |
| ManualUploadSend.SendPayloads | scripts/manualUpload.ts:164-228 | without fetch the error; otherwise the specified tally |
| ManualUploadSend.SendNeedsConsent | scripts/manualUpload.ts:477-499 | events are sent only when sending was agreed, the probe passed or the user chose to go on, and fetch exists; the tally covers every event |
| ManualUploadSend.AutoSendIgnoresAnswer | scripts/manualUpload.ts:482-488 | with `MANUAL_UPLOAD_SEND=1` the send question does not matter |
| ManualUploadSend.SentEventsMirrorRows | scripts/manualUpload.ts:396-505 | what is sent is one event per valid row, each mirroring its row |
| ManualUploadSend.UploadSendsRows | scripts/manualUpload.ts:402-498 | the events sent are those built from the parsed rows |
| ManualUploadSend.RunUpload | scripts/manualUpload.ts:396-505 | the script's outcome is the specified one |
| ManualUpload.ParseNumberAgreesWithCellToNumber | scripts/manualUpload.ts:118-128 | on number, text and empty cells, `parseNumber(c) ?? 0` is the backfill's number-cell reading |
| ManualUpload.ReplaceAtDash | scripts/manualUpload.ts:111 | a spaced dash at the head becomes one space |
| ManualUpload.FirstHeaderMatchMeaning | scripts/manualUpload.ts:263-268 | the match found is the first within the header row's cells, and none is found only when no cell matches |
| ManualUpload.ScanLengthStop | scripts/manualUpload.ts:310-312 | the scan stops at a `TOTAL` row or at the sheet's end |
| ManualUploadSend.EventsOfValidRows | scripts/manualUpload.ts:404-475 | for ascending valid rows: one event each, same transaction id and checkout, distinct generated ids |
| ManualUploadSend.PayloadValueAmounts | scripts/manualUpload.ts:413-425 | the payload JSON carries the row's cash and amount due |
| ManualUploadSend.ChoiceNumber | scripts/manualUpload.ts:238-240 | a listed number typed back is read as that number |
| SendManualRead.AtLeastZero | scripts/sendManualWebhooksDec2025.ts:140-144 | `Math.max(x, 0)`: at least zero and at least x, and either x or zero |
| SendManualRead.BuildRow | scripts/sendManualWebhooksDec2025.ts:128-165 | the row keeps its file, row number, item and checkout; its id, customer, checker, source and charge method are never empty |
| SendManualRead.BuildRowAmounts | scripts/sendManualWebhooksDec2025.ts:137-144 | amount due and tip are the cells' numbers; cash, card, gift card and change due are those numbers clipped at zero |
| SendManualRead.BuildRowDefaults | scripts/sendManualWebhooksDec2025.ts:132-152 | a blank id becomes `dec2025-<file>-row-<n>`, a blank customer `Customer <n>`, and a blank checker, source, charge method or provider their fixed defaults |
| SendManualRead.ClassifyRowMeaning | scripts/sendManualWebhooksDec2025.ts:109-126 | a row stops the read exactly when its item is `total`; it is skipped when the item is blank, the checkout unreadable or the item a summary label; otherwise it is kept |
| SendManualRead.PushedRowValid | scripts/sendManualWebhooksDec2025.ts:128-165 | a kept row is a valid row of its file with its own row number |
| SendManualRead.DecisionsFrom | scripts/sendManualWebhooksDec2025.ts:106-107 | one decision per sheet row from the given row to the last |
| SendManualRead.DecisionAt | scripts/sendManualWebhooksDec2025.ts:106-114 | the decision for a row is that row's classification |
| SendManualRead.ReadRowsValid | scripts/sendManualWebhooksDec2025.ts:90-169 | the rows read are valid rows of the file, ascending by row number |
| SendManualRead.ReadXlsx | scripts/sendManualWebhooksDec2025.ts:90-169 | the method returns the specified rows or the no-sheet or too-short error |
| SendManualRead.ScanRows | scripts/sendManualWebhooksDec2025.ts:104-168 | the loop collects the rows decided before the first `total` |
| SendManual.BuildWrapper | scripts/sendManualWebhooksDec2025.ts:171-229 | the event id is `manual-dec2025-<file>-<id>-<row>` |
| SendManual.PayloadIds | scripts/sendManualWebhooksDec2025.ts:180-226 | the payload's id, transaction id and master id are all the row's transaction id |
| SendManual.PayloadTender | scripts/sendManualWebhooksDec2025.ts:176-212 | tender amount, tender total and total amount are cash plus card |
| SendManual.BodyDates | scripts/sendManualWebhooksDec2025.ts:184-221 | the body's and payload's creation dates and the transaction date are the checkout's ISO text |
| SendManual.WrapperAmounts | scripts/sendManualWebhooksDec2025.ts:176-213 | the payload's cash tender is the row's cash tendered and its amount due the row's |
| SendManual.BodyFields | scripts/sendManualWebhooksDec2025.ts:215-228 | the body carries the event id and the payload, and no top-level cash or amount due |
| SendManual.EventIdsDistinct | scripts/sendManualWebhooksDec2025.ts:171-173 | rows with different row numbers get different event ids |
| SendManual.RouteRecordsSentRow | scripts/sendManualWebhooksDec2025.ts:171-229 | the webhook route records a sent row under its event id, with its cash less the amount due |
| SendManual.OrElse | scripts/sendManualWebhooksDec2025.ts:251-257 | `a ?? b`: the first present value |
| SendManual.StripTrailingSlash | scripts/sendManualWebhooksDec2025.ts:256 | one trailing slash is removed, nothing else |
| SendManual.ParseArgsDefaults | scripts/sendManualWebhooksDec2025.ts:241-264 | with no arguments: the default file joined to the working directory, the default day, the base URL from the environment or localhost, no limit and no dry run |
| SendManual.ParseArgsGiven | scripts/sendManualWebhooksDec2025.ts:241-264 | a flag followed by a value sets that option to the value |
| SendManual.DryRunFlag | scripts/sendManualWebhooksDec2025.ts:261 | dry run exactly when `--dry-run` or `--dry` is among the arguments |
| SendManual.RowsForDay | scripts/sendManualWebhooksDec2025.ts:274 | the rows kept are exactly those whose Eastern day is the chosen day |
| SendManual.RowsForDayIncreasing | scripts/sendManualWebhooksDec2025.ts:274 | filtering keeps the rows ascending |
| SendManual.TakeLimit | scripts/sendManualWebhooksDec2025.ts:303 | a positive limit keeps that many leading rows (or all); otherwise all rows |
| SendManual.Headers | scripts/sendManualWebhooksDec2025.ts:316-322 | JSON content type always, and the auth header exactly when a non-empty token is given |
| SendManual.Clip | scripts/sendManualWebhooksDec2025.ts:332 | `text.slice(0, 500)`: a prefix of at most 500 characters, the whole text when shorter |
| SendManual.DeliveredMeaning | scripts/sendManualWebhooksDec2025.ts:324-333 | a row is delivered exactly when its post answers ok |
| SendManual.DryRunPostsNothing | scripts/sendManualWebhooksDec2025.ts:311-314 | a dry run posts nothing and does not fail |
| SendManual.PostsInOrder | scripts/sendManualWebhooksDec2025.ts:305-339 | rows are posted in order, every one before the last delivered, stopping at the first failure; without a failure every row is posted |
| SendManual.PostedIdsDistinct | scripts/sendManualWebhooksDec2025.ts:305-339 | no event id is posted twice |
| SendManual.SendRows | scripts/sendManualWebhooksDec2025.ts:305-339 | the loop posts the specified rows |
| SendManual.SelectedIs | scripts/sendManualWebhooksDec2025.ts:273-303 | the rows sent are the day's rows cut to the limit |
| SendManual.SelectedRows | scripts/sendManualWebhooksDec2025.ts:273-303 | every selected row is a row read, on the chosen day, and they stay ascending |
| SendManual.ContextDryRun | scripts/sendManualWebhooksDec2025.ts:261-311 | the sending context is dry exactly when the options say so |
| SendManual.MainPostsSelectedRows | scripts/sendManualWebhooksDec2025.ts:270-342 | a read error stops the script with nothing posted; a dry run posts nothing; otherwise the posts are the selected rows' events in order |
| SendManual.RunMain | scripts/sendManualWebhooksDec2025.ts:270-342 | the script's outcome is the specified one |
| SheetImport.CustomerIdIdentifies | scripts/importIsaSheet.ts:88-91 | names with the same non-empty slug get the same customer id, different slugs different ids; a name with no slug falls back to the row number |
| SheetImport.AppointmentIdOfTextMeaning | scripts/importIsaSheet.ts:93-98 | texts equal up to case and surrounding blanks get the same appointment id; a blank text falls back to the row number, and a text with something in it never does |
| SheetImport.NetCash | scripts/importIsaSheet.ts:185 | `Math.max(cash - changeDue, 0)`: never negative, and the difference when that is not |
| SheetImport.QuantityOr1 | scripts/importIsaSheet.ts:144 | `x \|\| 1`: never zero, and x when x is not zero |
| SheetImport.BodyCashFields | scripts/importIsaSheet.ts:188-229 | the payload JSON carries the net cash as `cashAmount` and the amount paid as `amountDue` |
| SheetImport.EventValueFields | scripts/importIsaSheet.ts:231-237 | the stored payload wraps the body, with no top-level cash or amount due |
| SheetImport.StoredCash | scripts/importIsaSheet.ts:239-254 | no cash is stored with the row; the cash the routes derive from it is the body's cash less its amount due |
| SheetImport.StoredRowShape | scripts/importIsaSheet.ts:239-254 | the stored row has the event id, type `transaction`, action `created`, the checkout as creation date and the UTC midnight of the checkout as day (for years outside 0..99, which `Date.UTC` reads as 19xx) |
| SheetImport.InsertMissing | scripts/importIsaSheet.ts:176-258 | events whose id is already stored are skipped, the rest appended in order, and the count returned; an offline store changes nothing |
| SheetImport.RerunInsertsNothing | scripts/importIsaSheet.ts:176-258 | a second run of the same batch inserts nothing |
| ImportIsa.CellReadersAgree | scripts/importIsaSheet.ts:40-86 | off formula cells, this script's cell readers agree with the backfill's |
| ImportIsa.FormulaNumberText | scripts/importIsaSheet.ts:56-58 | a formula with a number result reads as that number's text (blank for 0), where the other scripts give `[object Object]` |
| ImportIsa.ProviderIndex | scripts/importIsaSheet.ts:119-121 | the directory entry found is the first whose name matches up to case and blanks, and none exactly when no entry matches |
| ImportIsa.DirectoryNamesFound | scripts/importIsaSheet.ts:119-124 | every name in the shipped directory is found |
| ImportIsa.BuildTransaction | scripts/importIsaSheet.ts:134-164 | the transaction keeps the row's number, item, id, provider and checkout; its customer name is never empty |
| ImportIsa.ReadRowMeaning | scripts/importIsaSheet.ts:110-166 | rows before 24, with no item, `total`, no id or no provider are skipped; an unknown provider or an unreadable checkout throws; otherwise the row is taken |
| ImportIsa.ReadRowsOrdered | scripts/importIsaSheet.ts:109-167 | the transactions read are valid and ascending by row number |
| ImportIsa.ReadRowsError | scripts/importIsaSheet.ts:109-167 | an error is the first failing row's |
| ImportIsa.ReadRowsSucceed | scripts/importIsaSheet.ts:109-167 | with no failing row the read succeeds |
| ImportIsa.ReadRowsComplete | scripts/importIsaSheet.ts:109-167 | every taken row is among the transactions read |
| ImportIsa.ReadTransactions | scripts/importIsaSheet.ts:109-167 | the row loop reads the specified transactions |
| ImportIsa.EventsOf | scripts/importIsaSheet.ts:177-237 | one event per transaction, in order |
| ImportIsa.EventIdsDistinct | scripts/importIsaSheet.ts:178 | different row numbers give different event ids |
| ImportIsa.EventOfId | scripts/importIsaSheet.ts:178-254 | the event is stored under `manual-<id>-<row>` |
| ImportIsa.EventsUnique | scripts/importIsaSheet.ts:177-178 | the batch's event ids are distinct |
| ImportIsa.ImportedCash | scripts/importIsaSheet.ts:185-220 | the stored cash is never negative and is cash less change due when that is not; the derived cash is net cash less amount paid |
| ImportIsa.Import | scripts/importIsaSheet.ts:100-261 | a read error changes nothing; otherwise the missing events are appended in order and counted |
| ImportIsa.ImportOnceOnly | scripts/importIsaSheet.ts:176-258 | into a store with none of its ids, every event is inserted; a rerun inserts none |
| ImportCompare.TargetProviderId | scripts/importCompareSheet.ts:8-11 | the id found belongs to an entry named Isabel Guerrero; none exactly when no entry is |
| ImportCompare.NotTargetByHead | scripts/importCompareSheet.ts:97 | a name not starting with `i` in any case is not the target |
| ImportCompare.TargetIsTarget | scripts/importCompareSheet.ts:8-11 | the target name matches itself |
| ImportCompare.TargetInDirectory | scripts/importCompareSheet.ts:9-15 | the shipped directory holds the target, so the script loads |
| ImportCompare.BlankNotTarget | scripts/importCompareSheet.ts:96-97 | a blank name is never the target |
| ImportCompare.BuildTask | scripts/importCompareSheet.ts:105-155 | the import task keeps the row's number and checkout; its event id is `manual-compare-<id>-<row>`, and its body the row's id, item and the target's id |
| ImportCompare.BuildTaskAmounts | scripts/importCompareSheet.ts:118-151 | the body's cash is the net cash, and amount due, change due and tip are the cells' numbers |
| ImportCompare.ReadRowMeaning | scripts/importCompareSheet.ts:87-104 | a row is taken exactly when it is past the header, has an item that is not `total`, an id, the target as provider and a readable checkout |
| ImportCompare.TasksOrdered | scripts/importCompareSheet.ts:85-156 | the import tasks are valid and ascending by row number |
| ImportCompare.TasksComplete | scripts/importCompareSheet.ts:85-156 | every taken row is among the import tasks |
| ImportCompare.ShippedDirectoryLoads | scripts/importCompareSheet.ts:13-15 | with the shipped directory the script never stops for a missing target |
| ImportCompare.EventsOf | scripts/importCompareSheet.ts:166-179 | one event per task, in order |
| ImportCompare.EventIdsDistinct | scripts/importCompareSheet.ts:154 | tasks of different rows get different event ids |
| ImportCompare.EventOfId | scripts/importCompareSheet.ts:181-183 | the event is stored under the import task's event id |
| ImportCompare.EventsUnique | scripts/importCompareSheet.ts:154-155 | the batch's event ids are distinct |
| ImportCompare.ImportedCash | scripts/importCompareSheet.ts:120-143 | no cash is stored; the derived cash is the body's cash less its amount due |
| ImportCompare.Import | scripts/importCompareSheet.ts:76-209 | a read error changes nothing; otherwise the missing events are appended in order and counted |
| ImportCompare.ReadTasks | scripts/importCompareSheet.ts:85-156 | the row loop reads the specified tasks |
| ImportCompare.ImportOnceOnly | scripts/importCompareSheet.ts:164-206 | into a store with none of its ids, every event is inserted; a rerun inserts none |
| Sheet.CellToString | scripts/backfillDec2025.ts:53-67 | an empty cell reads as `""` and a text cell as its trimmed text |
| Sheet.CellToStringTrimmed | scripts/backfillDec2025.ts:53-67 | every reading is trimmed |
| Sheet.CellToStringAnyResult | scripts/importIsaSheet.ts:40-62 | off formula cells, the reading that takes any formula result agrees with the one that takes only text results |
| Sheet.CellToNumber | scripts/backfillDec2025.ts:69-76 | a number cell is its number, an empty cell 0 |
| Sheet.CentsCellToNumber | scripts/backfillDec2025.ts:69-76 | a text cell holding an amount with two decimals reads back as that amount |
| Sheet.ReplaceSpacedDashes | scripts/backfillDec2025.ts:82 | replacing spaced dashes never lengthens the text |
| Sheet.ReplaceSpacedDashesUnchanged | scripts/backfillDec2025.ts:82 | text with no spaced dash is unchanged |
| Sheet.ParseLocalDate | scripts/backfillDec2025.ts:78-89 | a date cell is its instant; a blank cell gives nothing; otherwise the text with ` ET` appended is tried first, then the text alone |
| Js.RoundHalfUp | scripts/backfillDec2025.ts:114 | `Math.round` lands within half a unit of its argument |
| Js.ParseFormatCents | scripts/backfillDec2025.ts:111-115 | an amount written with `toFixed(2)` reads back as itself |
| Js.ParseNumberToString | scripts/backfillDec2025.ts:69-76 | a short decimal written with `toString` reads back as itself |
| Js.ParseDecimalText | scripts/backfillDec2025.ts:69-76 | a decimal numeral, signed or not, reads as its value |
| Js.ParseRadixText | src/routes/vagaro.ts:10 | `Number` of an unsigned `0x`, `0o` or `0b` literal is its digits read in that base, and NaN without a digit or with a digit outside the base |
| Js.SignedRadixIsNaN | src/routes/vagaro.ts:10 | `Number` of a `0x`, `0o` or `0b` literal with a sign is NaN |
| Js.HexExample | src/routes/metrics.ts:74 | `Number("0x1A")` is 26 |
| Js.OctalExample | src/routes/metrics.ts:74 | `Number("0o17")` is 15 |
| Js.BinaryExample | src/routes/metrics.ts:74 | `Number("0b11")` is 3 |
| Js.HexDigitExample | scripts/manualUpload.ts:238 | `Number("0x1")` is 1 |
| Calendar.UtcMidnightTruncates | scripts/importIsaSheet.ts:252 | `Date.UTC` of an instant's UTC year, month and day is the instant less its time of day, for years outside 0..99 |
| Calendar.UtcMidnightCenturyQuirk | scripts/importIsaSheet.ts:252 | for years 0..99 `Date.UTC` lands in 19xx instead |
| Calendar.DateUtcOfCivil | scripts/backfillDec2025.ts:215 | `Date.UTC(y, m - 1, d)` is the day count of that civil date in milliseconds, within the time range, with 0..99 read as 19xx |
| Calendar.CivilUnique | scripts/backfillDec2025.ts:215 | different valid civil dates are different days |
| Calendar.DateUtc | scripts/backfillDec2025.ts:215 | a defined result lies within the time range |
| Calendar.IsoTail | scripts/backfillDec2025.ts:56 | an ISO text ends in `Z` |
| Ordering.SortBy | scripts/listSheetRange.ts:119-122 | sorting by a key gives an ascending permutation |
| Ordering.SortStrings | scripts/backfillDec2025.ts:784 | `Array.from(keys).sort()` gives the distinct keys strictly ascending, the same keys |
| Ordering.SortedUnique | scripts/backfillDec2025.ts:784 | two strictly sorted sequences of the same elements are equal |

## Left out

- Text case: `Lower`/`Upper` change ASCII letters only; JavaScript's `toLowerCase`/`toUpperCase` also map non-ASCII letters.
- Floating point: numbers are exact reals, so IEEE rounding error is not modelled; `Math.round` is `floor(x + 0.5)` and `toFixed(2)` writes the exact cents, so a value whose double sits just below a half cent can round differently in the source.
- CompareMixup.AmountOf: maps an infinite amount to 0, where `Number(x ?? 0) || 0` keeps `Infinity` (scripts/compareMixupWebhooks.ts:170-183), because amounts are `real`.
- Number to text: plain decimal notation only; JavaScript's exponent notation for very large or very small magnitudes is not modelled.
- Time zones and date text: `Intl.DateTimeFormat` in America/New_York (Eastern day, time of day, wall-clock minutes) and `new Date(string)` are given functions (`Eastern.Oracles`), not derived from tz data or the ECMAScript date grammar. An Invalid Date is `None`.
- Database: Prisma and the raw SQL are modelled by `Store.EventStore`: a sequence of stored events with a unique `eventId`, a create that reports a duplicate as `P2002`, and deletes and updates over it. The JSON extraction the SQL performs in the compare and index queries is modelled on the stored payload. The pay sheet's `/data` query (src/routes/paysheet.ts:66-170: week scope, de-duplication, grouping and the join with the provider percentages) is not modelled: its grouped rows are an input of `Paysheet.DataReply`. The metrics route reads the rows with `findMany` and the payload in JavaScript, which `CashMetrics.EventValue` models. A query returns rows in the table's order unless it sorts them. Cross-process concurrency is not modelled.
- BackfillExisting.TextField: a payload field holding a JSON object or array gives `""`, where Postgres `->>` gives that value's JSON text (scripts/backfillDec2025.ts:545-571); Postgres's JSON text output (key order, spacing, number scale) is not modelled. The key set can then differ for such a record: an `amountDue` of `{"v": 5}` keys as `0.00` here and as `5.00` in the source.
- ManualUpload.ToIsoDateNY: a numeric checkout serial whose date lies outside the time range is an Invalid Date in the source, and `toISODateNY` then throws a RangeError from `formatToParts`, aborting the whole parse (scripts/manualUpload.ts:89-108, 340-341); here the serial gives no date and the row is only invalid. The same holds for an appointment serial, whose `toISOString` throws when the payload is built (scripts/manualUpload.ts:452). Distinguishing an Invalid Date from a missing one would need a third date state throughout the row reader.
- `day` column: the model stores `day` as an instant. Master backfill truncates it to its date on write (the column is `@db.Date`); the other writers store the instant they compute. The December backfill writes the Eastern-midnight instant (scripts/backfillDec2025.ts:918); if the column truncates it to a date, those rows fall before the day's own UTC range, and the index of a rerun misses them.
- `receivedAt` and `new Date()` are the clock parameter `now`.
- VagaroRoute.Post: the 200 reply omits `id: record.id` (src/routes/vagaro.ts:60), because the store keeps no generated row id; `rawBody` (the body's JSON text) is not stored either.
- Backfill `countExistingForDay` (scripts/backfillDec2025.ts:495-517): its counts are only printed.
- Backfill `getExistingTransactionIdsForDay` (scripts/backfillDec2025.ts:519-540): never called.
- Backfill console reports: the XLSX-only summary (scripts/backfillDec2025.ts:743-773) and the run report (823-855) only print.
- compareMixupWebhooks `loadWebhookRows`: the SQL selection by provider ids, week range and `ORDER BY` (scripts/compareMixupWebhooks.ts:153-163) is not modelled; the queried rows are input.
- compareMixupWebhooks `renderMarkdown`: the summary counts, sorting and table text are not modelled; only `formatStatus` and the status columns are.
- sendManualWebhooksDec2025 totals and labels (`moneyKey`, `timeKeyLocal`, the `reduce` of totals): they are only printed.
- Console output, progress messages, delays (`sleep`, `delay`, `--delay-ms`) and exit codes of every script.
- Interactive prompts are answers given as parameters; `__dirname`/`path.resolve` resolution of the fixed file paths is a given path.
- exceljs and csv-parse: a workbook is a sequence of sheets of rows of cells; a file that cannot be read is an error value, whatever exceljs would report.
- HMAC-SHA256, `timingSafeEqual`, UTF-8 decoding and `JSON.parse` in `index.js` are given functions; the HTTP server is modelled as requests with their chunks and the status each gets.

## Findings

| source | as written | input that shows it | evidently intended | confidence | as-written member | corrected member |
|---|---|---|---|---|---|---|
| scripts/backfillDec2025.ts:921-933 | on `P2002` the apply loop `continue`s before adding the candidate's strict key to its day's key set | two export rows of one day with the same strict key and different row numbers, whose stored event the rerun's index does not recognise (change due differs from amount due in cents, and neither change due nor tip is zero): on the rerun the first hits `P2002`, its key stays out of the set, and the second is inserted | a rerun after a successful run inserts nothing; the strict key joins the set on `P2002` as after an insert | not executed | BackfillApply.AsWrittenRerunDuplicates | BackfillApply.RerunInsertsNothing |
| scripts/backfillDec2025.ts:276-308 | a provider name with no letters normalises to `""`, and the loose match `candidate.includes("")` accepts the first directory entry | an export row whose provider cell is blank: it is stored with the first provider's id and an empty provider name | a blank name resolves to nobody, so the row falls back to `Unknown Tech` with no provider id | not executed | BackfillIds.BlankProviderAsWritten | BackfillIds.ResolveProviderId |

The main script is modelled as written: `BackfillMain.Backfill` runs the
apply loop as written and `BackfillRead` resolves providers with
`BackfillIds.ResolveProviderIdAsWritten`. The corrected apply loop is the
`asWritten = false` instance of `BackfillApply.Run`, and
`BackfillMain.RerunInsertsNothingEndToEnd` proves the whole script
idempotent with it. `BackfillIds.ResolveAgreesWithSource` proves that the
corrected lookup differs from the source only on names with no letters.
