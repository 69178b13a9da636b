/**
 * `GET /metrics/cash-daily?month=YYYY-MM` (src/routes/metrics.ts): the
 * cash collected per UTC day over one month of stored events.
 */
module CashMetrics {
  import opened Wrappers
  import opened Text
  import opened Js
  import Calendar
  import Ordering
  import Store

  // ---- Numbers as the route adds them ------------------------------------------

  /** `x || 0` on a number: NaN and 0 become 0. */
  function OrZero(x: Number): (r: Number)
    ensures r.Finite? ==> r == x || r == Finite(0.0)
    ensures x.Finite? ==> r == x
  {
    if Truthy(Num(x)) then x else Finite(0.0)
  }

  /** `Math.round(x * 100) / 100`. */
  function RoundCents(x: Number): (r: Number)
    ensures x.Finite? ==> r.Finite? && x.value - 0.005 < r.value <= x.value + 0.005
  {
    match x
    case Finite(v) => Finite(RoundHalfUp(v * 100.0) as real / 100.0)
    case _ => x
  }

  /** `toNumber`: `null`/`undefined` and non-finite numbers give None. */
  function ToFinite(v: Value): (r: Option<real>)
    ensures r.Some? <==> !IsNullish(v) && ToNumber(v).Finite?
    ensures r.Some? ==> r.value == ToNumber(v).value
  {
    if IsNullish(v) then None
    else
      var n := ToNumber(v);
      if n.Finite? then Some(n.value) else None
  }

  // ---- Month ----------------------------------------------------------------------

  /** `currentMonth()`: the UTC year and zero-padded month of now, `YYYY-MM`. */
  function CurrentMonth(now: int): (r: string)
    ensures '|' !in r
  {
    var c := Calendar.UtcDate(now);
    IntToString(c.year) + "-" + Pad2(c.month)
  }

  /**
   * `monthStr.split("-").map(Number)` and the check on it: None (400) when
   * the year is 0 or NaN, or the month is absent, 0, NaN or outside 1..12;
   * otherwise the year as a number and the month.
   */
  function ParseMonth(s: string): (r: Option<(Number, real)>)
    ensures r.Some? ==> 1.0 <= r.value.1 <= 12.0 && Truthy(Num(r.value.0))
    ensures r.Some? ==> r.value.0 == ParseNumber(Split(s, '-')[0])
    ensures r.Some? <==> |Split(s, '-')| >= 2 && Truthy(Num(ParseNumber(Split(s, '-')[0])))
                         && ParseNumber(Split(s, '-')[1]).Finite?
                         && 1.0 <= ParseNumber(Split(s, '-')[1]).value <= 12.0
  {
    var parts := Split(s, '-');
    var year := ParseNumber(parts[0]);
    // A missing second part is `undefined`, which is falsy like NaN.
    var mon := if |parts| >= 2 then ParseNumber(parts[1]) else NaN;
    if !Truthy(Num(year)) || !Truthy(Num(mon)) then None
    else if mon.Infinity? then None
    else if mon.value < 1.0 || mon.value > 12.0 then None
    else Some((year, mon.value))
  }

  /** A year written without sign or leading zeros and a two-digit month are accepted as written. */
  lemma MonthAccepted(y: nat, m: nat)
    requires y >= 1 && 1 <= m <= 12
    ensures ParseMonth(NatToString(y) + "-" + Pad2(m)) == Some((Finite(y as real), m as real))
  {
    hide Split, ParseNumber, NatToString, Pad2, DigitsValue;
    var a, b := NatToString(y), Pad2(m);
    assert '-' !in a by {
      assert forall i :: 0 <= i < |a| ==> IsDigit(a[i]);
    }
    assert '-' !in b by {
      assert forall i :: 0 <= i < |b| ==> IsDigit(b[i]);
    }
    SplitAfterPart(a, '-', b);
    SplitOfPart(b, '-');
    assert a + "-" + b == a + ['-'] + b;
    assert Split(a + "-" + b, '-') == [a, b];
    ParseDigits(a);
    NatToStringValue(y);
    Pad2Value(m);
    ParseDigits(b);
  }

  /**
   * `[Date.UTC(year, mon - 1, 1), Date.UTC(year, mon, 1))`; None when either
   * end is an invalid date (an infinite year, or one out of range), which
   * the query then rejects.
   */
  function MonthRange(year: Number, mon: real): (r: Option<(int, int)>)
    requires 1.0 <= mon <= 12.0
  {
    if !year.Finite? then None
    else
      var y := Trunc(year.value);
      var start := Calendar.DateUtc(y, Trunc(mon - 1.0), 1, 0, 0, 0);
      var end := Calendar.DateUtc(y, Trunc(mon), 1, 0, 0, 0);
      if start.Some? && end.Some? then Some((start.value, end.value)) else None
  }

  /** The first of the next month is as many days on as the month has. */
  lemma NextMonthStart(y: int, m: int)
    requires 1 <= m <= 12
    ensures Calendar.DaysFromCivil(y + m / 12, m % 12 + 1, 1)
            == Calendar.DaysFromCivil(y, m, 1) + Calendar.DaysInMonth(y, m)
  {
    if m == 12 {
      Calendar.YearLength(y);
    }
  }

  /** For the years 100..200000 both ends of any month are valid time values. */
  lemma MonthInRange(y: int, m: int)
    requires 100 <= y <= 200000 && 1 <= m <= 12
    ensures var d := Calendar.DaysFromCivil(y, m, 1);
            -Calendar.MaxTime <= d * Calendar.MsPerDay <= Calendar.MaxTime
            && -Calendar.MaxTime <= (d + Calendar.DaysInMonth(y, m)) * Calendar.MsPerDay <= Calendar.MaxTime
  {
    var d := Calendar.DaysFromCivil(y, m, 1);
    assert -700000 <= Calendar.DayFromYear(y) <= 73000000;
    assert -700000 <= d && d + Calendar.DaysInMonth(y, m) <= 73000400;
  }

  /** The range is the whole month: from its first midnight, as many days long as the month has. */
  lemma MonthSpan(y: int, m: nat)
    requires 100 <= y <= 200000 && 1 <= m <= 12
    ensures MonthRange(Finite(y as real), m as real)
            == Some((Calendar.DaysFromCivil(y, m, 1) * Calendar.MsPerDay,
                     (Calendar.DaysFromCivil(y, m, 1) + Calendar.DaysInMonth(y, m)) * Calendar.MsPerDay))
  {
    hide Calendar.DaysFromCivil, Calendar.DaysInMonth, Calendar.DayFromYear, Trunc;
    TruncInt(y);
    TruncInt(m - 1);
    TruncInt(m);
    assert m as real - 1.0 == (m - 1) as real;
    MonthInRange(y, m);
    NextMonthStart(y, m);
    assert (m - 1) / 12 == 0 && (m - 1) % 12 == m - 1;
  }

  lemma TruncInt(n: int)
    ensures Trunc(n as real) == n
  {
  }

  /** Without a `month` query the range is the current UTC month, which contains now. */
  lemma CurrentMonthContainsNow(now: int)
    requires 100 <= Calendar.UtcDate(now).year <= 200000
    ensures var c := Calendar.UtcDate(now);
            ParseMonth(CurrentMonth(now)) == Some((Finite(c.year as real), c.month as real))
            && var range := MonthRange(Finite(c.year as real), c.month as real);
               range.Some? && range.value.0 <= now < range.value.1
  {
    var c := Calendar.UtcDate(now);
    assert IntToString(c.year) == NatToString(c.year);
    MonthAccepted(c.year, c.month);
    MonthSpan(c.year, c.month);
    var z := Calendar.DayOf(now);
    assert Calendar.CivilFromDays(z) == c;
    Calendar.FloorDay(now);
    assert c.day <= Calendar.DaysInMonth(c.year, c.month);
  }

  // ---- Per-event value ------------------------------------------------------------------

  /**
   * The cash an event counts for: the payload's own numeric
   * `cash_collected`, else `max(0, cash - due)` when both amounts are
   * numbers (camelCase first, then lower case), else nothing.  The stored
   * `cash_collected` column is not read.
   */
  function EventValue(e: Store.StoredEvent): (r: Option<Number>)
    ensures Get(e.payload, "cash_collected").Num? ==> r == Some(Get(e.payload, "cash_collected").n)
    ensures r.Some? && !Get(e.payload, "cash_collected").Num? ==> r.value.Finite? && r.value.value >= 0.0
  {
    var p := if Truthy(e.payload) then e.payload else Obj(map[]);
    if Get(p, "cash_collected").Num? then Some(Get(p, "cash_collected").n)
    else
      var cash := ToFinite(Coalesce(Get(p, "cashAmount"), Get(p, "cashamount")));
      var due := ToFinite(Coalesce(Get(p, "amountDue"), Get(p, "amountdue")));
      if cash.Some? && due.Some? then
        Some(Finite(if cash.value - due.value > 0.0 then cash.value - due.value else 0.0))
      else None
  }

  /** An event's value does not depend on the stored `cash_collected` column or `day`. */
  lemma ValueIgnoresStoredColumns(e: Store.StoredEvent, cash: Option<real>, day: Option<int>)
    ensures EventValue(e.(cashCollected := cash, day := day)) == EventValue(e)
  {
  }

  /** Amounts in the payload: cash tendered less the amount due, never below 0. */
  lemma ValueOfAmounts(e: Store.StoredEvent, cash: real, due: real)
    requires e.payload.Obj? && "cash_collected" !in e.payload.fields
    requires Get(e.payload, "cashAmount") == Num(Finite(cash)) && Get(e.payload, "amountDue") == Num(Finite(due))
    ensures EventValue(e) == Some(Finite(if cash > due then cash - due else 0.0))
  {
  }

  // ---- Daily totals ---------------------------------------------------------------------

  /** `isoDateUTC`: `YYYY-MM-DD` of the UTC date. */
  function IsoDateUtc(t: int): (r: string)
    ensures '|' !in r
  {
    Calendar.FormatYmd(Calendar.UtcDate(t))
  }

  predicate AllCreated(events: seq<Store.StoredEvent>) {
    forall i :: 0 <= i < |events| ==> events[i].createdDate.Some?
  }

  function DayKey(e: Store.StoredEvent): string
    requires e.createdDate.Some?
  {
    IsoDateUtc(e.createdDate.value)
  }

  /** The `totals` record: a total per day, and the days in the order they were first added. */
  datatype Totals = Totals(sums: map<string, Number>, order: seq<string>)

  ghost predicate Consistent(t: Totals) {
    Ordering.Distinct(t.order) && forall k :: k in t.sums <==> k in t.order
  }

  /** One step of the loop: `totals[key] = (totals[key] || 0) + val`. */
  function AddEvent(t: Totals, e: Store.StoredEvent): (r: Totals)
    requires e.createdDate.Some?
    requires Consistent(t)
    ensures Consistent(r)
    ensures EventValue(e).None? ==> r == t
    ensures forall k :: k in r.sums <==> k in t.sums || (EventValue(e).Some? && k == DayKey(e))
    ensures forall k :: k in t.sums && k != DayKey(e) ==> r.sums[k] == t.sums[k]
    ensures EventValue(e).Some? ==>
              r.sums[DayKey(e)] == Add(if DayKey(e) in t.sums then OrZero(t.sums[DayKey(e)]) else Finite(0.0), EventValue(e).value)
  {
    match EventValue(e)
    case None => t
    case Some(v) =>
      var key := DayKey(e);
      var prior := if key in t.sums then OrZero(t.sums[key]) else Finite(0.0);
      Totals(t.sums[key := Add(prior, v)], if key in t.sums then t.order else t.order + [key])
  }

  /** The totals after the loop over `events`. */
  function TotalsOf(events: seq<Store.StoredEvent>): (t: Totals)
    requires AllCreated(events)
    ensures Consistent(t)
  {
    if events == [] then Totals(map[], [])
    else
      var n := |events| - 1;
      AddEvent(TotalsOf(events[..n]), events[n])
  }

  /** The loop itself. */
  method DailyTotals(events: seq<Store.StoredEvent>) returns (t: Totals)
    requires AllCreated(events)
    ensures t == TotalsOf(events)
  {
    t := Totals(map[], []);
    for i := 0 to |events|
      invariant t == TotalsOf(events[..i])
    {
      assert events[..i + 1][..i] == events[..i];
      t := AddEvent(t, events[i]);
    }
    assert events[..|events|] == events;
  }

  /** A day has a total exactly when some event of that day has a value. */
  lemma {:induction false} TotalsDays(events: seq<Store.StoredEvent>, k: string)
    requires AllCreated(events)
    ensures k in TotalsOf(events).sums <==>
            exists i :: 0 <= i < |events| && EventValue(events[i]).Some? && DayKey(events[i]) == k
  {
    hide AddEvent, EventValue, DayKey;
    if events != [] {
      var n := |events| - 1;
      TotalsDays(events[..n], k);
      assert forall i :: 0 <= i < n ==> events[..n][i] == events[i];
    }
  }

  /** The sum of the values of the events of day `k`. */
  function DaySum(events: seq<Store.StoredEvent>, k: string): real
    requires AllCreated(events)
    requires forall i :: 0 <= i < |events| ==> EventValue(events[i]).Some? ==> EventValue(events[i]).value.Finite?
  {
    if events == [] then 0.0
    else
      var n := |events| - 1;
      var e := events[n];
      DaySum(events[..n], k) + if EventValue(e).Some? && DayKey(e) == k then EventValue(e).value.value else 0.0
  }

  /** When every value is finite, each day's total is the plain sum of its values. */
  lemma {:induction false} TotalsSum(events: seq<Store.StoredEvent>, k: string)
    requires AllCreated(events)
    requires forall i :: 0 <= i < |events| ==> EventValue(events[i]).Some? ==> EventValue(events[i]).value.Finite?
    requires k in TotalsOf(events).sums
    ensures TotalsOf(events).sums[k] == Finite(DaySum(events, k))
  {
    hide AddEvent, EventValue, DayKey, Consistent, Add, OrZero, IsoDateUtc;
    var n := |events| - 1;
    var front := events[..n];
    assert forall i :: 0 <= i < n ==> front[i] == events[i];
    var e := events[n];
    var t := TotalsOf(front);
    assert TotalsOf(events) == AddEvent(t, e);
    var v := if EventValue(e).Some? && DayKey(e) == k then EventValue(e).value.value else 0.0;
    assert DaySum(events, k) == DaySum(front, k) + v;
    var prior := if k in t.sums then DaySum(front, k) else 0.0;
    if k in t.sums {
      TotalsSum(front, k);
    } else {
      TotalsDays(front, k);
      ZeroSum(front, k);
    }
    if EventValue(e).Some? && DayKey(e) == k {
      assert (if k in t.sums then OrZero(t.sums[k]) else Finite(0.0)) == Finite(prior);
      assert AddEvent(t, e).sums[k] == Add(Finite(prior), EventValue(e).value);
    } else {
      assert k in t.sums;
    }
  }

  /** A day with no valued event sums to 0. */
  lemma {:induction false} ZeroSum(events: seq<Store.StoredEvent>, k: string)
    requires AllCreated(events)
    requires forall i :: 0 <= i < |events| ==> EventValue(events[i]).Some? ==> EventValue(events[i]).value.Finite?
    requires k !in TotalsOf(events).sums
    ensures DaySum(events, k) == 0.0
  {
    hide AddEvent, EventValue, DayKey;
    if events != [] {
      var n := |events| - 1;
      var front := events[..n];
      assert forall i :: 0 <= i < n ==> front[i] == events[i];
      TotalsDays(events, k);
      TotalsDays(front, k);
      ZeroSum(front, k);
    }
  }

  // ---- The response -----------------------------------------------------------------------

  /** `JSON.stringify` of a number: NaN and the infinities become `null`. */
  function JsonNumber(n: Number): Value {
    if n.Finite? then Num(n) else Null
  }

  /** `Object.keys(totals).sort().map(k => ({ day: k, total: round(totals[k]) }))`. */
  function Results(t: Totals): (r: seq<(string, Number)>)
    requires Consistent(t)
    ensures |r| == |t.order|
  {
    SortedDays(t);
    Rows(Ordering.SortStrings(t.order), t.sums)
  }

  /** One row per day with a total, in increasing order of day, each with its rounded total. */
  lemma ResultsMeaning(t: Totals)
    requires Consistent(t)
    ensures var r := Results(t);
            Ordering.StrictlySorted(DaysOf(r))
            && (forall k :: k in t.sums <==> exists i :: 0 <= i < |r| && r[i].0 == k)
            && forall i :: 0 <= i < |r| ==> r[i].0 in t.sums && r[i].1 == RoundCents(t.sums[r[i].0])
  {
    hide Ordering.Distinct, Ordering.SortStrings, Ordering.StrictlySorted, RoundCents, Rows, DaysOf;
    var days := Ordering.SortStrings(t.order);
    SortedDays(t);
    var r := Results(t);
    assert r == Rows(days, t.sums);
    assert DaysOf(r) == days;
    forall k | k in t.sums
      ensures exists i :: 0 <= i < |r| && r[i].0 == k
    {
      var i :| 0 <= i < |days| && days[i] == k;
      assert r[i].0 == k;
    }
  }

  /** The days of the result rows. */
  function DaysOf(r: seq<(string, Number)>): (days: seq<string>)
    ensures |days| == |r| && forall i :: 0 <= i < |r| ==> days[i] == r[i].0
  {
    seq(|r|, i requires 0 <= i < |r| => r[i].0)
  }

  /** Each day with its rounded total. */
  function Rows(days: seq<string>, sums: map<string, Number>): (r: seq<(string, Number)>)
    requires forall k :: k in days ==> k in sums
    ensures |r| == |days|
    ensures forall i :: 0 <= i < |r| ==> r[i].0 == days[i] && r[i].1 == RoundCents(sums[days[i]])
  {
    seq(|days|, i requires 0 <= i < |days| => (days[i], RoundCents(sums[days[i]])))
  }

  /** The sorted days are the days of the totals, each once. */
  lemma SortedDays(t: Totals)
    requires Consistent(t)
    ensures var days := Ordering.SortStrings(t.order);
            |days| == |t.order| && forall k :: k in days <==> k in t.sums
  {
    hide Ordering.SortStrings, Ordering.StrictlySorted;
    var days := Ordering.SortStrings(t.order);
    forall k ensures k in days <==> k in t.order {
      assert k in days <==> k in multiset(days);
      assert k in t.order <==> k in multiset(t.order);
    }
    assert |days| == |multiset(days)| == |t.order|;
  }

  function ResultsValue(r: seq<(string, Number)>): Value {
    Arr(seq(|r|, i requires 0 <= i < |r| => Obj(map["day" := Str(r[i].0), "total" := JsonNumber(r[i].1)])))
  }

  const InvalidMonth := Reply(400, ErrorBody("Invalid month. Use YYYY-MM."))

  /** What the route answers for `?month=` (`""` when absent) on a table holding `events`. */
  function CashDailySpec(events: seq<Store.StoredEvent>, online: bool, month: string, now: int): (r: Reply)
    ensures r.status == 400 <==> ParseMonth(if month != "" then month else CurrentMonth(now)).None?
  {
    var monthStr := if month != "" then month else CurrentMonth(now);
    match ParseMonth(monthStr)
    case None => InvalidMonth
    case Some((year, mon)) =>
      match MonthRange(year, mon)
      case None => Reply(500, ErrorBody(Store.DatabaseError))
      case Some((start, end)) =>
        if !online then Reply(500, ErrorBody(Store.DatabaseError))
        else
          var rows := Ordering.SortBy(Store.CreatedRange(events, start, end), Store.CreatedKey);
          assert AllCreated(rows) by {
            forall i | 0 <= i < |rows| ensures rows[i].createdDate.Some? {
              assert rows[i] in multiset(rows);
            }
          }
          Reply(200, Obj(map["month" := Str(monthStr), "results" := ResultsValue(Results(TotalsOf(rows)))]))
  }

  /** The route handler. */
  method CashDaily(store: Store.EventStore, month: string, now: int) returns (reply: Reply)
    ensures reply == CashDailySpec(store.events, store.online, month, now)
  {
    var monthStr := if month != "" then month else CurrentMonth(now);
    var parsed := ParseMonth(monthStr);
    if parsed.None? {
      return InvalidMonth;
    }
    var (year, mon) := parsed.value;
    var range := MonthRange(year, mon);
    if range.None? {
      return Reply(500, ErrorBody(Store.DatabaseError));
    }
    var (start, end) := range.value;
    var rows := store.QueryCreatedRange(start, end);
    if rows.Err? {
      return Reply(500, ErrorBody(rows.error));
    }
    assert AllCreated(rows.value) by {
      forall i | 0 <= i < |rows.value| ensures rows.value[i].createdDate.Some? {
        assert rows.value[i] in multiset(rows.value);
      }
    }
    var totals := DailyTotals(rows.value);
    reply := Reply(200, Obj(map["month" := Str(monthStr), "results" := ResultsValue(Results(totals))]));
  }
}
