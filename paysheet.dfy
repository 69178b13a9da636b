/**
 * The pay sheet routes (src/routes/paysheet.ts): the week a report covers,
 * each provider's pay split for that week, and the per-provider
 * percentage settings that `POST /paysheet/percentage` edits.
 */
module Paysheet {
  import opened Wrappers
  import opened Text
  import opened Js
  import Calendar
  import Employees
  import Store

  // ---- Rounding ---------------------------------------------------------------------

  /** `Number.EPSILON`, 2^-52. */
  const Epsilon: real := 1.0 / 4503599627370496.0

  /** `roundCurrency`: `Math.round((value + Number.EPSILON) * 100) / 100`. */
  function RoundCurrency(v: real): (r: real)
    ensures v - 0.005 < r <= v + 0.005 + Epsilon
  {
    var n := RoundHalfUp((v + Epsilon) * 100.0);
    n as real / 100.0
  }

  /** A whole number of cents is left alone. */
  lemma RoundWholeCents(n: int)
    ensures RoundCurrency(n as real / 100.0) == n as real / 100.0
  {
    hide RoundHalfUp;
    var z := (n as real / 100.0 + Epsilon) * 100.0;
    assert z == n as real + 100.0 * Epsilon;
    RoundNear(n, 100.0 * Epsilon);
  }

  lemma RoundNear(n: int, e: real)
    requires 0.0 <= e < 0.5
    ensures RoundHalfUp(n as real + e) == n
  {
  }

  /** Rounding twice is rounding once. */
  lemma RoundIdempotent(v: real)
    ensures RoundCurrency(RoundCurrency(v)) == RoundCurrency(v)
  {
    RoundWholeCents(RoundHalfUp((v + Epsilon) * 100.0));
  }

  /** A non-negative amount rounds to a non-negative amount. */
  lemma RoundNonNegative(v: real)
    requires v >= 0.0
    ensures RoundCurrency(v) >= 0.0
  {
  }

  /** `Math.round(numeric * 100) / 100` (no epsilon here). */
  function RoundHundredths(v: real): (r: real)
    ensures v - 0.005 < r <= v + 0.005
  {
    RoundHalfUp(v * 100.0) as real / 100.0
  }

  // ---- Validating settings ------------------------------------------------------------

  /**
   * `parsePercentage`: absent or "" is no value; anything `Number` does not
   * make finite, or that lies outside 0..100, is an error; otherwise the
   * value rounded to hundredths.
   */
  function ParsePercentage(v: Value): (r: Result<Option<real>, string>)
    ensures r.Ok? && r.value.Some? ==> 0.0 <= r.value.value <= 100.0
    ensures r == Ok(None) <==> IsNullish(v) || v == Str("")
    ensures r.Err? <==> !IsNullish(v) && v != Str("")
                        && (!ToNumber(v).Finite? || ToNumber(v).value < 0.0 || ToNumber(v).value > 100.0)
  {
    if IsNullish(v) || v == Str("") then Ok(None)
    else
      var n := ToNumber(v);
      if !n.Finite? then Err("Percentage must be a number")
      else if n.value < 0.0 || n.value > 100.0 then Err("Percentage must be between 0 and 100")
      else
        var p := RoundHundredths(n.value);
        assert 0 <= RoundHalfUp(n.value * 100.0) <= 10000;
        Ok(Some(p))
  }

  /** An accepted percentage is its input to the nearest hundredth. */
  lemma PercentageNearInput(v: Value)
    requires ParsePercentage(v).Ok? && ParsePercentage(v).value.Some?
    ensures var p := ParsePercentage(v).value.value;
            ToNumber(v).Finite? && ToNumber(v).value - 0.005 < p <= ToNumber(v).value + 0.005
  {
  }

  predicate IsCurrencyNoise(c: char) {
    c == '$' || c == ',' || IsSpace(c)
  }

  /** `value.replace(/[$,\s]/g, "")`. */
  function CleanAmount(s: string): (r: string)
    ensures |r| <= |s|
    ensures forall i :: 0 <= i < |r| ==> !IsCurrencyNoise(r[i])
  {
    Keep(s, c => !IsCurrencyNoise(c))
  }

  /**
   * `parseCurrency`: absent or "" is no value; a number must be finite and
   * may be negative; text loses `$`, commas and white space, is no value
   * when nothing is left, and must then be a finite number that is not
   * negative; any other kind of value is an error.  Accepted amounts are
   * rounded to cents.
   */
  function ParseCurrency(v: Value): (r: Result<Option<real>, string>)
    ensures v.Str? && r.Ok? && r.value.Some? ==> r.value.value >= 0.0
    ensures r.Ok? && r.value.Some? ==> v.Num? || v.Str?
    ensures !IsNullish(v) && !v.Num? && !v.Str? ==> r.Err?
    ensures v.Num? ==> r == if v.n.Finite? then Ok(Some(RoundCurrency(v.n.value))) else Err("Amount must be a finite number")
  {
    hide ParseNumber, CleanAmount, RoundCurrency;
    if IsNullish(v) || v == Str("") then Ok(None)
    else if v.Num? then
      if !v.n.Finite? then Err("Amount must be a finite number") else Ok(Some(RoundCurrency(v.n.value)))
    else if v.Str? then
      var cleaned := CleanAmount(v.s);
      if cleaned == "" then Ok(None)
      else
        var n := ParseNumber(cleaned);
        if !n.Finite? then Err("Amount must be a number")
        else if n.value < 0.0 then Err("Amount must be zero or positive")
        else RoundNonNegative(n.value); Ok(Some(RoundCurrency(n.value)))
    else Err("Amount must be a number or string")
  }

  /** Negative text is refused, even where the same negative number is accepted. */
  lemma NegativeTextRefused(s: string)
    requires CleanAmount(s) != "" && ParseNumber(CleanAmount(s)).Finite? && ParseNumber(CleanAmount(s)).value < 0.0
    ensures ParseCurrency(Str(s)) == Err("Amount must be zero or positive")
  {
    hide ParseNumber, CleanAmount;
  }

  /** Text made only of currency noise is no value rather than an error. */
  lemma NoiseIsNoValue(s: string)
    requires forall i :: 0 <= i < |s| ==> IsCurrencyNoise(s[i])
    ensures ParseCurrency(Str(s)) == Ok(None)
  {
  }

  /** Decimal text is made of digits and at most a point. */
  lemma DecimalTextAlphabet(scaled: nat, k: nat)
    ensures forall i :: 0 <= i < |DecimalText(scaled, k)| ==> IsDigit(DecimalText(scaled, k)[i]) || DecimalText(scaled, k)[i] == '.'
  {
    hide NatToString, PadStart;
    var n := NatToString(scaled);
    if k > 0 {
      var digits := PadStart(n, k + 1, '0');
      ZeroPadValue(n, k + 1);
      var cut := |digits| - k;
      var t := digits[..cut] + "." + digits[cut..];
      assert DecimalText(scaled, k) == t;
      forall i | 0 <= i < |t| ensures IsDigit(t[i]) || t[i] == '.' {
        if i < cut {
          assert t[i] == digits[i];
        } else if i > cut {
          assert t[i] == digits[i - 1];
        }
      }
    }
  }

  /** Removing currency noise from `$` and clean text gives the clean text. */
  lemma CleanDollar(t: string)
    requires forall i :: 0 <= i < |t| ==> !IsCurrencyNoise(t[i])
    ensures CleanAmount("$" + t) == t
  {
    assert ("$" + t)[1..] == t;
  }

  /** An amount written as `$` and its cents reads back as itself. */
  lemma CurrencyTextRoundTrip(c: nat)
    ensures ParseCurrency(Str("$" + FormatCents(c))) == Ok(Some(c as real / 100.0))
  {
    hide ParseNumber, CleanAmount, DecimalText, RoundCurrency;
    var k := 2;
    var t := DecimalText(c, k);
    assert FormatCents(c) == t;
    DecimalTextAlphabet(c, k);
    DecimalTextShape(c, k);
    CleanDollar(t);
    ParseFormatCents(c);
    RoundWholeCents(c);
    assert "$" + t != "";
  }

  // ---- The week -----------------------------------------------------------------------

  /** `^(\d{4})-(\d{2})-(\d{2})$`. */
  predicate IsoDateShape(t: string) {
    |t| == 10 && t[4] == '-' && t[7] == '-'
    && AllDigits(t[..4]) && AllDigits(t[5..7]) && AllDigits(t[8..])
  }

  /** The three fields go through `Number`, which reads digits as the number they denote. */
  lemma DateFieldsAreNumbers(t: string)
    requires IsoDateShape(t)
    ensures ParseNumber(t[..4]) == Finite(DigitsValue(t[..4]) as real)
    ensures ParseNumber(t[5..7]) == Finite(DigitsValue(t[5..7]) as real)
    ensures ParseNumber(t[8..]) == Finite(DigitsValue(t[8..]) as real)
  {
    ParseDigits(t[..4]);
    ParseDigits(t[5..7]);
    ParseDigits(t[8..]);
  }

  /** Two-digit and four-digit fields are small enough for any date to be valid. */
  lemma FieldsInRange(y: nat, m: nat, d: nat)
    requires y < 10000 && m < 100 && d < 100
    ensures Calendar.DateUtc(y, m - 1, d, 0, 0, 0).Some?
  {
    hide Calendar.DaysFromCivil;
    var yy := if 0 <= y <= 99 then 1900 + y else y;
    var ym := yy + (m - 1) / 12;
    assert 99 <= ym <= 10008;
    MonthStartBound(ym, (m - 1) % 12 + 1);
  }

  lemma MonthStartBound(y: int, month: int)
    requires 0 <= y <= 20000 && 1 <= month <= 12
    ensures -800000 <= Calendar.DaysFromCivil(y, month, 1) <= 8000000
  {
    hide Calendar.DayFromYear;
    assert -800000 <= Calendar.DayFromYear(y) <= 7000000 by {
      DayFromYearBound(y);
    }
  }

  lemma DayFromYearBound(y: int)
    requires 0 <= y <= 20000
    ensures -800000 <= Calendar.DayFromYear(y) <= 7000000
  {
    var q4, q100, q400 := (y - 1969) / 4, (y - 1901) / 100, (y - 1601) / 400;
    assert -500 <= q4 <= 5000 && -20 <= q100 <= 200 && -5 <= q400 <= 50;
  }

  /**
   * `parseDate`: the trimmed text must be `YYYY-MM-DD`; the fields go to
   * `Date.UTC`, so a month or day out of range rolls over and a year 0..99
   * means 1900..1999.  The text shape is the only way to fail.
   */
  function ParseDate(value: string): (r: Option<int>)
    ensures r.Some? <==> IsoDateShape(Trim(value))
    ensures r.Some? ==> Calendar.TimeInDay(r.value) == 0
  {
    var t := Trim(value);
    if !IsoDateShape(t) then None
    else
      var y, m, d := DigitsValue(t[..4]), DigitsValue(t[5..7]), DigitsValue(t[8..]);
      assert y < 10000 && m < 100 && d < 100 by {
        DigitsBound(t[..4]);
        DigitsBound(t[5..7]);
        DigitsBound(t[8..]);
      }
      FieldsInRange(y, m, d);
      Calendar.DateUtcMidnight(y, m - 1, d);
      Calendar.DateUtc(y, m - 1, d, 0, 0, 0)
  }

  lemma {:induction false} DigitsBound(s: string)
    requires AllDigits(s)
    ensures DigitsValue(s) < Pow10(|s|)
  {
    if s != [] {
      DigitsBound(s[..|s| - 1]);
    }
  }

  /** `formatDate`: `YYYY-MM-DD` from the UTC fields. */
  function FormatDate(t: int): (r: string)
    ensures '|' !in r
    ensures 1000 <= Calendar.UtcDate(t).year <= 9999 ==> IsoDateShape(r)
  {
    var c := Calendar.UtcDate(t);
    if 1000 <= c.year <= 9999 then FourDigitYear(c.year); Calendar.FormatYmd(c)
    else Calendar.FormatYmd(c)
  }

  lemma FourDigitYear(y: int)
    requires 1000 <= y <= 9999
    ensures |NatToString(y)| == 4
  {
    assert NatToString(y) == NatToString(y / 10) + [DigitChar(y % 10)];
    assert NatToString(y / 10) == NatToString(y / 100) + [DigitChar(y / 10 % 10)];
    assert NatToString(y / 100) == NatToString(y / 1000) + [DigitChar(y / 100 % 10)];
  }

  /** Reading back a formatted date gives the start of its UTC day. */
  lemma FormatParseRoundTrip(t: int)
    requires 1000 <= Calendar.UtcDate(t).year <= 9999
    ensures ParseDate(FormatDate(t)) == Some(t - Calendar.TimeInDay(t))
  {
    hide Calendar.UtcDate, Calendar.TimeInDay, Calendar.DateUtc, Calendar.DaysFromCivil, Calendar.DayOf,
         NatToString, Pad2, Trim, DigitsValue, ParseDate, FormatDate, Calendar.FormatYmd;
    var c := Calendar.UtcDate(t);
    var s := FormatDate(t);
    var a, b, d := NatToString(c.year), Pad2(c.month), Pad2(c.day);
    FormatDateParts(t);
    assert s[..4] == a && s[5..7] == b && s[8..] == d;
    assert IsDigit(s[0]) && IsDigit(s[9]);
    TrimUnchanged(s);
    NatToStringValue(c.year);
    Pad2Value(c.month);
    Pad2Value(c.day);
    ParseDateOf(s, c.year, c.month, c.day);
    Calendar.DateUtcOfCivil(c);
    Calendar.FloorDay(t);
  }

  lemma FormatDateParts(t: int)
    requires 1000 <= Calendar.UtcDate(t).year <= 9999
    ensures var c := Calendar.UtcDate(t);
            FormatDate(t) == NatToString(c.year) + "-" + Pad2(c.month) + "-" + Pad2(c.day)
            && |NatToString(c.year)| == 4 && |Pad2(c.month)| == 2 && |Pad2(c.day)| == 2
  {
    hide Calendar.UtcDate, NatToString, Pad2;
    FourDigitYear(Calendar.UtcDate(t).year);
  }

  lemma ParseDateOf(s: string, y: nat, m: nat, d: nat)
    requires Trim(s) == s && IsoDateShape(s)
    requires DigitsValue(s[..4]) == y && DigitsValue(s[5..7]) == m && DigitsValue(s[8..]) == d
    ensures ParseDate(s) == Calendar.DateUtc(y, m - 1, d, 0, 0, 0)
  {
    hide Trim, DigitsValue, Calendar.DateUtc;
  }

  /** `d.setUTCDate(d.getUTCDate() + n)` on a midnight: n days later, if that is a valid date. */
  function AddDays(t: int, n: int): (r: Option<int>)
    ensures r.Some? ==> r.value == t + n * Calendar.MsPerDay
  {
    var s := t + n * Calendar.MsPerDay;
    if -Calendar.MaxTime <= s <= Calendar.MaxTime then Some(s) else None
  }

  /** `startOfWeek`: back from the UTC midnight of the date to the Sunday on or before it. */
  function StartOfWeek(t: int): (r: Option<int>)
    ensures r.Some? ==> Calendar.UtcWeekDay(r.value) == 0 && Calendar.TimeInDay(r.value) == 0
  {
    var m := Calendar.UtcMidnight(t);
    if m.None? then None
    else
      WeekStartIsSunday(t);
      AddDays(m.value, -Calendar.UtcWeekDay(m.value))
  }

  lemma WeekStartIsSunday(t: int)
    requires Calendar.UtcMidnight(t).Some?
    ensures var d := Calendar.UtcMidnight(t).value;
            var r := AddDays(d, -Calendar.UtcWeekDay(d));
            r.Some? ==> Calendar.UtcWeekDay(r.value) == 0 && Calendar.TimeInDay(r.value) == 0
  {
    hide *;
    var d := Calendar.UtcMidnight(t).value;
    MidnightStartsDay(t);
    var r := AddDays(d, -Calendar.UtcWeekDay(d));
    if r.Some? {
      BackToSunday(d);
      assert r.value == d - Calendar.UtcWeekDay(d) * Calendar.MsPerDay;
    }
  }

  /** The UTC midnight of a time starts a day. */
  lemma MidnightStartsDay(t: int)
    requires Calendar.UtcMidnight(t).Some?
    ensures Calendar.TimeInDay(Calendar.UtcMidnight(t).value) == 0
  {
    var c := Calendar.UtcDate(t);
    Calendar.DateUtcMidnight(c.year, c.month - 1, c.day);
  }

  /** Going back from a midnight by its weekday lands on a Sunday midnight. */
  lemma BackToSunday(d: int)
    requires Calendar.TimeInDay(d) == 0
    ensures var s := d - Calendar.UtcWeekDay(d) * Calendar.MsPerDay;
            Calendar.UtcWeekDay(s) == 0 && Calendar.TimeInDay(s) == 0
  {
    var wd := Calendar.UtcWeekDay(d);
    Calendar.FloorDay(d);
    Calendar.DayOfMultiple(Calendar.DayOf(d) - wd);
    assert d - wd * Calendar.MsPerDay == (Calendar.DayOf(d) - wd) * Calendar.MsPerDay;
  }

  /** Outside the years 0..99 the week starts on the Sunday on or before the date, less than seven days back. */
  lemma StartOfWeekOnOrBefore(t: int)
    requires -Calendar.MaxTime + 7 * Calendar.MsPerDay <= t <= Calendar.MaxTime
    requires !(0 <= Calendar.UtcDate(t).year <= 99)
    ensures StartOfWeek(t).Some?
    ensures var s := StartOfWeek(t).value;
            s <= t < s + 7 * Calendar.MsPerDay
            && (Calendar.UtcWeekDay(t) == 0 ==> s == t - Calendar.TimeInDay(t))
  {
    hide Calendar.UtcDate, Calendar.UtcMidnight, Calendar.DateUtc;
    Calendar.UtcMidnightTruncates(t);
    Calendar.FloorDay(t);
    var d := t - Calendar.TimeInDay(t);
    assert Calendar.DayOf(d) == Calendar.DayOf(t) by {
      Calendar.DayOfMultiple(Calendar.DayOf(t));
    }
    assert StartOfWeek(t) == AddDays(d, -Calendar.UtcWeekDay(d));
  }

  /** A Sunday midnight is its own week start. */
  lemma SundayStartsItsWeek(s: int)
    requires Calendar.UtcWeekDay(s) == 0 && Calendar.TimeInDay(s) == 0
    requires -Calendar.MaxTime + 7 * Calendar.MsPerDay <= s <= Calendar.MaxTime
    requires !(0 <= Calendar.UtcDate(s).year <= 99)
    ensures StartOfWeek(s) == Some(s)
  {
    StartOfWeekOnOrBefore(s);
  }

  const InvalidWeekStart := "Invalid weekStart; expected YYYY-MM-DD"

  /**
   * `resolveWeekRange` as times: the start and end of the week (None for an
   * invalid date); an error only for a non-empty `weekStart` that is not a
   * date.
   */
  function WeekRange(input: string, now: int): (r: Result<(Option<int>, Option<int>), string>)
    ensures r.Err? <==> input != "" && ParseDate(input).None?
    ensures r.Err? ==> r.error == InvalidWeekStart
    ensures r.Ok? && r.value.0.Some? ==>
              Calendar.UtcWeekDay(r.value.0.value) == 0
              && r.value.1 == AddDays(r.value.0.value, 6)
  {
    if input != "" && ParseDate(input).None? then Err(InvalidWeekStart)
    else
      var base := if input != "" then ParseDate(input) else StartOfWeek(now);
      var start := if base.Some? then StartOfWeek(base.value) else None;
      var end := if start.Some? then AddDays(start.value, 6) else None;
      Ok((start, end))
  }

  /** `formatDate` of an invalid date prints `NaN` in every field. */
  function FormatOrNaN(t: Option<int>): string {
    if t.Some? then FormatDate(t.value) else "NaN-NaN-NaN"
  }

  /** `resolveWeekRange`: the `weekStart` and `weekEnd` labels. */
  function ResolveWeekRange(input: string, now: int): (r: Result<(string, string), string>)
    ensures r.Err? <==> WeekRange(input, now).Err?
  {
    match WeekRange(input, now)
    case Err(e) => Err(e)
    case Ok((start, end)) => Ok((FormatOrNaN(start), FormatOrNaN(end)))
  }

  /** A Sunday's own date names the week that runs from it to the following Saturday. */
  lemma SundayNamesItsWeek(s: int, now: int)
    requires Calendar.UtcWeekDay(s) == 0 && Calendar.TimeInDay(s) == 0
    requires 1000 <= Calendar.UtcDate(s).year <= 9999
    ensures ResolveWeekRange(FormatDate(s), now) == Ok((FormatDate(s), FormatDate(s + 6 * Calendar.MsPerDay)))
  {
    hide ResolveWeekRange, FormatDate, ParseDate, StartOfWeek, WeekRange, Calendar.UtcDate, Calendar.UtcMidnight, Calendar.DayOf,
      Calendar.TimeInDay, Calendar.UtcWeekDay;
    var w := FormatDate(s);
    assert ParseDate(w) == Some(s) && w != "" by {
      FormatParseRoundTrip(s);
    }
    assert -Calendar.MaxTime + 7 * Calendar.MsPerDay <= s <= Calendar.MaxTime - 7 * Calendar.MsPerDay by {
      YearBounds(s);
      Calendar.FloorDay(s);
    }
    assert StartOfWeek(s) == Some(s) by {
      SundayStartsItsWeek(s);
    }
    WeekOfStart(w, s, now);
    WeekLabels(w, now, s);
  }

  lemma WeekLabels(input: string, now: int, s: int)
    requires WeekRange(input, now) == Ok((Some(s), Some(s + 6 * Calendar.MsPerDay)))
    ensures ResolveWeekRange(input, now) == Ok((FormatDate(s), FormatDate(s + 6 * Calendar.MsPerDay)))
  {
    hide WeekRange, FormatDate;
  }

  /** A date that is its own week start gives the week from it to six days later. */
  lemma WeekOfStart(input: string, s: int, now: int)
    requires input != "" && ParseDate(input) == Some(s) && StartOfWeek(s) == Some(s)
    requires -Calendar.MaxTime <= s && s + 6 * Calendar.MsPerDay <= Calendar.MaxTime
    ensures WeekRange(input, now) == Ok((Some(s), Some(s + 6 * Calendar.MsPerDay)))
  {
    hide ParseDate, StartOfWeek;
  }

  /** An empty `weekStart` gives the Sunday-to-Saturday week that holds the current time. */
  lemma CurrentWeekContainsNow(now: int)
    requires -Calendar.MaxTime + 14 * Calendar.MsPerDay <= now <= Calendar.MaxTime - 7 * Calendar.MsPerDay
    requires !(0 <= Calendar.UtcDate(now).year <= 99)
    requires StartOfWeek(now).Some? ==> !(0 <= Calendar.UtcDate(StartOfWeek(now).value).year <= 99)
    ensures StartOfWeek(now).Some?
    ensures var s := StartOfWeek(now).value;
            WeekRange("", now) == Ok((Some(s), Some(s + 6 * Calendar.MsPerDay)))
            && Calendar.UtcWeekDay(s) == 0
            && s <= now < s + 7 * Calendar.MsPerDay
  {
    hide Calendar.UtcDate, Calendar.UtcMidnight, Calendar.DateUtc, Calendar.UtcWeekDay, Calendar.TimeInDay, ParseDate;
    StartOfWeekOnOrBefore(now);
    var s := StartOfWeek(now).value;
    SundayStartsItsWeek(s);
    assert WeekRange("", now) == Ok((Some(s), AddDays(s, 6)));
  }

  /** A time in the years 1000..9999 is far from both ends of the time range. */
  lemma YearBounds(t: int)
    requires 1000 <= Calendar.UtcDate(t).year <= 9999
    ensures -30000000 <= Calendar.DayOf(t) <= 3000000
  {
    var c := Calendar.UtcDate(t);
    assert Calendar.DaysFromCivil(c.year, c.month, c.day) == Calendar.DayOf(t);
  }

  // ---- The pay split ------------------------------------------------------------------

  /** One stored payment as the report lists it. */
  datatype Transaction = Transaction(eventId: string, timestamp: Option<string>, sale: Number, tip: Number, itemSold: Option<string>)

  /** `Number(x || 0)`. */
  function NumberOr0(v: Value): Number {
    ToNumber(if Truthy(v) then v else Num(Finite(0.0)))
  }

  /** One element of the query's `transactions` array; None when it has no event id. */
  function TransactionOf(tx: Value): (r: Option<Transaction>)
    ensures r.Some? ==> r.value.eventId != "" && r.value.eventId == ToStr(Get(tx, "eventId"))
    ensures !Truthy(Get(tx, "eventId")) ==> r.None?
  {
    var id := Get(tx, "eventId");
    var eventId := if Truthy(id) then ToStr(id) else "";
    if eventId == "" then None
    else
      var ts := Get(tx, "timestamp");
      var item := Get(tx, "itemSold");
      Some(Transaction(
        eventId,
        if ts.Str? then Some(ts.s) else None,
        NumberOr0(Get(tx, "sale")),
        NumberOr0(Get(tx, "tip")),
        if item.Str? && Trim(item.s) != "" then Some(item.s) else None))
  }

  /** The `transactions` column: an array's elements that have an event id, in order; [] for anything else. */
  function TransactionsOf(v: Value): (r: seq<Transaction>)
    ensures v.Arr? ==> |r| <= |v.items|
    ensures !v.Arr? ==> r == []
    ensures forall i :: 0 <= i < |r| ==> r[i].eventId != ""
  {
    if v.Arr? then CollectTransactions(v.items) else []
  }

  function CollectTransactions(items: seq<Value>): (r: seq<Transaction>)
    ensures |r| <= |items|
    ensures forall i :: 0 <= i < |r| ==> r[i].eventId != ""
  {
    if items == [] then []
    else
      var rest := CollectTransactions(items[1..]);
      match TransactionOf(items[0])
      case Some(tx) => [tx] + rest
      case None => rest
  }

  /** `Math.max(tx.sale - tx.tip, 0) >= 1`: the sale net of its tip is at least a dollar. */
  predicate AssistantEligible(tx: Transaction) {
    match Sub(tx.sale, tx.tip)
    case Finite(d) => d >= 1.0
    case Infinity(negative) => !negative
    case NaN => false
  }

  function EligibleCount(txs: seq<Transaction>): (r: nat)
    ensures r <= |txs|
  {
    if txs == [] then 0
    else (if AssistantEligible(txs[0]) then 1 else 0) + EligibleCount(txs[1..])
  }

  /** The assistant fee per eligible transaction: none without a service percentage, 2 from 50% up, 1 below. */
  function AssistantRate(servicePercentage: Option<real>): (r: nat)
    ensures r <= 2
    ensures r == 0 <==> servicePercentage.None?
    ensures servicePercentage.Some? ==> (r == 2 <==> servicePercentage.value >= 50.0)
  {
    if servicePercentage.None? then 0 else if servicePercentage.value >= 50.0 then 2 else 1
  }

  /** The unrounded parts of one provider's pay. */
  datatype RawSplit = RawSplit(techService: real, houseService: real, tipFee: real, techTip: real,
                               assistantFee: real, deduction: real)

  function SplitOf(totalSales: real, tips: real, servicePercentage: Option<real>, tipFeePercentage: Option<real>,
                   deduction: real, eligible: nat): (s: RawSplit)
    ensures s.techService + s.houseService == totalSales
    ensures s.tipFee + s.techTip == tips
    ensures s.assistantFee == (eligible * AssistantRate(servicePercentage)) as real
    ensures s.deduction == deduction
    ensures servicePercentage.None? ==> s.techService == 0.0
  {
    var techService := if servicePercentage.None? then 0.0 else totalSales * (servicePercentage.value / 100.0);
    var tipFeePct := if tipFeePercentage.None? then 0.0 else tipFeePercentage.value;
    var tipFee := tips * (tipFeePct / 100.0);
    RawSplit(techService, totalSales - techService, tipFee, tips - tipFee,
             (eligible * AssistantRate(servicePercentage)) as real, deduction)
  }

  /** The house's share before rounding: its service share, the tip fee, the assistant fee and the deduction. */
  function HouseRaw(s: RawSplit): real {
    s.houseService + s.tipFee + s.assistantFee + s.deduction
  }

  /** The provider's share before the clamp: service share and tips less the fee and the deduction. */
  function TechRaw(s: RawSplit): real {
    s.techService + s.techTip - s.assistantFee - s.deduction
  }

  /** Before rounding and the clamp, house and provider shares add up to sales plus tips. */
  lemma SplitConserves(totalSales: real, tips: real, sp: Option<real>, tfp: Option<real>, deduction: real, eligible: nat)
    ensures var s := SplitOf(totalSales, tips, sp, tfp, deduction, eligible);
            HouseRaw(s) + TechRaw(s) == totalSales + tips
  {
  }

  datatype Commission = Commission(actualPercent: real, actualAmount: real, baselinePercent: real,
                                   baselineAmount: real, deltaAmount: real)

  /** A provider's row of the report. */
  datatype Summary = Summary(
    providerId: string, providerName: Option<string>, totalSales: real, tips: real,
    servicePercentage: Option<real>, tipFeePercentage: Option<real>, specialDeduction: real,
    housePay: real, techPay: real, tipFeeAmount: real, techAssistantFee: real,
    commission: Option<Commission>, transactions: seq<Transaction>)

  /** One grouped row of the weekly query. */
  datatype SummaryRow = SummaryRow(
    providerId: string, totalSales: Value, totalTips: Value, servicePercentage: Option<real>,
    tipFeePercentage: Option<real>, specialDeduction: Option<real>, transactions: Value)

  function FiniteOr0(n: Number): real {
    if n.Finite? then n.value else 0.0
  }

  /** The report row for one provider. */
  function SummaryOf(row: SummaryRow): Summary {
    var providerId := if row.providerId != "" then row.providerId else "(unknown)";
    var name := Employees.LookupProviderName(Employees.ProviderDirectory, providerId);
    var totalSales := RoundCurrency(FiniteOr0(NumberOr0(row.totalSales)));
    var tips := RoundCurrency(FiniteOr0(NumberOr0(row.totalTips)));
    var txs := TransactionsOf(row.transactions);
    var deduction := if row.specialDeduction.Some? then row.specialDeduction.value else 0.0;
    var s := SplitOf(totalSales, tips, row.servicePercentage, row.tipFeePercentage, deduction, EligibleCount(txs));
    var techRaw := TechRaw(s);
    Summary(
      providerId,
      if name.Some? && name.value != "" then name else None,
      totalSales, tips, row.servicePercentage, row.tipFeePercentage, RoundCurrency(deduction),
      RoundCurrency(HouseRaw(s)),
      RoundCurrency(if techRaw > 0.0 then techRaw else 0.0),
      RoundCurrency(s.tipFee),
      RoundCurrency(s.assistantFee),
      CommissionOf(totalSales, row.servicePercentage, s.techService),
      txs)
  }

  /** A provider without an id is reported as "(unknown)", and the comparison with 50% appears exactly below 50%. */
  lemma SummaryShown(row: SummaryRow)
    ensures SummaryOf(row).commission.Some? <==> row.servicePercentage.Some? && row.servicePercentage.value < 50.0
    ensures SummaryOf(row).providerId == if row.providerId != "" then row.providerId else "(unknown)"
  {
    hide RoundCurrency, SplitOf, TechRaw, HouseRaw, TransactionsOf, EligibleCount, Employees.LookupProviderName,
         FiniteOr0, NumberOr0;
  }

  /** `roundPercentage`: the same rounding as `roundCurrency`. */
  function RoundPercentage(v: real): real {
    RoundCurrency(v)
  }

  /** The comparison with a 50% service share, shown only below 50%. */
  function CommissionOf(totalSales: real, servicePercentage: Option<real>, techService: real): (r: Option<Commission>)
    ensures r.Some? <==> servicePercentage.Some? && servicePercentage.value < 50.0
  {
    if servicePercentage.Some? && servicePercentage.value < 50.0 then
      Some(Commission(RoundPercentage(servicePercentage.value), RoundCurrency(techService), 50.0,
                      RoundCurrency(totalSales * 0.5), RoundCurrency(totalSales * 0.5 - techService)))
    else None
  }

  /** The split the report shows, in terms of the unrounded parts. */
  lemma SummaryPay(row: SummaryRow)
    ensures var r := SummaryOf(row);
            var deduction := if row.specialDeduction.Some? then row.specialDeduction.value else 0.0;
            var s := SplitOf(r.totalSales, r.tips, row.servicePercentage, row.tipFeePercentage, deduction,
                             EligibleCount(r.transactions));
            r.housePay == RoundCurrency(HouseRaw(s))
            && r.techPay == RoundCurrency(if TechRaw(s) > 0.0 then TechRaw(s) else 0.0)
            && r.techPay >= 0.0
            && r.techAssistantFee == RoundCurrency((EligibleCount(r.transactions) * AssistantRate(row.servicePercentage)) as real)
  {
    var r := SummaryOf(row);
    var deduction := if row.specialDeduction.Some? then row.specialDeduction.value else 0.0;
    var s := SplitOf(r.totalSales, r.tips, row.servicePercentage, row.tipFeePercentage, deduction,
                     EligibleCount(r.transactions));
    RoundNonNegative(if TechRaw(s) > 0.0 then TechRaw(s) else 0.0);
  }

  /** When the provider's share is not clamped, the two rounded shares differ from sales plus tips by at most a cent. */
  lemma PayAddsUp(row: SummaryRow)
    ensures var r := SummaryOf(row);
            var deduction := if row.specialDeduction.Some? then row.specialDeduction.value else 0.0;
            var s := SplitOf(r.totalSales, r.tips, row.servicePercentage, row.tipFeePercentage, deduction,
                             EligibleCount(r.transactions));
            TechRaw(s) >= 0.0 ==>
              r.totalSales + r.tips - 0.01 < r.housePay + r.techPay <= r.totalSales + r.tips + 0.01 + 2.0 * Epsilon
  {
    var r := SummaryOf(row);
    var deduction := if row.specialDeduction.Some? then row.specialDeduction.value else 0.0;
    var s := SplitOf(r.totalSales, r.tips, row.servicePercentage, row.tipFeePercentage, deduction,
                     EligibleCount(r.transactions));
    SummaryPay(row);
    SplitConserves(r.totalSales, r.tips, row.servicePercentage, row.tipFeePercentage, deduction,
                   EligibleCount(r.transactions));
  }

  /** Below 50% the report compares with 50%: the shortfall is the sales times the missing percentage points. */
  lemma CommissionShortfall(totalSales: real, sp: Option<real>, tfp: Option<real>, deduction: real, eligible: nat)
    requires sp.Some? && 0.0 <= sp.value < 50.0
    ensures var c := CommissionOf(totalSales, sp, SplitOf(totalSales, 0.0, sp, tfp, deduction, eligible).techService);
            c.Some?
            && c.value.baselinePercent == 50.0
            && c.value.deltaAmount == RoundCurrency(totalSales * (50.0 - sp.value) / 100.0)
            && (totalSales >= 0.0 ==> c.value.deltaAmount >= 0.0)
  {
    var p := sp.value;
    var tech := SplitOf(totalSales, 0.0, sp, tfp, deduction, eligible).techService;
    assert tech == totalSales * (p / 100.0);
    assert totalSales * 0.5 - tech == totalSales * (50.0 - p) / 100.0;
    if totalSales >= 0.0 {
      assert totalSales * (50.0 - p) >= 0.0;
      RoundNonNegative(totalSales * (50.0 - p) / 100.0);
    }
  }

  /** The report's totals: each column summed over the providers, then rounded. */
  datatype Totals = Totals(totalSales: real, tips: real, housePay: real, techPay: real, tipFee: real,
                           techAssistantFee: real, specialDeduction: real, commissionDiff: real)

  function SumOf(ps: seq<Summary>, f: Summary -> real): real {
    if ps == [] then 0.0 else SumOf(ps[..|ps| - 1], f) + f(ps[|ps| - 1])
  }

  /** `(row.commissionComparison?.deltaAmount || 0)`. */
  function DeltaOf(p: Summary): real {
    if p.commission.Some? then p.commission.value.deltaAmount else 0.0
  }

  function TotalsOf(ps: seq<Summary>): Totals {
    Totals(
      RoundCurrency(SumOf(ps, (p: Summary) => p.totalSales)), RoundCurrency(SumOf(ps, (p: Summary) => p.tips)),
      RoundCurrency(SumOf(ps, (p: Summary) => p.housePay)), RoundCurrency(SumOf(ps, (p: Summary) => p.techPay)),
      RoundCurrency(SumOf(ps, (p: Summary) => p.tipFeeAmount)), RoundCurrency(SumOf(ps, (p: Summary) => p.techAssistantFee)),
      RoundCurrency(SumOf(ps, (p: Summary) => p.specialDeduction)), RoundCurrency(SumOf(ps, DeltaOf)))
  }

  /** Summing two groups of providers adds their sums. */
  lemma {:induction false} SumAppend(a: seq<Summary>, b: seq<Summary>, f: Summary -> real)
    ensures SumOf(a + b, f) == SumOf(a, f) + SumOf(b, f)
    decreases |b|
  {
    if b == [] {
      assert a + b == a;
    } else {
      var n := |b| - 1;
      assert (a + b)[..|a + b| - 1] == a + b[..n];
      SumAppend(a, b[..n], f);
    }
  }

  /** A sum of non-negative figures is non-negative. */
  lemma {:induction false} SumNonNegative(ps: seq<Summary>, f: Summary -> real)
    requires forall i :: 0 <= i < |ps| ==> f(ps[i]) >= 0.0
    ensures SumOf(ps, f) >= 0.0
  {
    if ps != [] {
      var n := |ps| - 1;
      assert forall i :: 0 <= i < n ==> ps[..n][i] == ps[i];
      SumNonNegative(ps[..n], f);
    }
  }

  /** Providers are never paid a negative amount, and so neither is the week's total. */
  lemma TotalTechPayNonNegative(rows: seq<SummaryRow>)
    ensures var ps := seq(|rows|, i requires 0 <= i < |rows| => SummaryOf(rows[i]));
            TotalsOf(ps).techPay >= 0.0
  {
    var ps := seq(|rows|, i requires 0 <= i < |rows| => SummaryOf(rows[i]));
    var f := (p: Summary) => p.techPay;
    forall i | 0 <= i < |ps| ensures f(ps[i]) >= 0.0 {
      SummaryPay(rows[i]);
    }
    SumNonNegative(ps, f);
    RoundNonNegative(SumOf(ps, f));
    assert TotalsOf(ps).techPay == RoundCurrency(SumOf(ps, f));
  }

  /** `GET /paysheet/data` once the query has produced `rows`: 500 with the message when the week is invalid. */
  function DataReply(weekStart: string, now: int, online: bool, rows: seq<SummaryRow>): (r: Reply)
    ensures r.status == 500 <==> WeekRange(weekStart, now).Err? || !online
    ensures r.status != 500 ==> r.status == 200
  {
    match ResolveWeekRange(weekStart, now)
    case Err(e) => Reply(500, ErrorBody(e))
    case Ok((ws, we)) =>
      if !online then Reply(500, ErrorBody(Store.DatabaseError))
      else
        var ps := seq(|rows|, i requires 0 <= i < |rows| => SummaryOf(rows[i]));
        Reply(200, Obj(map["weekStart" := Str(ws), "weekEnd" := Str(we),
                           "totals" := TotalsValue(TotalsOf(ps)),
                           "providers" := Arr(seq(|ps|, i requires 0 <= i < |ps| => SummaryValue(ps[i])))]))
  }

  function OptNum(x: Option<real>): Value {
    if x.Some? then Num(Finite(x.value)) else Null
  }

  function RealValue(x: real): Value {
    Num(Finite(x))
  }

  function TotalsValue(t: Totals): Value {
    Obj(map["totalSales" := RealValue(t.totalSales), "tips" := RealValue(t.tips),
            "housePay" := RealValue(t.housePay), "techPay" := RealValue(t.techPay),
            "tipFee" := RealValue(t.tipFee), "techAssistantFee" := RealValue(t.techAssistantFee),
            "specialDeduction" := RealValue(t.specialDeduction), "commissionDiff" := RealValue(t.commissionDiff)])
  }

  /** A number as `res.json` writes it: `NaN` and the infinities become `null`. */
  function NumberValue(n: Number): Value {
    if n.Finite? then Num(n) else Null
  }

  function OptStr(s: Option<string>): Value {
    if s.Some? then Str(s.value) else Null
  }

  function TransactionValue(t: Transaction): Value {
    Obj(map["eventId" := Str(t.eventId), "timestamp" := OptStr(t.timestamp),
            "sale" := NumberValue(t.sale), "tip" := NumberValue(t.tip), "itemSold" := OptStr(t.itemSold)])
  }

  function CommissionValue(c: Option<Commission>): Value {
    if c.None? then Null
    else
      Obj(map["actualPercent" := RealValue(c.value.actualPercent), "actualAmount" := RealValue(c.value.actualAmount),
              "baselinePercent" := RealValue(c.value.baselinePercent),
              "baselineAmount" := RealValue(c.value.baselineAmount), "deltaAmount" := RealValue(c.value.deltaAmount)])
  }

  /** One element of `providers` in the reply. */
  function SummaryValue(p: Summary): Value {
    Obj(map["providerId" := Str(p.providerId),
            "providerName" := OptStr(p.providerName),
            "servicePercentage" := OptNum(p.servicePercentage),
            "tipFeePercentage" := OptNum(p.tipFeePercentage),
            "specialDeduction" := RealValue(p.specialDeduction),
            "totalSales" := RealValue(p.totalSales), "tips" := RealValue(p.tips),
            "housePay" := RealValue(p.housePay), "techPay" := RealValue(p.techPay),
            "tipFeeAmount" := RealValue(p.tipFeeAmount), "techAssistantFee" := RealValue(p.techAssistantFee),
            "commissionComparison" := CommissionValue(p.commission),
            "transactions" := Arr(seq(|p.transactions|, i requires 0 <= i < |p.transactions| => TransactionValue(p.transactions[i])))])
  }

  /**
   * A 200 reply lists one provider per grouped row, in the query's order,
   * each with its pay split, its commission comparison (null when none)
   * and every one of its transactions, each keeping its event id.
   */
  lemma DataReplyProviders(weekStart: string, now: int, online: bool, rows: seq<SummaryRow>, i: nat)
    requires DataReply(weekStart, now, online, rows).status == 200
    requires i < |rows|
    ensures var providers := Get(DataReply(weekStart, now, online, rows).body, "providers");
            var p := SummaryOf(rows[i]);
            providers.Arr? && |providers.items| == |rows|
            && Get(providers.items[i], "housePay") == Num(Finite(p.housePay))
            && Get(providers.items[i], "techPay") == Num(Finite(p.techPay))
            && Get(providers.items[i], "techAssistantFee") == Num(Finite(p.techAssistantFee))
            && (Get(providers.items[i], "commissionComparison") == Null <==> p.commission.None?)
            && Get(providers.items[i], "transactions").Arr?
            && |Get(providers.items[i], "transactions").items| == |p.transactions|
            && forall k :: 0 <= k < |p.transactions| ==>
                 Get(Get(providers.items[i], "transactions").items[k], "eventId") == Str(p.transactions[k].eventId)
  {
    hide SummaryOf, TotalsOf, TotalsValue, SummaryValue;
    var ps := seq(|rows|, j requires 0 <= j < |rows| => SummaryOf(rows[j]));
    var providers := Get(DataReply(weekStart, now, online, rows).body, "providers");
    assert providers == Arr(seq(|ps|, j requires 0 <= j < |ps| => SummaryValue(ps[j])));
    assert providers.items[i] == SummaryValue(SummaryOf(rows[i]));
    SummaryValueFields(SummaryOf(rows[i]));
  }

  lemma SummaryValueFields(p: Summary)
    ensures var v := SummaryValue(p);
            Get(v, "housePay") == Num(Finite(p.housePay))
            && Get(v, "techPay") == Num(Finite(p.techPay))
            && Get(v, "techAssistantFee") == Num(Finite(p.techAssistantFee))
            && (Get(v, "commissionComparison") == Null <==> p.commission.None?)
            && Get(v, "transactions").Arr?
            && |Get(v, "transactions").items| == |p.transactions|
            && forall k :: 0 <= k < |p.transactions| ==>
                 Get(Get(v, "transactions").items[k], "eventId") == Str(p.transactions[k].eventId)
  {
  }

  // ---- Percentage settings ------------------------------------------------------------

  /** A `ProviderPercentage` record; each setting may be null. */
  datatype Percentages = Percentages(service: Option<real>, tipFee: Option<real>, deduction: Option<real>)

  /** The fields an update sets: None for a field the request does not mention. */
  datatype Patch = Patch(service: Option<Option<real>>, tipFee: Option<Option<real>>, deduction: Option<Option<real>>)

  function Apply(p: Percentages, u: Patch): Percentages {
    Percentages(if u.service.Some? then u.service.value else p.service,
                if u.tipFee.Some? then u.tipFee.value else p.tipFee,
                if u.deduction.Some? then u.deduction.value else p.deduction)
  }

  /** The `ProviderPercentage` table, keyed by provider id. */
  class PercentageStore {
    var records: map<string, Percentages>
    var online: bool

    constructor (initial: map<string, Percentages>, online: bool)
      ensures records == initial && this.online == online
    {
      records := initial;
      this.online := online;
    }

    method FindUnique(id: string) returns (r: Result<Option<Percentages>, string>)
      ensures r == if !online then Err(Store.DatabaseError)
                   else if id in records then Ok(Some(records[id])) else Ok(None)
    {
      if !online {
        return Err(Store.DatabaseError);
      }
      r := if id in records then Ok(Some(records[id])) else Ok(None);
    }

    /** `delete(...).catch(() => undefined)`: a failure is ignored. */
    method Delete(id: string)
      modifies this
      ensures online == old(online)
      ensures records == if online then old(records) - {id} else old(records)
    {
      if online {
        records := records - {id};
      }
    }

    /** `upsert`: the patch applied to an existing record, else the new record created. */
    method Upsert(id: string, update: Patch, create: Percentages) returns (r: Result<Percentages, string>)
      modifies this
      ensures online == old(online)
      ensures r.Ok? <==> old(online)
      ensures r.Err? ==> r.error == Store.DatabaseError && records == old(records)
      ensures r.Ok? ==> r.value == (if id in old(records) then Apply(old(records)[id], update) else create)
                        && records == old(records)[id := r.value]
    {
      if !online {
        return Err(Store.DatabaseError);
      }
      var rec := if id in records then Apply(records[id], update) else create;
      records := records[id := rec];
      r := Ok(rec);
    }
  }

  /** `Object.prototype.hasOwnProperty.call(body, key)`. */
  predicate HasOwn(body: Value, key: string) {
    body.Obj? && key in body.fields
  }

  /** What a request asks to change, after validation. */
  datatype Request = Request(providerId: string, patch: Patch)

  /** `body.providerId` trimmed when it is text, else "". */
  function ProviderIdOf(body: Value): string {
    var v := Get(body, "providerId");
    if v.Str? then Trim(v.s) else ""
  }

  predicate MentionsService(body: Value) { HasOwn(body, "servicePercentage") || HasOwn(body, "percentage") }
  predicate MentionsTipFee(body: Value) { HasOwn(body, "tipFeePercentage") || HasOwn(body, "tipFee") }
  predicate MentionsDeduction(body: Value) { HasOwn(body, "specialDeduction") }

  /** Validation of a request body: the 400 message, or the provider and the fields to set. */
  function ValidateRequest(body: Value): (r: Result<Request, string>)
    ensures r.Ok? ==> r.value.providerId == ProviderIdOf(body) != ""
    ensures r.Ok? ==> (r.value.patch.service.Some? <==> MentionsService(body))
                      && (r.value.patch.tipFee.Some? <==> MentionsTipFee(body))
                      && (r.value.patch.deduction.Some? <==> MentionsDeduction(body))
    ensures r.Ok? ==> r.value.patch != Patch(None, None, None)
    ensures ProviderIdOf(body) == "" ==> r == Err("providerId is required")
    ensures ProviderIdOf(body) != "" && !MentionsService(body) && !MentionsTipFee(body) && !MentionsDeduction(body)
            ==> r == Err("No configuration values provided")
  {
    var providerId := ProviderIdOf(body);
    if providerId == "" then Err("providerId is required")
    else if !MentionsService(body) && !MentionsTipFee(body) && !MentionsDeduction(body) then
      Err("No configuration values provided")
    else
      var service := if MentionsService(body) then ParsePercentage(Coalesce(Get(body, "servicePercentage"), Get(body, "percentage"))) else Ok(None);
      var tipFee := if MentionsTipFee(body) then ParsePercentage(Coalesce(Get(body, "tipFeePercentage"), Get(body, "tipFee"))) else Ok(None);
      var deduction := if MentionsDeduction(body) then ParseCurrency(Get(body, "specialDeduction")) else Ok(None);
      if service.Err? then Err(service.error)
      else if tipFee.Err? then Err(tipFee.error)
      else if deduction.Err? then Err(deduction.error)
      else Ok(Request(providerId, Patch(
        if MentionsService(body) then Some(service.value) else None,
        if MentionsTipFee(body) then Some(tipFee.value) else None,
        if MentionsDeduction(body) then Some(deduction.value) else None)))
  }

  /** The settings in effect after a request: those it sets, else the existing ones, else null. */
  function Effective(existing: Option<Percentages>, u: Patch): Percentages {
    Apply(if existing.Some? then existing.value else Percentages(None, None, None), u)
  }

  function PercentagesValue(providerId: string, p: Percentages): Value {
    Obj(map["providerId" := Str(providerId), "servicePercentage" := OptNum(p.service),
            "tipFeePercentage" := OptNum(p.tipFee), "specialDeduction" := OptNum(p.deduction)])
  }

  datatype Saved = Saved(records: map<string, Percentages>, reply: Reply)

  /** `POST /paysheet/percentage`: the table afterwards and the reply. */
  function SaveSpec(records: map<string, Percentages>, online: bool, body: Value): (r: Saved)
    ensures r.reply.status == 400 <==> ValidateRequest(body).Err?
    ensures r.reply.status == 500 <==> ValidateRequest(body).Ok? && !online
    ensures r.reply.status != 200 ==> r.records == records
  {
    match ValidateRequest(body)
    case Err(msg) => Saved(records, Reply(400, ErrorBody(msg)))
    case Ok(req) =>
      if !online then Saved(records, Reply(500, ErrorBody(Store.DatabaseError)))
      else
        var id := req.providerId;
        var existing := if id in records then Some(records[id]) else None;
        var eff := Effective(existing, req.patch);
        if eff == Percentages(None, None, None) then
          Saved(records - {id}, Reply(200, PercentagesValue(id, eff)))
        else
          var rec := if existing.Some? then Apply(existing.value, req.patch) else eff;
          Saved(records[id := rec], Reply(200, PercentagesValue(id, rec)))
  }

  /** The route handler. */
  method SavePercentage(store: PercentageStore, body: Value) returns (reply: Reply)
    modifies store
    ensures store.online == old(store.online)
    ensures reply == SaveSpec(old(store.records), old(store.online), body).reply
    ensures store.records == SaveSpec(old(store.records), old(store.online), body).records
  {
    hide ValidateRequest, Effective, Apply, PercentagesValue, ProviderIdOf, ErrorBody,
         MentionsService, MentionsTipFee, MentionsDeduction;
    var v := ValidateRequest(body);
    if v.Err? {
      return Reply(400, ErrorBody(v.error));
    }
    var req := v.value;
    var found := store.FindUnique(req.providerId);
    if found.Err? {
      return Reply(500, ErrorBody(found.error));
    }
    var existing := found.value;
    var eff := Effective(existing, req.patch);
    if eff == Percentages(None, None, None) {
      if existing.Some? {
        store.Delete(req.providerId);
      }
      return Reply(200, PercentagesValue(req.providerId, eff));
    }
    var saved := store.Upsert(req.providerId, req.patch, eff);
    reply := Reply(200, PercentagesValue(req.providerId, saved.value));
  }

  /** A saved record holds the effective settings, and the reply shows exactly them. */
  lemma SavedIsEffective(records: map<string, Percentages>, body: Value)
    requires SaveSpec(records, true, body).reply.status == 200
    ensures var req := ValidateRequest(body).value;
            var id := req.providerId;
            var eff := Effective(if id in records then Some(records[id]) else None, req.patch);
            var after := SaveSpec(records, true, body).records;
            (eff == Percentages(None, None, None) <==> id !in after)
            && (id in after ==> after[id] == eff)
            && SaveSpec(records, true, body).reply.body == PercentagesValue(id, eff)
  {
  }

  /** A setting the request does not mention keeps its stored value. */
  lemma UnmentionedKept(records: map<string, Percentages>, body: Value)
    requires SaveSpec(records, true, body).reply.status == 200
    requires ProviderIdOf(body) in records
    requires ProviderIdOf(body) in SaveSpec(records, true, body).records
    ensures var before := records[ProviderIdOf(body)];
            var after := SaveSpec(records, true, body).records[ProviderIdOf(body)];
            (!MentionsService(body) ==> after.service == before.service)
            && (!MentionsTipFee(body) ==> after.tipFee == before.tipFee)
            && (!MentionsDeduction(body) ==> after.deduction == before.deduction)
  {
  }

  /** Other providers' settings never change. */
  lemma OthersUntouched(records: map<string, Percentages>, online: bool, body: Value, other: string)
    requires other != ProviderIdOf(body)
    ensures var after := SaveSpec(records, online, body).records;
            (other in after <==> other in records) && (other in records ==> after[other] == records[other])
  {
    hide ValidateRequest, Effective, Apply, PercentagesValue, ProviderIdOf, ErrorBody,
         MentionsService, MentionsTipFee, MentionsDeduction;
  }
}
