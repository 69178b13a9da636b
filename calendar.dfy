/**
 * Proleptic-Gregorian UTC calendar arithmetic on epoch milliseconds, as the
 * JavaScript `Date` object performs it (`Date.UTC`, the `getUTC*` accessors,
 * `toISOString`).  Day numbers count days since 1970-01-01; the year of a day
 * is the largest year whose first day is not after it, as ECMAScript defines
 * YearFromTime.
 */
module Calendar {
  import opened Wrappers
  import opened Text

  const MsPerSecond: int := 1000
  const MsPerMinute: int := 60000
  const MsPerHour: int := 3600000
  const MsPerDay: int := 86400000

  /** A calendar date; `month` is 1..12 and `day` 1..31. */
  datatype Civil = Civil(year: int, month: nat, day: nat)

  predicate IsLeapYear(y: int) {
    y % 4 == 0 && (y % 100 != 0 || y % 400 == 0)
  }

  function DaysInYear(y: int): int {
    if IsLeapYear(y) then 366 else 365
  }

  /** ECMAScript DayFromYear: the day number of January 1 of year `y`. */
  function DayFromYear(y: int): int {
    365 * (y - 1970) + (y - 1969) / 4 - (y - 1901) / 100 + (y - 1601) / 400
  }

  lemma YearLength(y: int)
    ensures DayFromYear(y + 1) == DayFromYear(y) + DaysInYear(y)
  {
    QuotientStep4(y);
    QuotientStep100(y);
    QuotientStep400(y);
    DivisorChain(y);
    var a, b, c := (y - 1969) / 4, (y - 1901) / 100, (y - 1601) / 400;
    var base := 365 * (y - 1970) + a - b + c;
    assert DayFromYear(y) == base;
    if y % 4 != 0 {
      assert DayFromYear(y + 1) == base + 365;
    } else if y % 100 != 0 {
      assert DayFromYear(y + 1) == base + 366;
    } else if y % 400 != 0 {
      assert DayFromYear(y + 1) == base + 365;
    } else {
      assert DayFromYear(y + 1) == base + 366;
    }
  }

  lemma DivisorChain(y: int)
    ensures y % 400 == 0 ==> y % 100 == 0
    ensures y % 100 == 0 ==> y % 4 == 0
  {
    if y % 400 == 0 {
      CenturyOfQuadricentennial(y);
    }
    if y % 100 == 0 {
      LeapOfCentury(y);
    }
  }

  lemma CenturyOfQuadricentennial(y: int)
    requires y % 400 == 0
    ensures y % 100 == 0
  {
    var q := y / 400;
    assert y == 100 * (4 * q);
  }

  lemma LeapOfCentury(y: int)
    requires y % 100 == 0
    ensures y % 4 == 0
  {
    var q := y / 100;
    assert y == 4 * (25 * q);
  }

  lemma QuotientStep4(y: int)
    ensures (y + 1 - 1969) / 4 == (y - 1969) / 4 + (if y % 4 == 0 then 1 else 0)
  {
    var q := (y - 1969) / 4;
    assert y - 1969 == 4 * q + (y - 1969) % 4;
  }

  lemma QuotientStep100(y: int)
    ensures (y + 1 - 1901) / 100 == (y - 1901) / 100 + (if y % 100 == 0 then 1 else 0)
  {
    var q := (y - 1901) / 100;
    assert y - 1901 == 100 * q + (y - 1901) % 100;
  }

  lemma QuotientStep400(y: int)
    ensures (y + 1 - 1601) / 400 == (y - 1601) / 400 + (if y % 400 == 0 then 1 else 0)
  {
    var q := (y - 1601) / 400;
    assert y - 1601 == 400 * q + (y - 1601) % 400;
  }

  function DaysInMonth(y: int, month: int): int
    requires 1 <= month <= 12
  {
    if month == 2 then (if IsLeapYear(y) then 29 else 28)
    else if month == 4 || month == 6 || month == 9 || month == 11 then 30
    else 31
  }

  /** Days of year `y` before the first of `month`. */
  function DaysBeforeMonth(y: int, month: int): int
    requires 1 <= month <= 12
  {
    var common :=
      if month == 1 then 0 else if month == 2 then 31 else if month == 3 then 59
      else if month == 4 then 90 else if month == 5 then 120 else if month == 6 then 151
      else if month == 7 then 181 else if month == 8 then 212 else if month == 9 then 243
      else if month == 10 then 273 else if month == 11 then 304 else 334;
    common + (if month > 2 && IsLeapYear(y) then 1 else 0)
  }

  /** Day number of a date; a day past the month's end rolls over, as `Date.UTC` does. */
  function DaysFromCivil(year: int, month: int, day: int): int
    requires 1 <= month <= 12
  {
    DayFromYear(year) + DaysBeforeMonth(year, month) + day - 1
  }

  /** Year and day-of-year of a day `rem` days after January 1 of `y`. */
  function YearAndDayOfYear(y: int, rem: nat): (r: (int, nat))
    ensures r.1 < DaysInYear(r.0)
    ensures DayFromYear(r.0) + r.1 == DayFromYear(y) + rem
    decreases rem
  {
    if rem < DaysInYear(y) then (y, rem)
    else
      YearLength(y);
      YearAndDayOfYear(y + 1, rem - DaysInYear(y))
  }

  /** Month and day of month of day-of-year `doy`, searching from `month`. */
  function MonthAndDay(y: int, month: int, doy: int): (r: (int, int))
    requires 1 <= month <= 12
    requires DaysBeforeMonth(y, month) <= doy < DaysInYear(y)
    ensures 1 <= r.0 <= 12 && 1 <= r.1 <= DaysInMonth(y, r.0)
    ensures DaysBeforeMonth(y, r.0) + r.1 - 1 == doy
    decreases 12 - month
  {
    if doy < DaysBeforeMonth(y, month) + DaysInMonth(y, month) then
      (month, doy - DaysBeforeMonth(y, month) + 1)
    else if month == 12 then
      assert false;
      (month, 1)
    else
      MonthAndDay(y, month + 1, doy)
  }

  /** Four hundred Gregorian years are exactly 146097 days. */
  lemma {:induction false} EraLength(y: int)
    ensures DayFromYear(y + 400) == DayFromYear(y) + 146097
  {
    assert (y + 400 - 1969) / 4 == (y - 1969) / 4 + 100;
    assert (y + 400 - 1901) / 100 == (y - 1901) / 100 + 4;
    assert (y + 400 - 1601) / 400 == (y - 1601) / 400 + 1;
  }

  lemma {:induction false} EraStart(era: int)
    ensures DayFromYear(400 * era) == DayFromYear(0) + 146097 * era
    decreases if era < 0 then -era else era
  {
    if era > 0 {
      EraStart(era - 1);
      EraLength(400 * (era - 1));
    } else if era < 0 {
      EraStart(era + 1);
      EraLength(400 * era);
    }
  }

  /** The date of day number `z`: the inverse of DaysFromCivil. */
  function CivilFromDays(z: int): (c: Civil)
    ensures 1 <= c.month <= 12 && 1 <= c.day <= DaysInMonth(c.year, c.month) <= 31
    ensures DaysFromCivil(c.year, c.month, c.day) == z
  {
    var era := (z - DayFromYear(0)) / 146097;
    EraStart(era);
    var yd := YearAndDayOfYear(400 * era, z - DayFromYear(400 * era));
    var md := MonthAndDay(yd.0, 1, yd.1);
    Civil(yd.0, md.0, md.1)
  }

  /** The largest magnitude of a valid time value (ECMAScript TimeClip). */
  const MaxTime: int := 8640000000000000

  /**
   * `Date.UTC(year, monthIndex, date, hours, minutes, seconds)` on integer
   * arguments: the month index rolls over into the year, a year 0..99 means
   * 1900..1999, and a result beyond the valid range is an invalid date (None).
   */
  function DateUtc(year: int, monthIndex: int, date: int, hours: int, minutes: int, seconds: int): (r: Option<int>)
    ensures r.Some? ==> -MaxTime <= r.value <= MaxTime
  {
    var y := if 0 <= year <= 99 then 1900 + year else year;
    var ym := y + monthIndex / 12;
    var mn := monthIndex % 12;
    var day := DaysFromCivil(ym, mn + 1, 1) + date - 1;
    var t := day * MsPerDay + hours * MsPerHour + minutes * MsPerMinute + seconds * MsPerSecond;
    if -MaxTime <= t <= MaxTime then Some(t) else None
  }

  /** A UTC midnight starts a UTC day, and the next date of the month is one day later. */
  lemma DateUtcMidnight(year: int, monthIndex: int, date: int)
    requires DateUtc(year, monthIndex, date, 0, 0, 0).Some?
    ensures var t := DateUtc(year, monthIndex, date, 0, 0, 0).value;
            TimeInDay(t) == 0
            && DateUtc(year, monthIndex, date + 1, 0, 0, 0) == if t + MsPerDay <= MaxTime then Some(t + MsPerDay) else None
  {
    var y := if 0 <= year <= 99 then 1900 + year else year;
    var day := DaysFromCivil(y + monthIndex / 12, monthIndex % 12 + 1, 1) + date - 1;
    assert DateUtc(year, monthIndex, date, 0, 0, 0).value == day * MsPerDay;
    DayOfMultiple(day);
  }

  /** Day number of a time value. */
  function DayOf(t: int): int {
    t / MsPerDay
  }

  /** Milliseconds since the start of the UTC day. */
  function TimeInDay(t: int): (r: int)
    ensures 0 <= r < MsPerDay
  {
    t % MsPerDay
  }

  /** `getUTCFullYear`, `getUTCMonth() + 1` and `getUTCDate` together. */
  function UtcDate(t: int): (c: Civil)
    ensures 1 <= c.month <= 12 && 1 <= c.day <= 31
    ensures DaysFromCivil(c.year, c.month, c.day) == DayOf(t)
  {
    CivilFromDays(DayOf(t))
  }

  function UtcHours(t: int): (r: int)
    ensures 0 <= r < 24
  {
    TimeInDay(t) / MsPerHour
  }

  function UtcMinutes(t: int): (r: int)
    ensures 0 <= r < 60
  {
    TimeInDay(t) % MsPerHour / MsPerMinute
  }

  function UtcSeconds(t: int): (r: int)
    ensures 0 <= r < 60
  {
    TimeInDay(t) % MsPerMinute / MsPerSecond
  }

  function UtcMilliseconds(t: int): (r: int)
    ensures 0 <= r < 1000
  {
    TimeInDay(t) % MsPerSecond
  }

  /** `getUTCDay`: 0 is Sunday; 1970-01-01 was a Thursday. */
  function UtcWeekDay(t: int): (r: int)
    ensures 0 <= r < 7
  {
    (DayOf(t) + 4) % 7
  }

  /**
   * `new Date(Date.UTC(d.getUTCFullYear(), d.getUTCMonth(), d.getUTCDate()))`:
   * the UTC midnight of a time value's day.
   */
  function UtcMidnight(t: int): Option<int> {
    var c := UtcDate(t);
    DateUtc(c.year, c.month - 1, c.day, 0, 0, 0)
  }

  /** A UTC midnight is the first instant of its day. */
  lemma UtcMidnightIsMidnight(t: int)
    ensures UtcMidnight(t).Some? ==> TimeInDay(UtcMidnight(t).value) == 0
  {
    hide UtcDate, DateUtc, TimeInDay;
    var c := UtcDate(t);
    if DateUtc(c.year, c.month - 1, c.day, 0, 0, 0).Some? {
      DateUtcMidnight(c.year, c.month - 1, c.day);
    }
  }

  lemma DateUtcOfCivil(c: Civil)
    requires 1 <= c.month <= 12
    ensures var y := if 0 <= c.year <= 99 then c.year + 1900 else c.year;
            var t := DaysFromCivil(y, c.month, c.day) * MsPerDay;
            DateUtc(c.year, c.month - 1, c.day, 0, 0, 0) == if -MaxTime <= t <= MaxTime then Some(t) else None
  {
    assert (c.month - 1) / 12 == 0 && (c.month - 1) % 12 == c.month - 1;
  }

  lemma FloorDay(t: int)
    ensures DayOf(t) * MsPerDay == t - TimeInDay(t)
  {
  }

  /** Outside the years 0..99, UtcMidnight truncates to the start of the UTC day. */
  lemma UtcMidnightTruncates(t: int)
    requires -MaxTime <= t <= MaxTime
    requires !(0 <= UtcDate(t).year <= 99)
    ensures UtcMidnight(t) == Some(t - TimeInDay(t))
  {
    var c := UtcDate(t);
    DateUtcOfCivil(c);
    FloorDay(t);
    var z := DaysFromCivil(c.year, c.month, c.day);
    assert z == DayOf(t);
    assert z * MsPerDay == t - TimeInDay(t);
    DayStartInRange(z);
  }

  lemma DayOfMultiple(z: int)
    ensures DayOf(z * MsPerDay) == z && TimeInDay(z * MsPerDay) == 0
  {
  }

  /** The valid time range starts and ends on a day boundary. */
  lemma DayStartInRange(z: int)
    requires -MaxTime - MsPerDay < z * MsPerDay <= MaxTime
    ensures -MaxTime <= z * MsPerDay
  {
  }

  /** In the years 0..99, UtcMidnight lands 1900 years later. */
  lemma UtcMidnightCenturyQuirk(t: int)
    requires 0 <= UtcDate(t).year <= 99
    ensures UtcMidnight(t).Some? ==> UtcDate(UtcMidnight(t).value).year == UtcDate(t).year + 1900
  {
    hide DateUtc, CivilFromDays, DayFromYear;
    var c := UtcDate(t);
    DateUtcOfCivil(c);
    var m := UtcMidnight(t);
    if m.Some? {
      var y := c.year + 1900;
      var z := DaysFromCivil(y, c.month, c.day);
      assert m.value == z * MsPerDay;
      DayOfMultiple(z);
      var d := UtcDate(m.value);
      DayInYear(d);
      DayInShiftedYear(c.year, y, c.month, c.day);
      YearUnique(d.year, y, z);
    }
  }

  /** A valid month and day of one year fall inside any other year, even when that one has no February 29. */
  lemma DayInShiftedYear(x: int, y: int, month: int, day: int)
    requires 1 <= month <= 12 && 1 <= day <= DaysInMonth(x, month)
    ensures DayFromYear(y) <= DaysFromCivil(y, month, day) < DayFromYear(y) + DaysInYear(y)
  {
    hide DayFromYear;
  }

  /** Only one year contains a given day number. */
  lemma YearUnique(a: int, b: int, z: int)
    requires DayFromYear(a) <= z < DayFromYear(a) + DaysInYear(a)
    requires DayFromYear(b) <= z < DayFromYear(b) + DaysInYear(b)
    ensures a == b
  {
    if a < b {
      YearsAfter(a, b);
    } else if b < a {
      YearsAfter(b, a);
    }
  }

  /** A valid date is determined by its day number. */
  lemma CivilUnique(a: Civil, b: Civil)
    requires 1 <= a.month <= 12 && 1 <= a.day <= DaysInMonth(a.year, a.month)
    requires 1 <= b.month <= 12 && 1 <= b.day <= DaysInMonth(b.year, b.month)
    requires DaysFromCivil(a.year, a.month, a.day) == DaysFromCivil(b.year, b.month, b.day)
    ensures a == b
  {
    DayInYear(a);
    DayInYear(b);
    YearUnique(a.year, b.year, DaysFromCivil(a.year, a.month, a.day));
    MonthUnique(a.year, a.month, a.day, b.month, b.day);
  }

  lemma DayInYear(c: Civil)
    requires 1 <= c.month <= 12 && 1 <= c.day <= DaysInMonth(c.year, c.month)
    ensures DayFromYear(c.year) <= DaysFromCivil(c.year, c.month, c.day) < DayFromYear(c.year) + DaysInYear(c.year)
  {
  }

  lemma {:induction false} YearsAfter(a: int, b: int)
    requires a < b
    ensures DayFromYear(a) + DaysInYear(a) <= DayFromYear(b)
    decreases b - a
  {
    YearLength(a);
    if a + 1 < b {
      YearsAfter(a + 1, b);
      YearLength(a + 1);
    }
  }

  lemma MonthUnique(y: int, m1: int, d1: int, m2: int, d2: int)
    requires 1 <= m1 <= 12 && 1 <= d1 <= DaysInMonth(y, m1)
    requires 1 <= m2 <= 12 && 1 <= d2 <= DaysInMonth(y, m2)
    requires DaysBeforeMonth(y, m1) + d1 == DaysBeforeMonth(y, m2) + d2
    ensures m1 == m2 && d1 == d2
  {
  }

  /** `String(n).padStart(width, "0")` for a non-negative integer. */
  function ZeroPad(n: nat, width: nat): (r: string)
    ensures |r| >= width && AllDigits(r)
  {
    ZeroPadValue(NatToString(n), width);
    PadStart(NatToString(n), width, '0')
  }

  /** `YYYY-MM-DD` with the year as `String(year)`, month and day zero-padded to two digits. */
  function FormatYmd(c: Civil): (r: string)
    ensures '|' !in r
  {
    IntToString(c.year) + "-" + Pad2(c.month) + "-" + Pad2(c.day)
  }

  /** The year field of `toISOString`: four digits, or a sign and six digits outside 0..9999. */
  function IsoYear(year: int): (r: string)
    ensures r != [] && (IsDigit(r[0]) || r[0] == '-' || r[0] == '+')
  {
    if 0 <= year <= 9999 then ZeroPad(year, 4)
    else if year < 0 then "-" + ZeroPad(-year, 6)
    else "+" + ZeroPad(year, 6)
  }

  /** Everything of `toISOString` after the year, ending in `Z`. */
  function IsoTail(t: int): (r: string)
    ensures r != [] && r[|r| - 1] == 'Z'
  {
    var c := UtcDate(t);
    var rest := "-" + Pad2(c.month) + "-" + Pad2(c.day) + "T" + Pad2(UtcHours(t)) + ":" + Pad2(UtcMinutes(t)) + ":"
      + Pad2(UtcSeconds(t)) + "." + ZeroPad(UtcMilliseconds(t), 3);
    rest + "Z"
  }

  /** `toISOString` of a valid time value: `YYYY-MM-DDTHH:mm:ss.sssZ`, or a signed six-digit year. */
  function IsoString(t: int): string {
    IsoYear(UtcDate(t).year) + IsoTail(t)
  }
}
