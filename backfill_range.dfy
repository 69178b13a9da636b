/**
 * `utcRangeForEtDay`: the UTC instants bounding one Eastern calendar day,
 * found by reading the Eastern wall clock at the UTC midnights of that day
 * and of the next one.
 */
module BackfillRange {
  import opened Wrappers
  import opened Text
  import opened Js
  import opened Calendar
  import Eastern

  /** The half-open interval `[start, end)` of epoch milliseconds. */
  datatype Range = Range(start: int, end: int)

  /** `Number(part)` for a component of the day text, NaN when the component is missing. */
  function Component(parts: seq<string>, i: nat): Number {
    if i < |parts| then ParseNumber(parts[i]) else NaN
  }

  /**
   * Wall-clock minutes read at a UTC midnight, turned into the offset of the
   * zone from UTC: readings past noon belong to the previous day.
   */
  function FoldOffset(local: int): (r: int)
    ensures r == local || r == local - 24 * 60
    ensures 0 <= local < 25 * 60 ==> -12 * 60 < r <= 12 * 60
  {
    if local > 12 * 60 then local - 24 * 60 else local
  }

  /** The offset of Eastern time from UTC, in minutes, as the script derives it at `t`. */
  function OffsetAt(env: Eastern.Oracles, t: int): (r: int)
    ensures -12 * 60 < r <= 12 * 60
  {
    FoldOffset(Eastern.WallMinutes(env, t))
  }

  function InvalidDay(day: string): string {
    "Invalid day '" + day + "', expected YYYY-MM-DD"
  }

  const InvalidTime := "Invalid time value"

  predicate ValidTime(t: int) {
    -MaxTime <= t <= MaxTime
  }

  /** `Date.UTC(y, m - 1, d, 0, 0, 0)` for finite `y`, `m` and `d`. */
  function UtcMidnightOf(y: real, m: real, d: real): Option<int> {
    DateUtc(Trunc(y), Trunc(m - 1.0), Trunc(d), 0, 0, 0)
  }

  /** `Number` of the year, month and day components, when all three are finite. */
  function DayComponents(day: string): (r: Option<(real, real, real)>)
    ensures var parts := Split(day, '-');
            r.Some? <==> Component(parts, 0).Finite? && Component(parts, 1).Finite? && Component(parts, 2).Finite?
  {
    var parts := Split(day, '-');
    var y := Component(parts, 0);
    var m := Component(parts, 1);
    var d := Component(parts, 2);
    if y.Finite? && m.Finite? && d.Finite? then Some((y.value, m.value, d.value)) else None
  }

  /**
   * The range between two UTC midnights, each moved back by the Eastern
   * offset read there; an invalid midnight or an instant outside the range
   * of time values is an error.
   */
  function RangeFromMidnights(env: Eastern.Oracles, guess: Option<int>, next: Option<int>): (r: Result<Range, string>)
    ensures r.Ok? ==> ValidTime(r.value.start) && ValidTime(r.value.end)
    ensures r.Err? ==> r.error == InvalidTime
    ensures r.Ok? ==> guess.Some? && next.Some?
                      && r.value.start == guess.value - OffsetAt(env, guess.value) * MsPerMinute
                      && r.value.end == next.value - OffsetAt(env, next.value) * MsPerMinute
  {
    match (guess, next)
    case (Some(g), Some(n)) =>
      var start := g - OffsetAt(env, g) * MsPerMinute;
      var end := n - OffsetAt(env, n) * MsPerMinute;
      if ValidTime(start) && ValidTime(end) then Ok(Range(start, end)) else Err(InvalidTime)
    case _ => Err(InvalidTime)
  }

  /** `Date.UTC(y, m - 1, d, 0, 0, 0)` for the components of the day, when they are finite. */
  function GuessOf(day: string): Option<int> {
    match DayComponents(day)
    case None => None
    case Some((y, m, d)) => UtcMidnightOf(y, m, d)
  }

  /** The range runs from the UTC midnight `guess` to the next one, each moved back by the Eastern offset read there. */
  predicate FromMidnight(env: Eastern.Oracles, r: Range, guess: int) {
    TimeInDay(guess) == 0
    && r.start == guess - OffsetAt(env, guess) * MsPerMinute
    && r.end == guess + MsPerDay - OffsetAt(env, guess + MsPerDay) * MsPerMinute
  }

  /**
   * `utcRangeForEtDay`: the day is split at `-` into year, month and day;
   * a component that is not a finite number is rejected, and so is a date
   * outside the range of JavaScript time values.  Every range it builds
   * runs between consecutive UTC midnights shifted by the Eastern offset,
   * so it is non-empty and lasts one day, shortened or lengthened by the
   * change of offset (23 or 25 hours across a daylight-saving switch).
   */
  function UtcRangeForEtDay(env: Eastern.Oracles, day: string): (r: Result<Range, string>)
    ensures r.Ok? ==> ValidTime(r.value.start) && ValidTime(r.value.end)
    ensures r.Ok? ==> DayComponents(day).Some? && GuessOf(day).Some? && FromMidnight(env, r.value, GuessOf(day).value)
    ensures r.Ok? ==> r.value.start < r.value.end
                      && r.value.end - r.value.start < 2 * MsPerDay
    ensures r.Err? ==> r.error == InvalidDay(day) || r.error == InvalidTime
  {
    match DayComponents(day)
    case None => Err(InvalidDay(day))
    case Some((y, m, d)) =>
      var g := UtcMidnightOf(y, m, d);
      var n := UtcMidnightOf(y, m, d + 1.0);
      var r := RangeFromMidnights(env, g, n);
      if r.Err? then r
      else
        ComponentsNonNegative(day);
        NextMidnight(y, m, d);
        assert FromMidnight(env, r.value, g.value);
        r
  }

  /** The two error messages differ. */
  lemma ErrorsDiffer(day: string)
    ensures InvalidDay(day) != InvalidTime
  {
    assert InvalidDay(day)[8] == 'd' && InvalidTime[8] == 't';
  }

  /** A day is rejected as malformed exactly when one of its three components is not a finite number. */
  lemma RangeRejectsNonNumbers(env: Eastern.Oracles, day: string)
    ensures var parts := Split(day, '-');
            UtcRangeForEtDay(env, day) == Err(InvalidDay(day))
            <==> !(Component(parts, 0).Finite? && Component(parts, 1).Finite? && Component(parts, 2).Finite?)
  {
    hide ParseNumber, Split, DateUtc, RangeFromMidnights, UtcMidnightOf, OffsetAt;
    ErrorsDiffer(day);
  }

  /** The components of the day carry no minus sign, so none of them is negative. */
  lemma ComponentsNonNegative(day: string)
    requires DayComponents(day).Some?
    ensures DayComponents(day).value.0 >= 0.0 && DayComponents(day).value.1 >= 0.0 && DayComponents(day).value.2 >= 0.0
  {
    hide ParseNumber, Split;
    var parts := Split(day, '-');
    ParseUnsigned(parts[0]);
    ParseUnsigned(parts[1]);
    ParseUnsigned(parts[2]);
  }

  /**
   * A UTC midnight is the start of a UTC day, and one more day of the month
   * is one UTC day later, for a day of the month that is not negative.
   */
  lemma NextMidnight(y: real, m: real, d: real)
    requires d >= 0.0
    requires UtcMidnightOf(y, m, d).Some? && UtcMidnightOf(y, m, d + 1.0).Some?
    ensures TimeInDay(UtcMidnightOf(y, m, d).value) == 0
    ensures UtcMidnightOf(y, m, d + 1.0).value == UtcMidnightOf(y, m, d).value + MsPerDay
  {
    assert Trunc(d + 1.0) == Trunc(d) + 1;
    DateUtcMidnight(Trunc(y), Trunc(m - 1.0), Trunc(d));
  }

  /** A day written by `etDay` splits into its year, month and day fields. */
  lemma SplitFormatted(c: Civil)
    requires c.year >= 0
    ensures Split(FormatYmd(c), '-') == [NatToString(c.year), Pad2(c.month), Pad2(c.day)]
  {
    var y, m, d := NatToString(c.year), Pad2(c.month), Pad2(c.day);
    assert '-' !in y && '-' !in m && '-' !in d;
    assert FormatYmd(c) == y + ['-'] + (m + ['-'] + d);
    SplitAfterPart(y, '-', m + ['-'] + d);
    SplitAfterPart(m, '-', d);
    SplitOfPart(d, '-');
  }

  /** The fields of a day written by `etDay` read back as its year, month and day. */
  lemma ComponentsOfFormatted(c: Civil)
    requires c.year >= 0
    ensures DayComponents(FormatYmd(c)) == Some((c.year as real, c.month as real, c.day as real))
  {
    hide ParseNumber, Split, NatToString, Pad2, DigitsValue, FormatYmd;
    SplitFormatted(c);
    NatToStringValue(c.year);
    Pad2Value(c.month);
    Pad2Value(c.day);
    ParseDigits(NatToString(c.year));
    ParseDigits(Pad2(c.month));
    ParseDigits(Pad2(c.day));
  }

  /**
   * For a day written by `etDay` (a year from 100 on, so that `Date.UTC`
   * does not move it into the 1900s), the range starts from that date's
   * UTC midnight.
   */
  lemma FormattedDayGuess(c: Civil)
    requires c.year >= 100 && 1 <= c.month <= 12
    ensures var t := DaysFromCivil(c.year, c.month, c.day) * MsPerDay;
            GuessOf(FormatYmd(c)) == if ValidTime(t) then Some(t) else None
  {
    hide FormatYmd, DaysFromCivil, DateUtc, DayComponents, UtcMidnightOf, GuessOf;
    var t := DaysFromCivil(c.year, c.month, c.day) * MsPerDay;
    var g := DateUtc(c.year, c.month - 1, c.day, 0, 0, 0);
    DateUtcOfCivil(c);
    assert g == if ValidTime(t) then Some(t) else None;
    ComponentsOfFormatted(c);
    GuessOfComponents(FormatYmd(c), c.year as real, c.month as real, c.day as real);
    UtcMidnightOfIntegers(c.year, c.month, c.day);
    assert GuessOf(FormatYmd(c)) == g;
  }

  lemma GuessOfComponents(day: string, y: real, m: real, d: real)
    requires DayComponents(day) == Some((y, m, d))
    ensures GuessOf(day) == UtcMidnightOf(y, m, d)
  {
    hide DayComponents, UtcMidnightOf;
  }

  lemma UtcMidnightOfIntegers(y: int, m: int, d: int)
    ensures UtcMidnightOf(y as real, m as real, d as real) == DateUtc(y, m - 1, d, 0, 0, 0)
  {
    hide DateUtc;
    assert Trunc(y as real) == y && Trunc(m as real - 1.0) == m - 1 && Trunc(d as real) == d;
  }

  /**
   * The Eastern clock runs `offset` minutes ahead of UTC at `t`: the wall
   * clock shows the UTC minute of the day shifted by the offset.
   */
  predicate ClockOffsetAt(env: Eastern.Oracles, t: int, offset: int) {
    Eastern.WallMinutes(env, t) == (TimeInDay(t) / MsPerMinute + offset) % (24 * 60)
  }

  /**
   * When the offset is the same at the UTC midnight and at the start the
   * script derives from it, the start is an Eastern midnight: the wall
   * clock reads 00:00 there.
   */
  lemma StartIsEasternMidnight(env: Eastern.Oracles, guess: int, offset: int)
    requires TimeInDay(guess) == 0
    requires -12 * 60 < offset <= 12 * 60
    requires ClockOffsetAt(env, guess, offset)
    requires ClockOffsetAt(env, guess - offset * MsPerMinute, offset)
    ensures OffsetAt(env, guess) == offset
    ensures Eastern.WallMinutes(env, guess - OffsetAt(env, guess) * MsPerMinute) == 0
  {
    hide Eastern.WallMinutes;
    var t := guess - offset * MsPerMinute;
    var z := guess / MsPerDay;
    FloorDay(guess);
    assert guess == z * MsPerDay;
    var minute: int;
    if offset > 0 {
      minute := 24 * 60 - offset;
      assert t == (z - 1) * MsPerDay + minute * MsPerMinute;
      TimeOfDay(z - 1, minute * MsPerMinute);
    } else {
      minute := -offset;
      assert t == z * MsPerDay + minute * MsPerMinute;
      TimeOfDay(z, minute * MsPerMinute);
    }
    assert TimeInDay(t) / MsPerMinute == minute;
    assert (minute + offset) % (24 * 60) == 0;
    assert Eastern.WallMinutes(env, guess) == if offset >= 0 then offset else offset + 24 * 60;
  }

  /** The time of day of an instant `r` milliseconds into day `z`. */
  lemma TimeOfDay(z: int, r: int)
    requires 0 <= r < MsPerDay
    ensures TimeInDay(z * MsPerDay + r) == r
  {
  }
}
