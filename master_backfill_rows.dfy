/**
 * How scripts/masterBackfillCsv.ts reads a Vagaro export: header
 * normalisation, the first non-blank of several columns, money cells, the
 * created date of a row, the CSV and XLSX readers, and the manual webhook
 * body built from one row.
 */
module MasterBackfillRows {
  import opened Wrappers
  import opened Text
  import opened Js
  import Calendar
  import Eastern
  import Sheet

  /** A parsed row: normalised header to cell text (a missing key is `undefined`). */
  type CsvRow = map<string, string>

  // ---------------------------------------------------------------- money

  /** The characters `/[$,\s]/g` removes. */
  predicate MoneyNoise(c: char) {
    c == '$' || c == ',' || IsSpace(c)
  }

  function StripMoney(s: string): (r: string)
    ensures forall i :: 0 <= i < |r| ==> !MoneyNoise(r[i])
  {
    Keep(s, c => !MoneyNoise(c))
  }

  /** `replace(/^\((.*)\)$/, "-$1")`: an amount in parentheses is negative. */
  function Unparen(s: string): (r: string)
    ensures |s| >= 2 && s[0] == '(' && s[|s| - 1] == ')' ==> r == "-" + s[1..|s| - 1]
    ensures !(|s| >= 2 && s[0] == '(' && s[|s| - 1] == ')') ==> r == s
  {
    if |s| >= 2 && s[0] == '(' && s[|s| - 1] == ')' then "-" + s[1..|s| - 1] else s
  }

  /** `parseMoney`: a missing or empty cell is 0, and so is anything that does not read as a finite number. */
  function ParseMoney(value: Option<string>): real {
    if value.None? || value.value == "" then 0.0
    else
      var n := ParseNumber(Unparen(StripMoney(value.value)));
      if n.Finite? then n.value else 0.0
  }

  /** Text with no noise character and not in parentheses passes through the cleaning unchanged. */
  lemma CleanNumeral(x: string)
    requires forall i :: 0 <= i < |x| ==> Sheet.IsNumeralChar(x[i])
    ensures StripMoney("$" + x) == x && StripMoney(x) == x
    ensures StripMoney("(" + x + ")") == "(" + x + ")"
  {
    var keep := (c: char) => !MoneyNoise(c);
    assert ("$" + x)[1..] == x;
    assert StripMoney(x) == x;
    var p := "(" + x + ")";
    assert forall i :: 0 <= i < |p| ==> keep(p[i]) by {
      forall i | 0 <= i < |p| ensures keep(p[i]) {
        if 0 < i < |p| - 1 { assert p[i] == x[i - 1]; }
      }
    }
  }

  /** A dollar amount written with cents reads back as that amount. */
  lemma ParseMoneyCents(c: int)
    ensures ParseMoney(Some("$" + FormatCents(c))) == c as real / 100.0
    ensures ParseMoney(Some(FormatCents(c))) == c as real / 100.0
  {
    hide SignedDecimalText, StripMoney, Keep, ParseNumber;
    var x := FormatCents(c);
    assert x == SignedDecimalText(c, 2);
    Sheet.SignedDecimalTextShape(c, 2);
    CleanNumeral(x);
    assert Unparen(x) == x;
    ParseFormatCents(c);
  }

  lemma ParenthesesCleaned(c: nat)
    ensures Unparen(StripMoney("(" + FormatCents(c) + ")")) == "-" + DecimalText(c, 2)
  {
    hide DecimalText, StripMoney, Keep, Sheet.IsNumeralChar;
    var x := FormatCents(c);
    assert x == SignedDecimalText(c, 2) == DecimalText(c, 2);
    Sheet.SignedDecimalTextShape(c, 2);
    CleanNumeral(x);
    var p := "(" + x + ")";
    assert p[0] == '(' && p[|p| - 1] == ')' && p[1..|p| - 1] == x;
  }

  /** An amount in parentheses is the negative of the same amount without them. */
  lemma ParseMoneyParentheses(c: nat)
    ensures ParseMoney(Some("(" + FormatCents(c) + ")")) == -(c as real / 100.0)
  {
    hide FormatCents, DecimalText, ParseNumber, StripMoney, Unparen;
    ParenthesesCleaned(c);
    ParseDecimalText(c, 2);
    assert Unshift10(c as real, 2) == c as real / 100.0 by {
      assert Unshift10(c as real, 1) == c as real / 10.0;
    }
  }

  /** Text that is not a number counts as 0. */
  lemma ParseMoneyGarbage(s: string)
    requires s != "" && !ParseNumber(Unparen(StripMoney(s))).Finite?
    ensures ParseMoney(Some(s)) == 0.0
  {
  }

  // ---------------------------------------------------------------- headers

  /** `normalizeHeader`: trimmed, lower case, every run of white space one blank. */
  function NormalizeHeader(h: string): string {
    CollapseSpaces(Lower(Trim(h)))
  }

  /** The shape every normalised header has. */
  predicate Normalized(s: string) {
    (s == [] || (!IsSpace(s[0]) && !IsSpace(s[|s| - 1])))
    && (forall i :: 0 <= i < |s| ==> !IsUpperAlpha(s[i]))
    && (forall i :: 0 <= i < |s| && IsSpace(s[i]) ==> s[i] == ' ')
    && (forall i :: 0 <= i < |s| - 1 && s[i] == ' ' ==> s[i + 1] != ' ')
  }

  /** Collapsing keeps every non-blank character from the input and adds only blanks. */
  lemma {:induction false} CollapseKeeps(s: string, ok: char -> bool)
    requires forall i :: 0 <= i < |s| ==> ok(s[i])
    ensures forall i :: 0 <= i < |CollapseSpaces(s)| ==> CollapseSpaces(s)[i] == ' ' || ok(CollapseSpaces(s)[i])
    decreases |s|
  {
    if s != [] {
      if IsSpace(s[0]) {
        var rest := TrimStart(s);
        assert forall i :: 0 <= i < |rest| ==> rest[i] == s[|s| - |rest| + i];
        CollapseKeeps(rest, ok);
      } else {
        CollapseKeeps(s[1..], ok);
      }
    }
  }

  /** A string that ends in a non-blank still does after collapsing. */
  lemma {:induction false} CollapseLast(s: string)
    requires s != [] && !IsSpace(s[|s| - 1])
    ensures var r := CollapseSpaces(s); r != [] && !IsSpace(r[|r| - 1])
    decreases |s|
  {
    if IsSpace(s[0]) {
      var rest := TrimStart(s);
      assert rest != [] && rest[|rest| - 1] == s[|s| - 1];
      CollapseLast(rest);
    } else if |s| > 1 {
      assert s[1..][|s| - 2] == s[|s| - 1];
      CollapseLast(s[1..]);
    }
  }

  /** A string already in collapsed form is left alone. */
  lemma {:induction false} CollapseFixed(s: string)
    requires forall i :: 0 <= i < |s| && IsSpace(s[i]) ==> s[i] == ' '
    requires forall i :: 0 <= i < |s| - 1 && s[i] == ' ' ==> s[i + 1] != ' '
    ensures CollapseSpaces(s) == s
    decreases |s|
  {
    if s != [] {
      if IsSpace(s[0]) {
        assert s[1..] == [] || !IsSpace(s[1]);
        assert TrimStart(s) == TrimStart(s[1..]) == s[1..];
        CollapseFixed(s[1..]);
        assert s == " " + s[1..];
      } else {
        CollapseFixed(s[1..]);
        assert s == [s[0]] + s[1..];
      }
    }
  }

  lemma LowerFixed(s: string)
    requires forall i :: 0 <= i < |s| ==> !IsUpperAlpha(s[i])
    ensures Lower(s) == s
  {
  }

  /** Every normalised header has the normalised shape. */
  lemma NormalizeHeaderShape(h: string)
    ensures Normalized(NormalizeHeader(h))
  {
    hide Trim, Lower, CollapseSpaces;
    var t := Trim(h);
    var l := Lower(t);
    var r := CollapseSpaces(l);
    assert forall i :: 0 <= i < |l| ==> !IsUpperAlpha(l[i]);
    assert forall i :: 0 <= i < |l| ==> (IsSpace(l[i]) <==> IsSpace(t[i]));
    CollapseKeeps(l, c => !IsUpperAlpha(c));
    if l != [] {
      CollapseLast(l);
    }
  }

  /** `normalizeHeader` is idempotent: a header that went through it once goes through unchanged. */
  lemma NormalizeHeaderIdempotent(h: string)
    ensures NormalizeHeader(NormalizeHeader(h)) == NormalizeHeader(h)
  {
    var s := NormalizeHeader(h);
    NormalizeHeaderShape(h);
    if s != [] {
      TrimUnchanged(s);
    }
    LowerFixed(s);
    CollapseFixed(s);
  }

  // ---------------------------------------------------------------- get

  /** Column `keys[i]` is present and not blank. */
  predicate FilledAt(row: CsvRow, keys: seq<string>, i: nat)
    requires i < |keys|
  {
    keys[i] in row && Trim(row[keys[i]]) != ""
  }

  /** `get(row, ...keys)`: the trimmed text of the first listed column that is present and not blank. */
  function GetColumn(row: CsvRow, keys: seq<string>): Option<string>
    decreases |keys|
  {
    if keys == [] then None
    else if FilledAt(row, keys, 0) then Some(Trim(row[keys[0]]))
    else GetColumn(row, keys[1..])
  }

  /** The value found is the first filled column's, and no column before it is filled. */
  lemma {:induction false} GetFirstFilled(row: CsvRow, keys: seq<string>)
    ensures GetColumn(row, keys).None? <==> forall i :: 0 <= i < |keys| ==> !FilledAt(row, keys, i)
    ensures GetColumn(row, keys).Some? ==>
              exists i :: 0 <= i < |keys| && FilledAt(row, keys, i) && GetColumn(row, keys).value == Trim(row[keys[i]])
                          && forall j :: 0 <= j < i ==> !FilledAt(row, keys, j)
    decreases |keys|
  {
    hide Trim;
    if keys != [] {
      var rest := keys[1..];
      GetFirstFilled(row, rest);
      forall i | 1 <= i < |keys|
        ensures FilledAt(row, keys, i) == FilledAt(row, rest, i - 1)
      {
        assert keys[i] == rest[i - 1];
      }
      if !FilledAt(row, keys, 0) {
        assert GetColumn(row, keys) == GetColumn(row, rest);
        if GetColumn(row, rest).Some? {
          var i :| 0 <= i < |rest| && FilledAt(row, rest, i) && GetColumn(row, rest).value == Trim(row[rest[i]])
                    && forall j :: 0 <= j < i ==> !FilledAt(row, rest, j);
          assert FilledAt(row, keys, i + 1) && rest[i] == keys[i + 1];
          assert forall j :: 0 <= j < i + 1 ==> !FilledAt(row, keys, j);
        }
      }
    }
  }

  /** The text found is trimmed and not empty. */
  lemma {:induction false} GetTrimmed(row: CsvRow, keys: seq<string>)
    requires GetColumn(row, keys).Some?
    ensures GetColumn(row, keys).value != "" && Trim(GetColumn(row, keys).value) == GetColumn(row, keys).value
    decreases |keys|
  {
    if !FilledAt(row, keys, 0) {
      GetTrimmed(row, keys[1..]);
    } else {
      var v := Trim(row[keys[0]]);
      TrimUnchanged(v);
    }
  }

  // ---------------------------------------------------------------- dates

  /** The number of decimal digits `s` starts with. */
  function LeadingDigits(s: string): (n: nat)
    ensures n <= |s| && AllDigits(s[..n]) && (n == |s| || !IsDigit(s[n]))
    decreases |s|
  {
    if s != [] && IsDigit(s[0]) then
      var n := 1 + LeadingDigits(s[1..]);
      assert forall i :: 1 <= i < n ==> s[..n][i] == s[1..][..n - 1][i - 1];
      n
    else 0
  }

  /** The number of white-space characters `s` starts with. */
  function LeadingSpaces(s: string): (n: nat)
    ensures n <= |s| && (n == |s| || !IsSpace(s[n]))
    ensures forall i :: 0 <= i < n ==> IsSpace(s[i])
    decreases |s|
  {
    if s != [] && IsSpace(s[0]) then 1 + LeadingSpaces(s[1..]) else 0
  }

  datatype TimeOfDay = TimeOfDay(hour: nat, minute: nat, second: Option<nat>)
  datatype SlashDate = SlashDate(month: nat, day: nat, year: nat, time: Option<TimeOfDay>)

  /** `(\d{1,2}):(\d{2})(?::(\d{2}))?$`. */
  function ClockOf(t: string): Option<TimeOfDay> {
    var h := LeadingDigits(t);
    if h < 1 || h > 2 || h == |t| || t[h] != ':' then None
    else
      var rest := t[h + 1..];
      if LeadingDigits(rest) != 2 then None
      else if |rest| == 2 then Some(TimeOfDay(DigitsValue(t[..h]), DigitsValue(rest[..2]), None))
      else if rest[2] != ':' then None
      else
        var sec := rest[3..];
        if |sec| == 2 && AllDigits(sec) then Some(TimeOfDay(DigitsValue(t[..h]), DigitsValue(rest[..2]), Some(DigitsValue(sec))))
        else None
  }

  /** `(?:\s+<clock>)?$` after the year: Some(None) when nothing follows, None when the text does not match. */
  function TimeSuffix(t: string): Option<Option<TimeOfDay>> {
    if t == [] then Some(None)
    else
      var sp := LeadingSpaces(t);
      if sp == 0 then None
      else
        match ClockOf(t[sp..])
        case Some(c) => Some(Some(c))
        case None => None
  }

  /** `^(\d{1,2})\/(\d{1,2})\/(\d{4})(?:\s+(\d{1,2}):(\d{2})(?::(\d{2}))?)?$`. */
  function SlashDateOf(s: string): Option<SlashDate> {
    var a := LeadingDigits(s);
    if a < 1 || a > 2 || a == |s| || s[a] != '/' then None
    else
      var s1 := s[a + 1..];
      var b := LeadingDigits(s1);
      if b < 1 || b > 2 || b == |s1| || s1[b] != '/' then None
      else
        var s2 := s1[b + 1..];
        if LeadingDigits(s2) != 4 then None
        else
          match TimeSuffix(s2[4..])
          case None => None
          case Some(time) => Some(SlashDate(DigitsValue(s[..a]), DigitsValue(s1[..b]), DigitsValue(s2[..4]), time))
  }

  /** Fields that fit the pattern's digit counts. */
  predicate Writable(d: SlashDate) {
    d.month < 100 && d.day < 100 && 1000 <= d.year <= 9999
    && (d.time.Some? ==> d.time.value.hour < 100 && d.time.value.minute < 100
                         && (d.time.value.second.Some? ==> d.time.value.second.value < 100))
  }

  function ClockText(t: TimeOfDay): string {
    NatToString(t.hour) + ":" + Pad2(t.minute) + (if t.second.Some? then ":" + Pad2(t.second.value) else "")
  }

  /** `M/D/YYYY`, optionally followed by a blank and `H:MM` or `H:MM:SS`. */
  function SlashText(d: SlashDate): string {
    NatToString(d.month) + "/" + NatToString(d.day) + "/" + NatToString(d.year)
    + (if d.time.Some? then " " + ClockText(d.time.value) else "")
  }

  lemma {:induction false} LeadingDigitsOf(a: string, rest: string)
    requires AllDigits(a) && (rest == [] || !IsDigit(rest[0]))
    ensures LeadingDigits(a + rest) == |a|
    decreases |a|
  {
    if a != [] {
      assert (a + rest)[1..] == a[1..] + rest;
      LeadingDigitsOf(a[1..], rest);
    } else {
      assert a + rest == rest;
    }
  }

  lemma ShortNatText(n: nat)
    requires n < 100
    ensures 1 <= |NatToString(n)| <= 2 && DigitsValue(NatToString(n)) == n
  {
    NatToStringValue(n);
  }

  lemma YearText(n: nat)
    requires 1000 <= n <= 9999
    ensures |NatToString(n)| == 4 && DigitsValue(NatToString(n)) == n
  {
    NatToStringValue(n);
    assert |NatToString(n / 10)| == 3 by {
      assert |NatToString(n / 100)| == 2 by {
        assert |NatToString(n / 1000)| == 1;
      }
    }
  }

  lemma ClockRoundTrip(t: TimeOfDay)
    requires t.hour < 100 && t.minute < 100 && (t.second.Some? ==> t.second.value < 100)
    ensures ClockOf(ClockText(t)) == Some(t)
  {
    hide NatToString, DigitsValue, LeadingDigits;
    var h := NatToString(t.hour);
    var m := Pad2(t.minute);
    var tail := if t.second.Some? then ":" + Pad2(t.second.value) else "";
    var s := ClockText(t);
    assert s == h + (":" + (m + tail));
    ShortNatText(t.hour);
    Pad2Value(t.minute);
    LeadingDigitsOf(h, ":" + (m + tail));
    assert s[..|h|] == h && s[|h|] == ':';
    var rest := s[|h| + 1..];
    assert rest == m + tail;
    LeadingDigitsOf(m, tail);
    assert rest[..2] == m;
    if t.second.Some? {
      var sec := Pad2(t.second.value);
      Pad2Value(t.second.value);
      assert rest[2] == ':' && rest[3..] == sec;
    } else {
      assert rest == m;
    }
  }

  lemma TimeSuffixRoundTrip(t: TimeOfDay)
    requires t.hour < 100 && t.minute < 100 && (t.second.Some? ==> t.second.value < 100)
    ensures TimeSuffix(" " + ClockText(t)) == Some(Some(t))
  {
    var c := ClockText(t);
    var u := " " + c;
    ClockRoundTrip(t);
    assert c[0] == NatToString(t.hour)[0];
    hide ClockOf, ClockText;
    assert u[1..] == c;
    assert LeadingSpaces(u[1..]) == 0;
    assert LeadingSpaces(u) == 1;
  }

  /** A run of digits followed by a slash: the run, the slash and what follows it. */
  lemma PeelField(a: string, rest: string)
    requires AllDigits(a)
    ensures LeadingDigits(a + "/" + rest) == |a|
    ensures (a + "/" + rest)[..|a|] == a && (a + "/" + rest)[|a|] == '/' && (a + "/" + rest)[|a| + 1..] == rest
  {
    assert a + "/" + rest == a + ("/" + rest);
    LeadingDigitsOf(a, "/" + rest);
  }

  lemma SlashDateOfParts(a: string, b: string, y: string, t: string, time: Option<TimeOfDay>)
    requires AllDigits(a) && AllDigits(b) && AllDigits(y)
    requires 1 <= |a| <= 2 && 1 <= |b| <= 2 && |y| == 4
    requires (t == [] || !IsDigit(t[0])) && TimeSuffix(t) == Some(time)
    ensures SlashDateOf(a + "/" + (b + "/" + (y + t))) == Some(SlashDate(DigitsValue(a), DigitsValue(b), DigitsValue(y), time))
  {
    hide TimeSuffix, DigitsValue;
    PeelField(a, b + "/" + (y + t));
    PeelField(b, y + t);
    LeadingDigitsOf(y, t);
    assert (y + t)[..4] == y && (y + t)[4..] == t;
  }

  /** Any date in the pattern's form, written out, matches the pattern with the same fields. */
  lemma SlashDateRoundTrip(d: SlashDate)
    requires Writable(d)
    ensures SlashDateOf(SlashText(d)) == Some(d)
  {
    var a := NatToString(d.month);
    var b := NatToString(d.day);
    var y := NatToString(d.year);
    var t := if d.time.Some? then " " + ClockText(d.time.value) else "";
    ShortNatText(d.month);
    ShortNatText(d.day);
    YearText(d.year);
    if d.time.Some? {
      TimeSuffixRoundTrip(d.time.value);
    }
    assert TimeSuffix(t) == Some(d.time);
    assert SlashText(d) == a + "/" + (b + "/" + (y + t));
    hide NatToString, DigitsValue, ClockText, TimeSuffix, SlashText;
    SlashDateOfParts(a, b, y, t, d.time);
  }

  /** The columns `guessCreatedDate` looks at, in order. */
  const DateKeys: seq<string> :=
    ["date", "appointment date", "transaction date", "sale date", "created date", "createddate", "timestamp", "datetime", "time"]

  /** The instant the slash form denotes in UTC (noon when no time is given); None for an invalid date. */
  function SlashInstant(d: SlashDate): Option<int> {
    var hour := if d.time.Some? then d.time.value.hour else 12;
    var minute := if d.time.Some? then d.time.value.minute else 0;
    var second := if d.time.Some? && d.time.value.second.Some? then d.time.value.second.value else 0;
    Calendar.DateUtc(d.year, d.month - 1, d.day, hour, minute, second)
  }

  /**
   * `guessCreatedDate`: the first filled date column through the date
   * parser, else through the slash pattern, else now; now when no date
   * column is filled.  None is an invalid date, which only the slash form
   * can give (a year beyond the time range).
   */
  function GuessCreatedDate(env: Eastern.Oracles, row: CsvRow): Option<int> {
    match GetColumn(row, DateKeys)
    case None => Some(env.now)
    case Some(s) =>
      match env.parseDate(s)
      case Some(t) => Some(t)
      case None =>
        match SlashDateOf(s)
        case None => Some(env.now)
        case Some(d) => SlashInstant(d)
  }

  /** The order `guessCreatedDate` tries things in. */
  lemma GuessCreatedDateCases(env: Eastern.Oracles, row: CsvRow)
    ensures GetColumn(row, DateKeys).None? ==> GuessCreatedDate(env, row) == Some(env.now)
    ensures GetColumn(row, DateKeys).Some? && env.parseDate(GetColumn(row, DateKeys).value).Some? ==>
              GuessCreatedDate(env, row) == env.parseDate(GetColumn(row, DateKeys).value)
    ensures GuessCreatedDate(env, row).None? ==>
              GetColumn(row, DateKeys).Some? && env.parseDate(GetColumn(row, DateKeys).value).None?
              && SlashDateOf(GetColumn(row, DateKeys).value).Some?
  {
  }

  /** A `M/D/YYYY` date the parser rejects is read as noon UTC of that date. */
  lemma GuessSlashDate(env: Eastern.Oracles, row: CsvRow, d: SlashDate)
    requires Writable(d) && d.time.None?
    requires "date" in row && row["date"] == SlashText(d)
    requires env.parseDate(SlashText(d)).None?
    ensures GuessCreatedDate(env, row) == Calendar.DateUtc(d.year, d.month - 1, d.day, 12, 0, 0)
  {
    hide SlashDateOf, Calendar.DateUtc, Trim;
    var s := SlashText(d);
    assert s[0] == NatToString(d.month)[0];
    TrimUnchanged(s);
    assert FilledAt(row, DateKeys, 0);
    assert GetColumn(row, DateKeys) == Some(s);
    SlashDateRoundTrip(d);
  }

  // ---------------------------------------------------------------- CSV

  /**
   * One CSV record under csv-parse's `columns` and `trim` options: the
   * normalised header of each column to the trimmed field; a later column
   * with the same header wins.
   */
  function CsvRecord(header: seq<string>, fields: seq<string>): CsvRow
    requires |fields| == |header|
    decreases |header|
  {
    if header == [] then map[]
    else
      var n := |header| - 1;
      CsvRecord(header[..n], fields[..n])[NormalizeHeader(header[n]) := Trim(fields[n])]
  }

  /** Column `j` is the last one whose header normalises to `key`. */
  predicate LastColumnFor(header: seq<string>, key: string, j: nat) {
    j < |header| && NormalizeHeader(header[j]) == key
    && forall k :: j < k < |header| ==> NormalizeHeader(header[k]) != key
  }

  /** A key is present exactly when some header normalises to it, and holds the last such column's field. */
  lemma {:induction false} CsvRecordFields(header: seq<string>, fields: seq<string>, key: string)
    requires |fields| == |header|
    ensures key in CsvRecord(header, fields) <==> exists j :: 0 <= j < |header| && NormalizeHeader(header[j]) == key
    ensures forall j: nat :: LastColumnFor(header, key, j) ==> key in CsvRecord(header, fields) && CsvRecord(header, fields)[key] == Trim(fields[j])
    decreases |header|
  {
    hide NormalizeHeader, Trim;
    if header != [] {
      var n := |header| - 1;
      CsvRecordFields(header[..n], fields[..n], key);
      assert forall j :: 0 <= j < n ==> header[..n][j] == header[j] && fields[..n][j] == fields[j];
      forall j: nat | LastColumnFor(header, key, j)
        ensures key in CsvRecord(header, fields) && CsvRecord(header, fields)[key] == Trim(fields[j])
      {
        if j < n {
          assert LastColumnFor(header[..n], key, j);
        }
      }
    }
  }

  /** Every key of a record is already normalised, so re-normalising the keys changes nothing. */
  lemma CsvKeysNormalized(header: seq<string>, fields: seq<string>, key: string)
    requires |fields| == |header| && key in CsvRecord(header, fields)
    ensures NormalizeHeader(key) == key
  {
    CsvRecordFields(header, fields, key);
    var j :| 0 <= j < |header| && NormalizeHeader(header[j]) == key;
    NormalizeHeaderIdempotent(header[j]);
  }

  /**
   * Stands for csv-parse's record-length error, whose real message also
   * names the column count, the record's length and the line; only the
   * fact that the read fails is modelled.
   */
  const InvalidRecordLength := "Invalid Record Length: columns length does not match the record"

  /** `readCsv` on the header line and the non-empty records: a record of the wrong length is an error. */
  function ReadCsv(header: seq<string>, records: seq<seq<string>>): (r: Result<seq<CsvRow>, string>)
    ensures r.Ok? <==> forall i :: 0 <= i < |records| ==> |records[i]| == |header|
    ensures r.Ok? ==> |r.value| == |records|
                      && forall i :: 0 <= i < |records| ==> r.value[i] == CsvRecord(header, records[i])
  {
    if exists i :: 0 <= i < |records| && |records[i]| != |header| then Err(InvalidRecordLength)
    else Ok(seq(|records|, i requires 0 <= i < |records| => CsvRecord(header, records[i])))
  }

  // ---------------------------------------------------------------- XLSX

  /** `String(cell.value ?? "")`; `dateText` is `String` of a date (local-time form). */
  function ValueText(c: Sheet.Cell, dateText: int -> string): string {
    match c
    case Empty => ""
    case Text(s) => s
    case Number(x) => NumberToString(x)
    case Date(t) => dateText(t)
    case Boolean(b) => if b then "true" else "false"
    case _ => "[object Object]"
  }

  /** The text a data cell is stored as: a hyperlink's text, a date's ISO form, else `String(value)`. */
  function CellText(c: Sheet.Cell, dateText: int -> string): string {
    match c
    case Hyperlink(t) => t
    case Date(t) => Calendar.IsoString(t)
    case _ => ValueText(c, dateText)
  }

  const HeaderRow: nat := 23

  /** The normalised header of column `c` of the header row, None when blank. */
  function HeaderAt(header: Sheet.Row, dateText: int -> string, c: nat): Option<string> {
    var v := Trim(ValueText(Sheet.CellAt(header, c), dateText));
    if v != "" then Some(NormalizeHeader(v)) else None
  }

  /** Column `c` has a header and a value. */
  predicate Contributes(header: Sheet.Row, dateText: int -> string, row: Sheet.Row, c: nat) {
    HeaderAt(header, dateText, c).Some? && !Sheet.CellAt(row, c).Empty?
  }

  /** The record of a data row built from its first `n` columns. */
  function RecordUpTo(header: Sheet.Row, dateText: int -> string, row: Sheet.Row, n: nat): CsvRow
    decreases n
  {
    if n == 0 then map[]
    else
      var out := RecordUpTo(header, dateText, row, n - 1);
      if Contributes(header, dateText, row, n) then out[HeaderAt(header, dateText, n).value := CellText(Sheet.CellAt(row, n), dateText)]
      else out
  }

  /** Column `c` is the last of the first `n` under header `key` that holds a value. */
  predicate LastCellFor(header: Sheet.Row, dateText: int -> string, row: Sheet.Row, n: nat, key: string, c: nat) {
    1 <= c <= n && Contributes(header, dateText, row, c) && HeaderAt(header, dateText, c).value == key
    && forall d :: c < d <= n && Contributes(header, dateText, row, d) ==> HeaderAt(header, dateText, d).value != key
  }

  /** A key is in a row's record exactly when some column under that header holds a value. */
  lemma {:induction false} RecordHasKey(header: Sheet.Row, dateText: int -> string, row: Sheet.Row, n: nat, key: string)
    ensures key in RecordUpTo(header, dateText, row, n) <==>
              exists c :: 1 <= c <= n && Contributes(header, dateText, row, c) && HeaderAt(header, dateText, c).value == key
    decreases n
  {
    hide HeaderAt, CellText, Contributes;
    if n > 0 {
      RecordHasKey(header, dateText, row, n - 1, key);
    }
  }

  /** The key holds the text of the last column under it that holds a value. */
  lemma {:induction false} RecordValue(header: Sheet.Row, dateText: int -> string, row: Sheet.Row, n: nat, key: string, c: nat)
    requires LastCellFor(header, dateText, row, n, key, c)
    ensures key in RecordUpTo(header, dateText, row, n)
    ensures RecordUpTo(header, dateText, row, n)[key] == CellText(Sheet.CellAt(row, c), dateText)
    decreases n
  {
    hide HeaderAt, CellText, Contributes;
    if c < n {
      assert LastCellFor(header, dateText, row, n - 1, key, c);
      RecordValue(header, dateText, row, n - 1, key, c);
    }
  }

  /** The record of a data row under the header row of `grid`. */
  function RowRecord(grid: Sheet.Grid, dateText: int -> string, row: Sheet.Row): CsvRow {
    RecordUpTo(Sheet.RowAt(grid, HeaderRow), dateText, row, |row|)
  }

  /** `String(row.getCell(1).value ?? "").trim()`. */
  function FirstText(row: Sheet.Row, dateText: int -> string): string {
    Trim(ValueText(Sheet.CellAt(row, 1), dateText))
  }

  predicate IsTotalRow(row: Sheet.Row, dateText: int -> string) {
    Lower(FirstText(row, dateText)) == "total"
  }

  /** The records of rows `r..rowCount`, stopping at a "Total" row and passing over rows with a blank first cell. */
  function XlsxRowsFrom(grid: Sheet.Grid, dateText: int -> string, r: nat): seq<CsvRow>
    decreases |grid| + 1 - r
  {
    if r > |grid| then []
    else
      var row := Sheet.RowAt(grid, r);
      if IsTotalRow(row, dateText) then []
      else if FirstText(row, dateText) == "" then XlsxRowsFrom(grid, dateText, r + 1)
      else [RowRecord(grid, dateText, row)] + XlsxRowsFrom(grid, dateText, r + 1)
  }

  const FirstDataRow: nat := 24

  function XlsxRows(grid: Sheet.Grid, dateText: int -> string): seq<CsvRow> {
    XlsxRowsFrom(grid, dateText, FirstDataRow)
  }

  const NoWorksheets := "No worksheets found in XLSX"

  /** `readXlsx` on the workbook's worksheets. */
  method ReadXlsx(sheets: seq<Sheet.Grid>, dateText: int -> string) returns (result: Result<seq<CsvRow>, string>)
    ensures sheets == [] ==> result == Err(NoWorksheets)
    ensures sheets != [] ==> result == Ok(XlsxRows(sheets[0], dateText))
  {
    hide HeaderAt, CellText, FirstText, ValueText, Trim, Lower;
    if sheets == [] {
      return Err(NoWorksheets);
    }
    var ws := sheets[0];
    var header := Sheet.RowAt(ws, HeaderRow);
    var rows: seq<CsvRow> := [];
    var n := FirstDataRow;
    while n <= |ws|
      invariant FirstDataRow <= n
      invariant rows + XlsxRowsFrom(ws, dateText, n) == XlsxRows(ws, dateText)
      decreases |ws| + 1 - n
    {
      var row := Sheet.RowAt(ws, n);
      var first := FirstText(row, dateText);
      if Lower(first) == "total" {
        assert XlsxRowsFrom(ws, dateText, n) == [];
        assert rows + [] == rows;
        return Ok(rows);
      }
      if first == "" {
        n := n + 1;
        continue;
      }
      var out: CsvRow := map[];
      var c := 1;
      while c <= |row|
        invariant 1 <= c <= |row| + 1
        invariant out == RecordUpTo(header, dateText, row, c - 1)
      {
        var key := HeaderAt(header, dateText, c);
        var cell := Sheet.CellAt(row, c);
        if key.Some? && !cell.Empty? {
          out := out[key.value := CellText(cell, dateText)];
        }
        c := c + 1;
      }
      rows := rows + [out];
      n := n + 1;
    }
    assert rows + [] == rows;
    return Ok(rows);
  }

  lemma {:induction false} TotalRowEndsFrom(grid: Sheet.Grid, other: Sheet.Grid, dateText: int -> string, t: nat, r: nat)
    requires FirstDataRow <= r <= t <= |grid| && t <= |other| && grid[..t] == other[..t]
    requires IsTotalRow(Sheet.RowAt(grid, t), dateText)
    ensures XlsxRowsFrom(grid, dateText, r) == XlsxRowsFrom(other, dateText, r)
    decreases t - r
  {
    hide RecordUpTo, FirstText, IsTotalRow;
    assert grid[HeaderRow - 1] == grid[..t][HeaderRow - 1] == other[HeaderRow - 1];
    assert grid[r - 1] == grid[..t][r - 1] == other[r - 1];
    if r < t {
      TotalRowEndsFrom(grid, other, dateText, t, r + 1);
    }
  }

  /** Two sheets that agree up to a "Total" row give the same records: nothing after it is read. */
  lemma TotalRowEndsData(grid: Sheet.Grid, other: Sheet.Grid, dateText: int -> string, t: nat)
    requires FirstDataRow <= t <= |grid| && t <= |other| && grid[..t] == other[..t]
    requires IsTotalRow(Sheet.RowAt(grid, t), dateText)
    ensures XlsxRows(grid, dateText) == XlsxRows(other, dateText)
  {
    TotalRowEndsFrom(grid, other, dateText, t, FirstDataRow);
  }

  /** The sheet without data row `b`. */
  function WithoutRow(grid: Sheet.Grid, b: nat): (g: Sheet.Grid)
    requires 1 <= b <= |grid|
    ensures |g| == |grid| - 1
    ensures forall q :: 1 <= q < b ==> Sheet.RowAt(g, q) == Sheet.RowAt(grid, q)
    ensures forall q :: b <= q ==> Sheet.RowAt(g, q) == Sheet.RowAt(grid, q + 1)
  {
    grid[..b - 1] + grid[b..]
  }

  lemma {:induction false} ShiftedRows(grid: Sheet.Grid, dateText: int -> string, b: nat, q: nat)
    requires FirstDataRow <= b <= q && b <= |grid|
    ensures XlsxRowsFrom(grid, dateText, q + 1) == XlsxRowsFrom(WithoutRow(grid, b), dateText, q)
    decreases |grid| - q
  {
    hide RecordUpTo, FirstText, IsTotalRow;
    var g := WithoutRow(grid, b);
    assert Sheet.RowAt(g, HeaderRow) == Sheet.RowAt(grid, HeaderRow);
    if q + 1 <= |grid| {
      ShiftedRows(grid, dateText, b, q + 1);
    }
  }

  lemma {:induction false} BlankRowSkippedFrom(grid: Sheet.Grid, dateText: int -> string, b: nat, q: nat)
    requires FirstDataRow <= q <= b <= |grid| && FirstText(Sheet.RowAt(grid, b), dateText) == ""
    ensures XlsxRowsFrom(grid, dateText, q) == XlsxRowsFrom(WithoutRow(grid, b), dateText, q)
    decreases b - q
  {
    hide RecordUpTo, FirstText;
    var g := WithoutRow(grid, b);
    assert Sheet.RowAt(g, HeaderRow) == Sheet.RowAt(grid, HeaderRow);
    if q == b {
      assert !IsTotalRow(Sheet.RowAt(grid, b), dateText);
      ShiftedRows(grid, dateText, b, b);
    } else {
      BlankRowSkippedFrom(grid, dateText, b, q + 1);
    }
  }

  /** A data row whose first cell is blank contributes nothing: removing it leaves the records as they are. */
  lemma BlankRowSkipped(grid: Sheet.Grid, dateText: int -> string, b: nat)
    requires FirstDataRow <= b <= |grid| && FirstText(Sheet.RowAt(grid, b), dateText) == ""
    ensures XlsxRows(grid, dateText) == XlsxRows(WithoutRow(grid, b), dateText)
  {
    BlankRowSkippedFrom(grid, dateText, b, FirstDataRow);
  }
}
