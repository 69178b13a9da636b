/**
 * Spreadsheet cells as the exceljs reader hands them to the scripts, and the
 * conversions every script applies to them: `cellToString`, `cellToNumber`
 * and `parseLocalDate`.  A sheet is a sequence of rows and a row a sequence
 * of cells; rows and columns are numbered from 1.
 */
module Sheet {
  import opened Wrappers
  import opened Text
  import opened Js
  import Calendar
  import Eastern

  /** A cell value. */
  datatype Cell =
    | Empty
    | Text(text: string)
    | Number(number: real)
    | Date(time: int)
    | Boolean(flag: bool)
    | RichText(parts: seq<string>)
    | Hyperlink(linkText: string)
    | Formula(result: Value)
    | OtherObject

  type Row = seq<Cell>
  type Grid = seq<Row>

  /** `row.getCell(col).value`: cells past the end of a row are empty. */
  function CellAt(row: Row, col: nat): (c: Cell)
    ensures col == 0 || col > |row| ==> c == Empty
  {
    if 1 <= col <= |row| then row[col - 1] else Empty
  }

  /** `sheet.getRow(n)`: rows past the end are empty. */
  function RowAt(grid: Grid, n: nat): (r: Row)
    ensures n == 0 || n > |grid| ==> r == []
  {
    if 1 <= n <= |grid| then grid[n - 1] else []
  }

  predicate Trimmed(s: string) {
    s == [] || (!IsSpace(s[0]) && !IsSpace(s[|s| - 1]))
  }

  /** `cellToString`: a text form of the cell with the white space around it removed. */
  function CellToString(c: Cell): (r: string)
    ensures c.Empty? ==> r == ""
    ensures c.Text? ==> r == Trim(c.text)
  {
    match c
    case Empty => ""
    case Text(s) => Trim(s)
    case Number(x) => NumberToString(x)
    case Date(t) => Calendar.IsoString(t)
    case Boolean(b) => if b then "true" else "false"
    case RichText(parts) => Trim(Join(parts, ""))
    case Hyperlink(linkText) => Trim(linkText)
    case Formula(result) => if result.Str? then Trim(result.s) else "[object Object]"
    case OtherObject => "[object Object]"
  }

  /**
   * The variant of `cellToString` that stringifies a formula's result of any
   * type (`String(result || "")`) instead of only a string result.
   */
  function CellToStringAnyResult(c: Cell): (r: string)
    ensures !c.Formula? ==> r == CellToString(c)
  {
    if c.Formula? then Trim(if Truthy(c.result) then ToStr(c.result) else "")
    else CellToString(c)
  }

  predicate IsNumeralChar(ch: char) {
    IsDigit(ch) || ch == '.' || ch == '-'
  }

  /** `String(x)` starts with a digit or a minus sign and ends with a digit. */
  lemma NumberToStringEnds(x: real)
    ensures var s := NumberToString(x);
            s != [] && (IsDigit(s[0]) || s[0] == '-') && IsDigit(s[|s| - 1])
    decreases if x < 0.0 then 1 else 0
  {
    if x < 0.0 {
      NumberToStringEnds(-x);
    } else {
      var k := FractionDigits(x, 0);
      DecimalTextShape(Shift10(x, k).Floor, k);
    }
  }

  /** `String(x)` writes only digits, a dot and a minus sign. */
  lemma NumberToStringNumeral(x: real)
    ensures forall i :: 0 <= i < |NumberToString(x)| ==> IsNumeralChar(NumberToString(x)[i])
    decreases if x < 0.0 then 1 else 0
  {
    if x < 0.0 {
      NumberToStringNumeral(-x);
      var t := NumberToString(-x);
      assert NumberToString(x) == "-" + t;
      forall i | 0 <= i < |"-" + t| ensures IsNumeralChar(("-" + t)[i]) {
        if i > 0 { assert ("-" + t)[i] == t[i - 1]; }
      }
    } else {
      var k := FractionDigits(x, 0);
      DecimalTextChars(Shift10(x, k).Floor, k);
    }
  }

  /** A trimmed text is its own trim. */
  lemma TrimmedTrim(s: string)
    requires Trimmed(s)
    ensures Trim(s) == s
  {
    if s != [] {
      TrimUnchanged(s);
    }
  }

  /** `toISOString` starts with a digit or a sign and ends with `Z`. */
  lemma IsoStringEnds(t: int)
    ensures var s := Calendar.IsoString(t);
            s != [] && !IsSpace(s[0]) && s[|s| - 1] == 'Z'
  {
    hide Calendar.IsoYear, Calendar.IsoTail, Calendar.UtcDate;
    var year := Calendar.IsoYear(Calendar.UtcDate(t).year);
    EndsOfJoin(year, Calendar.IsoTail(t));
  }

  lemma EndsOfJoin(a: string, b: string)
    requires a != [] && b != []
    ensures (a + b)[0] == a[0] && (a + b)[|a + b| - 1] == b[|b| - 1]
  {
  }

  /** Every text `cellToString` produces is already trimmed. */
  lemma CellToStringTrimmed(c: Cell)
    ensures Trimmed(CellToString(c))
  {
    hide NumberToString, Calendar.IsoString, Trim;
    match c
    case Number(x) =>
      NumberToStringEnds(x);
      var s := NumberToString(x);
      assert !IsSpace(s[0]) && !IsSpace(s[|s| - 1]);
    case Date(t) => IsoStringEnds(t);
    case Boolean(b) =>
    case _ =>
  }

  /** `cellToNumber`: numbers pass, otherwise the digits, dots and minus signs of the text, or 0. */
  function CellToNumber(c: Cell): (r: real)
    ensures c.Number? ==> r == c.number
    ensures c.Empty? ==> r == 0.0
  {
    if c.Empty? then 0.0
    else if c.Number? then c.number
    else
      var cleaned := Keep(CellToString(c), IsNumeralChar);
      if cleaned == [] then 0.0
      else
        match ParseNumber(cleaned)
        case Finite(x) => x
        case _ => 0.0
  }

  /** `s.replace(/\s+-\s+/g, " ")`: a dash with white space on both sides becomes one blank. */
  function ReplaceSpacedDashes(s: string): (r: string)
    ensures |r| <= |s|
    decreases |s|
  {
    if s == [] then []
    else if IsSpace(s[0]) then
      var rest := TrimStart(s);
      var j := |s| - |rest|;
      if |rest| > 1 && rest[0] == '-' && IsSpace(rest[1]) then
        " " + ReplaceSpacedDashes(TrimStart(rest[1..]))
      else s[..j] + ReplaceSpacedDashes(rest)
    else [s[0]] + ReplaceSpacedDashes(s[1..])
  }

  /** No dash in `s` has white space on both sides. */
  predicate NoSpacedDash(s: string) {
    forall i :: 0 < i < |s| - 1 && s[i] == '-' ==> !(IsSpace(s[i - 1]) && IsSpace(s[i + 1]))
  }

  /** Text without a spaced dash passes through unchanged. */
  lemma {:induction false} ReplaceSpacedDashesUnchanged(s: string)
    requires NoSpacedDash(s)
    ensures ReplaceSpacedDashes(s) == s
    decreases |s|
  {
    hide NoSpacedDash, TrimStart, ReplaceSpacedDashes;
    if s == [] {
      ReplaceSpacedDashesEmpty();
    } else if IsSpace(s[0]) {
      var rest := TrimStart(s);
      var j: nat := |s| - |rest|;
      assert rest == s[j..];
      if |rest| > 1 && rest[0] == '-' && IsSpace(rest[1]) {
        NotSpacedAt(s, j);
        assert false;
      }
      ReplaceAtSpaces(s);
      NoSpacedDashSuffix(s, j);
      ReplaceSpacedDashesUnchanged(rest);
      assert s[..j] + rest == s;
    } else {
      ReplaceAtWordChar(s);
      NoSpacedDashSuffix(s, 1);
      ReplaceSpacedDashesUnchanged(s[1..]);
      assert [s[0]] + s[1..] == s;
    }
  }

  lemma ReplaceSpacedDashesEmpty()
    ensures ReplaceSpacedDashes([]) == []
  {
  }

  /** A run of white space not followed by a spaced dash is copied. */
  lemma ReplaceAtSpaces(s: string)
    requires s != [] && IsSpace(s[0])
    requires var rest := TrimStart(s); !(|rest| > 1 && rest[0] == '-' && IsSpace(rest[1]))
    ensures ReplaceSpacedDashes(s) == s[..|s| - |TrimStart(s)|] + ReplaceSpacedDashes(TrimStart(s))
  {
    hide TrimStart;
  }

  /** Any other first character is copied. */
  lemma ReplaceAtWordChar(s: string)
    requires s != [] && !IsSpace(s[0])
    ensures ReplaceSpacedDashes(s) == [s[0]] + ReplaceSpacedDashes(s[1..])
  {
  }

  lemma NotSpacedAt(s: string, j: nat)
    requires NoSpacedDash(s) && 0 < j < |s| - 1 && s[j] == '-' && IsSpace(s[j - 1])
    ensures !IsSpace(s[j + 1])
  {
  }

  lemma NoSpacedDashSuffix(s: string, j: nat)
    requires j <= |s| && NoSpacedDash(s)
    ensures NoSpacedDash(s[j..])
  {
    forall i | 0 < i < |s[j..]| - 1 && s[j..][i] == '-'
      ensures !(IsSpace(s[j..][i - 1]) && IsSpace(s[j..][i + 1]))
    {
      assert s[j..][i - 1] == s[j + i - 1] && s[j..][i + 1] == s[j + i + 1] && s[j + i] == '-';
    }
  }

  /**
   * `parseLocalDate`: a date cell is its own time; otherwise the cell's text,
   * spaced dashes replaced, is read as Eastern time first and as written second.
   */
  function ParseLocalDate(env: Eastern.Oracles, c: Cell): (r: Option<int>)
    ensures c.Date? ==> r == Some(c.time)
    ensures !c.Date? && CellToString(c) == "" ==> r == None
    ensures !c.Date? && r.Some? ==>
              var n := ReplaceSpacedDashes(CellToString(c));
              r == env.parseDate(n + " ET") || r == env.parseDate(n)
    ensures !c.Date? && CellToString(c) != "" ==>
              var n := ReplaceSpacedDashes(CellToString(c));
              (r.None? <==> env.parseDate(n + " ET").None? && env.parseDate(n).None?)
  {
    if c.Date? then Some(c.time)
    else
      var s := CellToString(c);
      if s == "" then None
      else
        var n := ReplaceSpacedDashes(s);
        match env.parseDate(n + " ET")
        case Some(t) => Some(t)
        case None => env.parseDate(n)
  }

  /** A cell holding an amount's cents text reads back as that amount. */
  lemma CentsCellToNumber(c: int)
    ensures CellToNumber(Text(FormatCents(c))) == c as real / 100.0
  {
    hide ParseNumber, SignedDecimalText, Trim, Keep, CellToString, NumberToString;
    var s := FormatCents(c);
    assert s == SignedDecimalText(c, 2);
    SignedDecimalTextShape(c, 2);
    TrimUnchanged(s);
    assert CellToString(Text(s)) == s;
    assert Keep(s, IsNumeralChar) == s;
    ParseFormatCents(c);
  }

  /** A signed decimal numeral has no blanks around it and only numeral characters. */
  lemma SignedDecimalTextShape(c: int, k: nat)
    ensures var s := SignedDecimalText(c, k);
            s != [] && !IsSpace(s[0]) && !IsSpace(s[|s| - 1])
            && forall i :: 0 <= i < |s| ==> IsNumeralChar(s[i])
  {
    var a: nat := if c < 0 then -c else c;
    DecimalTextShape(a, k);
    DecimalTextChars(a, k);
    var t := DecimalText(a, k);
    if c < 0 {
      assert SignedDecimalText(c, k) == "-" + t;
    } else {
      assert SignedDecimalText(c, k) == t;
    }
  }

  /** DecimalText writes digits and at most a dot. */
  lemma DecimalTextChars(scaled: nat, k: nat)
    ensures forall i :: 0 <= i < |DecimalText(scaled, k)| ==> IsNumeralChar(DecimalText(scaled, k)[i])
  {
    var n := NatToString(scaled);
    if k > 0 {
      var digits := PadStart(n, k + 1, '0');
      ZeroPadValue(n, k + 1);
      var cut := |digits| - k;
      var t := digits[..cut] + "." + digits[cut..];
      assert DecimalText(scaled, k) == t;
      forall i | 0 <= i < |t| ensures IsNumeralChar(t[i]) {
        if i < cut { assert t[i] == digits[i]; }
        else if i > cut { assert t[i] == digits[i - 1]; }
      }
    }
  }
}
