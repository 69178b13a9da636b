/**
 * scripts/compareMixupWebhooks.ts: the rows of a point-of-sale export (the
 * "mixup" sheet) for two providers and one week are linked to the webhook
 * events stored for the same providers and week.  The linking is greedy:
 * each webhook in turn takes the best-scoring CSV row still free that has
 * the same service, lies within an hour and agrees on price and tip.
 */
module CompareMixup {
  import opened Wrappers
  import opened Text
  import opened Js
  import Sheet
  import Eastern
  import Employees
  import Calendar

  datatype Provider = Provider(id: string, name: string)

  /** The providers the comparison covers. */
  const TrackedNames: seq<string> := ["Isabel Guerrero", "Marielbys Miranda"]

  /** 2025-11-23T00:00:00-05:00 and 2025-11-30T00:00:00-05:00, in epoch milliseconds. */
  const RangeStart: int := 1763874000000
  const RangeEnd: int := 1764478800000

  const MatchWindowMs: int := 3600000
  const PriceTolerance: real := 7.0
  const TipTolerance: real := 1.5

  /** The two range ends are 05:00 UTC on November 23 and 30, 2025. */
  lemma RangeIsTheWeek()
    ensures Calendar.DateUtc(2025, 10, 23, 5, 0, 0) == Some(RangeStart)
    ensures Calendar.DateUtc(2025, 10, 30, 5, 0, 0) == Some(RangeEnd)
  {
  }

  // ---------------------------------------------------------------------
  // Providers

  /** The id of the first directory entry listed under exactly `name`. */
  function IdByName(dir: Employees.Directory, name: string): (r: Option<string>)
    ensures r.Some? ==> (r.value, name) in dir
    ensures r.None? <==> forall i :: 0 <= i < |dir| ==> dir[i].1 != name
  {
    if dir == [] then None
    else if dir[0].1 == name then Some(dir[0].0)
    else
      var r := IdByName(dir[1..], name);
      assert forall i :: 0 < i < |dir| ==> dir[i] == dir[1..][i - 1];
      assert r.Some? ==> (r.value, name) in dir[1..];
      r
  }

  /** `providerMap`: each name with its directory id, or the error thrown for the first name not listed. */
  function ProviderMap(dir: Employees.Directory, names: seq<string>): (r: Result<seq<Provider>, string>)
    ensures r.Ok? <==> forall i :: 0 <= i < |names| ==> IdByName(dir, names[i]).Some?
    ensures r.Ok? ==> |r.value| == |names|
                      && forall i :: 0 <= i < |names| ==> r.value[i] == Provider(IdByName(dir, names[i]).value, names[i])
  {
    if names == [] then Ok([])
    else
      match IdByName(dir, names[0])
      case None => Err("Provider " + names[0] + " not found in directory")
      case Some(id) =>
        var rest := ProviderMap(dir, names[1..]);
        assert forall i :: 0 < i < |names| ==> names[i] == names[1..][i - 1];
        if rest.Err? then rest else Ok([Provider(id, names[0])] + rest.value)
  }

  /** The entry at `i` is found when no earlier entry has the name. */
  lemma {:induction false} IdByNameAt(dir: Employees.Directory, name: string, i: nat)
    requires i < |dir| && dir[i].1 == name
    requires forall j :: 0 <= j < i ==> dir[j].1 != name
    ensures IdByName(dir, name) == Some(dir[i].0)
    decreases i
  {
    if i > 0 {
      IdByNameAt(dir[1..], name, i - 1);
    }
  }

  /** Both tracked providers are in the directory, so loading the module does not throw. */
  lemma TrackedProvidersListed()
    ensures ProviderMap(Employees.ProviderDirectory, TrackedNames)
            == Ok([Provider("RL~9TokljBGmTZJrF~OONQ==", "Isabel Guerrero"),
                   Provider("u41~oI~Elac3QmDg0IE3LQ==", "Marielbys Miranda")])
  {
    TrackedIds();
    hide IdByName, ProviderMap;
    var r := ProviderMap(Employees.ProviderDirectory, TrackedNames);
    assert TrackedNames[0] == "Isabel Guerrero" && TrackedNames[1] == "Marielbys Miranda";
    assert r.Ok? && |r.value| == 2;
    assert r.value[0] == Provider("RL~9TokljBGmTZJrF~OONQ==", "Isabel Guerrero");
    assert r.value[1] == Provider("u41~oI~Elac3QmDg0IE3LQ==", "Marielbys Miranda");
    assert r.value == [r.value[0], r.value[1]];
  }

  lemma TrackedIds()
    ensures IdByName(Employees.ProviderDirectory, "Isabel Guerrero") == Some("RL~9TokljBGmTZJrF~OONQ==")
    ensures IdByName(Employees.ProviderDirectory, "Marielbys Miranda") == Some("u41~oI~Elac3QmDg0IE3LQ==")
  {
    TrackedIsabel();
    TrackedMarielbys();
  }

  lemma TrackedIsabel()
    ensures IdByName(Employees.ProviderDirectory, "Isabel Guerrero") == Some("RL~9TokljBGmTZJrF~OONQ==")
  {
    hide IdByName;
    var dir := Employees.ProviderDirectory;
    assert forall j :: 0 <= j < 8 ==> dir[j].1 != [] && dir[j].1[0] != 'I';
    IdByNameAtFirst(dir, "Isabel Guerrero", 8);
  }

  lemma TrackedMarielbys()
    ensures IdByName(Employees.ProviderDirectory, "Marielbys Miranda") == Some("u41~oI~Elac3QmDg0IE3LQ==")
  {
    hide IdByName;
    var dir := Employees.ProviderDirectory;
    assert forall j :: 0 <= j < 9 ==> dir[j].1 != [] && dir[j].1[0] != 'M';
    IdByNameAtFirst(dir, "Marielbys Miranda", 9);
  }

  /** The entry at `i` is found when every earlier name starts with another letter. */
  lemma IdByNameAtFirst(dir: Employees.Directory, name: string, i: nat)
    requires i < |dir| && dir[i].1 == name && name != []
    requires forall j :: 0 <= j < i ==> dir[j].1 != [] && dir[j].1[0] != name[0]
    ensures IdByName(dir, name) == Some(dir[i].0)
  {
    hide IdByName;
    IdByNameAt(dir, name, i);
  }

  /** The first provider whose name equals `name` ignoring case. */
  function FindProvider(providers: seq<Provider>, name: string): (r: Option<Provider>)
    ensures r.Some? ==> r.value in providers && Lower(r.value.name) == Lower(name)
    ensures r.None? <==> forall i :: 0 <= i < |providers| ==> Lower(providers[i].name) != Lower(name)
  {
    if providers == [] then None
    else if Lower(providers[0].name) == Lower(name) then Some(providers[0])
    else
      var r := FindProvider(providers[1..], name);
      assert forall i :: 0 < i < |providers| ==> providers[i] == providers[1..][i - 1];
      r
  }

  lemma LowerUpper(s: string)
    ensures Lower(Upper(s)) == Lower(s)
  {
  }

  /** The provider cell is matched without regard to case. */
  lemma FindProviderIgnoresCase(providers: seq<Provider>, name: string)
    ensures FindProvider(providers, Upper(name)) == FindProvider(providers, name)
    ensures FindProvider(providers, Lower(name)) == FindProvider(providers, name)
  {
    LowerUpper(name);
    assert Lower(Lower(name)) == Lower(name);
    FindProviderSameKey(providers, Upper(name), name);
    FindProviderSameKey(providers, Lower(name), name);
  }

  lemma {:induction false} FindProviderSameKey(providers: seq<Provider>, a: string, b: string)
    requires Lower(a) == Lower(b)
    ensures FindProvider(providers, a) == FindProvider(providers, b)
  {
    if providers != [] {
      FindProviderSameKey(providers[1..], a, b);
    }
  }

  /** The provider whose id is `id`, if any. */
  function FindById(providers: seq<Provider>, id: string): (r: Option<Provider>)
    ensures r.Some? ==> r.value in providers && r.value.id == id
    ensures r.None? <==> forall i :: 0 <= i < |providers| ==> providers[i].id != id
  {
    if providers == [] then None
    else if providers[0].id == id then Some(providers[0])
    else
      var r := FindById(providers[1..], id);
      assert forall i :: 0 < i < |providers| ==> providers[i] == providers[1..][i - 1];
      r
  }

  // ---------------------------------------------------------------------
  // The mixup sheet

  const CheckoutColumn: nat := 1
  const TransactionColumn: nat := 3
  const ServiceColumn: nat := 6
  const ProviderColumn: nat := 9
  const PriceColumn: nat := 12
  const TipColumn: nat := 14

  /** Lower-casing leaves no capital letter and keeps white space where it was. */
  lemma LowerShape(t: string)
    ensures forall i :: 0 <= i < |t| ==> !IsUpperAlpha(Lower(t)[i]) && (IsSpace(Lower(t)[i]) <==> IsSpace(t[i]))
  {
    forall i | 0 <= i < |t|
      ensures !IsUpperAlpha(Lower(t)[i]) && (IsSpace(Lower(t)[i]) <==> IsSpace(t[i]))
    {
      if IsUpperAlpha(t[i]) {
        assert 'a' <= Lower(t)[i] <= 'z';
      }
    }
  }

  /** `normalizeService`: trimmed and lower-cased. */
  function NormalizeService(s: string): (r: string)
    ensures |r| <= |s|
    ensures forall i :: 0 <= i < |r| ==> !IsUpperAlpha(r[i])
    ensures r == [] || (!IsSpace(r[0]) && !IsSpace(r[|r| - 1]))
  {
    var t := Trim(s);
    LowerShape(t);
    Lower(t)
  }

  /** A service key is its own key. */
  lemma NormalizeServiceIdempotent(s: string)
    ensures NormalizeService(NormalizeService(s)) == NormalizeService(s)
  {
    var t := NormalizeService(s);
    if t != [] {
      TrimUnchanged(t);
    }
    assert Lower(t) == t;
  }

  /** The replace in `parseMixupDate`: every dash, with the white space on both sides of it, becomes one blank. */
  function DashesToSpace(s: string): (r: string)
    ensures '-' !in r
    decreases |s|
  {
    if s == [] then []
    else if s[0] == '-' then " " + DashesToSpace(TrimStart(s[1..]))
    else if IsSpace(s[0]) then
      var rest := TrimStart(s);
      if rest != [] && rest[0] == '-' then " " + DashesToSpace(TrimStart(rest[1..]))
      else
        var spaces := s[..|s| - |rest|];
        assert forall i :: 0 <= i < |spaces| ==> IsSpace(spaces[i]);
        spaces + DashesToSpace(rest)
    else [s[0]] + DashesToSpace(s[1..])
  }

  /** Text without a dash passes through unchanged. */
  lemma {:induction false} DashesToSpaceUnchanged(s: string)
    requires '-' !in s
    ensures DashesToSpace(s) == s
    decreases |s|
  {
    hide TrimStart;
    if s != [] {
      if IsSpace(s[0]) {
        var rest := TrimStart(s);
        var j := |s| - |rest|;
        assert rest == s[j..];
        NoDashAfter(s, j);
        DashesToSpaceUnchanged(rest);
        assert s == s[..j] + rest;
      } else {
        NoDashAfter(s, 1);
        DashesToSpaceUnchanged(s[1..]);
      }
    }
  }

  lemma NoDashAfter(s: string, j: nat)
    requires j <= |s| && '-' !in s
    ensures '-' !in s[j..]
  {
  }

  /** `parseMixupDate`: the text, dashes replaced, read as a date at UTC-5; None for no text or an invalid date. */
  function ParseMixupDate(env: Eastern.Oracles, raw: string): (r: Option<int>)
    ensures raw == "" ==> r.None?
  {
    if raw == "" then None else env.parseDate(DashesToSpace(raw) + " GMT-0500")
  }

  datatype MixupRow = MixupRow(
    rowNumber: nat,
    providerName: string,
    providerId: string,
    transactionId: string,
    service: string,
    serviceKey: string,
    checkoutDate: Option<int>,
    price: real,
    tip: real)

  /** The header row that opens the data section. */
  predicate IsHeader(row: Sheet.Row) {
    Lower(Sheet.CellToString(Sheet.CellAt(row, CheckoutColumn))) == "checkout date"
  }

  /** A data row read into a `MixupRow`, or None when it has no transaction id or no tracked provider. */
  function ParseRow(env: Eastern.Oracles, providers: seq<Provider>, row: Sheet.Row, rowNumber: nat): (r: Option<MixupRow>)
    ensures r.Some? ==> r.value.rowNumber == rowNumber && r.value.transactionId != ""
                        && Provider(r.value.providerId, r.value.providerName) in providers
                        && r.value.serviceKey == NormalizeService(r.value.service)
  {
    var transactionId := Sheet.CellToString(Sheet.CellAt(row, TransactionColumn));
    if transactionId == "" then None
    else
      match FindProvider(providers, Sheet.CellToString(Sheet.CellAt(row, ProviderColumn)))
      case None => None
      case Some(p) =>
        var service := Sheet.CellToString(Sheet.CellAt(row, ServiceColumn));
        Some(MixupRow(rowNumber, p.name, p.id, transactionId, service, NormalizeService(service),
                      ParseMixupDate(env, Sheet.CellToString(Sheet.CellAt(row, CheckoutColumn))),
                      Sheet.CellToNumber(Sheet.CellAt(row, PriceColumn)),
                      Sheet.CellToNumber(Sheet.CellAt(row, TipColumn))))
  }

  /** A data row is read exactly when it has a transaction id and a tracked provider, in any case. */
  lemma ParseRowKept(env: Eastern.Oracles, providers: seq<Provider>, row: Sheet.Row, rowNumber: nat)
    ensures ParseRow(env, providers, row, rowNumber).Some?
            <==> Sheet.CellToString(Sheet.CellAt(row, TransactionColumn)) != ""
                 && exists i :: 0 <= i < |providers|
                      && Lower(providers[i].name) == Lower(Sheet.CellToString(Sheet.CellAt(row, ProviderColumn)))
  {
  }

  /** Row `k` of the sheet, read. */
  function RowRead(env: Eastern.Oracles, providers: seq<Provider>, grid: Sheet.Grid, k: nat): (r: Option<MixupRow>)
    ensures r.Some? ==> r.value.rowNumber == k
  {
    ParseRow(env, providers, Sheet.RowAt(grid, k), k)
  }

  lemma RowReadIs(env: Eastern.Oracles, providers: seq<Provider>, grid: Sheet.Grid, k: nat)
    ensures RowRead(env, providers, grid, k) == ParseRow(env, providers, Sheet.RowAt(grid, k), k)
  {
    hide ParseRow;
  }

  /** The first header row from row `n` on. */
  function HeaderRowOf(grid: Sheet.Grid, n: nat): (r: Option<nat>)
    requires n >= 1
    ensures r.Some? ==> n <= r.value <= |grid| && IsHeader(Sheet.RowAt(grid, r.value))
    ensures forall k :: n <= k <= |grid| && (r.None? || k < r.value) ==> !IsHeader(Sheet.RowAt(grid, k))
    decreases |grid| + 1 - n
  {
    if n > |grid| then None
    else if IsHeader(Sheet.RowAt(grid, n)) then Some(n)
    else HeaderRowOf(grid, n + 1)
  }

  lemma HeaderRowOfStep(grid: Sheet.Grid, n: nat)
    requires 1 <= n <= |grid|
    ensures HeaderRowOf(grid, n) == if IsHeader(Sheet.RowAt(grid, n)) then Some(n) else HeaderRowOf(grid, n + 1)
  {
    hide IsHeader;
  }

  lemma HeaderRowOfEnd(grid: Sheet.Grid)
    ensures HeaderRowOf(grid, |grid| + 1) == None
  {
  }

  predicate Ascending(rows: seq<MixupRow>) {
    forall a, b :: 0 <= a < b < |rows| ==> rows[a].rowNumber < rows[b].rowNumber
  }

  /** The rows read from row `n` to the last, in sheet order. */
  function ParsedFrom(env: Eastern.Oracles, providers: seq<Provider>, grid: Sheet.Grid, n: nat): (r: seq<MixupRow>)
    requires n >= 1
    ensures forall i :: 0 <= i < |r| ==>
              n <= r[i].rowNumber <= |grid|
              && RowRead(env, providers, grid, r[i].rowNumber) == Some(r[i])
    ensures Ascending(r)
    decreases |grid| + 1 - n
  {
    hide RowRead, Ascending;
    if n > |grid| then []
    else
      var rest := ParsedFrom(env, providers, grid, n + 1);
      match RowRead(env, providers, grid, n)
      case Some(x) =>
        ParsedCons(env, providers, grid, n, x, rest);
        [x] + rest
      case None => rest
  }

  /** Row `n`, read, in front of the rows read after it. */
  lemma ParsedCons(env: Eastern.Oracles, providers: seq<Provider>, grid: Sheet.Grid, n: nat, x: MixupRow, rest: seq<MixupRow>)
    requires 1 <= n <= |grid| && RowRead(env, providers, grid, n) == Some(x)
    requires forall i :: 0 <= i < |rest| ==>
               n + 1 <= rest[i].rowNumber <= |grid| && RowRead(env, providers, grid, rest[i].rowNumber) == Some(rest[i])
    requires Ascending(rest)
    ensures forall i :: 0 <= i < |[x] + rest| ==>
              n <= ([x] + rest)[i].rowNumber <= |grid| && RowRead(env, providers, grid, ([x] + rest)[i].rowNumber) == Some(([x] + rest)[i])
    ensures Ascending([x] + rest)
  {
    hide RowRead, Ascending;
    ConsAscending(x, rest);
  }

  /** Putting a row in front of rows numbered after it keeps them ascending. */
  lemma ConsAscending(x: MixupRow, rest: seq<MixupRow>)
    requires Ascending(rest)
    requires forall i :: 0 <= i < |rest| ==> x.rowNumber < rest[i].rowNumber
    ensures Ascending([x] + rest)
    ensures forall i :: 0 <= i < |rest| + 1 ==> ([x] + rest)[i] == if i == 0 then x else rest[i - 1]
  {
  }

  /** One step of the scan: row `n`, if it reads, then the rows after it. */
  lemma ParsedFromStep(env: Eastern.Oracles, providers: seq<Provider>, grid: Sheet.Grid, n: nat)
    requires 1 <= n <= |grid|
    ensures ParsedFrom(env, providers, grid, n)
            == (if RowRead(env, providers, grid, n).Some? then [RowRead(env, providers, grid, n).value] else [])
               + ParsedFrom(env, providers, grid, n + 1)
  {
    hide RowRead, Ascending;
  }

  lemma ParsedFromEnd(env: Eastern.Oracles, providers: seq<Provider>, grid: Sheet.Grid)
    ensures ParsedFrom(env, providers, grid, |grid| + 1) == []
  {
    hide RowRead, Ascending;
  }

  /** A row from `n` on that reads is among the rows read. */
  lemma {:induction false} ParsedFromHas(env: Eastern.Oracles, providers: seq<Provider>, grid: Sheet.Grid, n: nat, k: nat)
    requires 1 <= n <= k <= |grid| && RowRead(env, providers, grid, k).Some?
    ensures RowRead(env, providers, grid, k).value in ParsedFrom(env, providers, grid, n)
    decreases k - n
  {
    hide RowRead, ParsedFrom, Ascending;
    ParsedFromStep(env, providers, grid, n);
    if k > n {
      ParsedFromHas(env, providers, grid, n + 1, k);
    }
  }

  predicate InWeek(r: MixupRow) {
    r.checkoutDate.Some? && RangeStart <= r.checkoutDate.value < RangeEnd
  }

  /** `rows.filter(r => r.checkoutDate && RANGE_START <= r.checkoutDate < RANGE_END)`. */
  function KeepInWeek(rows: seq<MixupRow>): seq<MixupRow> {
    if rows == [] then []
    else
      var rest := KeepInWeek(rows[1..]);
      if InWeek(rows[0]) then [rows[0]] + rest else rest
  }

  /** The filter keeps exactly the rows in the week, in their order. */
  lemma {:induction false} KeepInWeekMeaning(rows: seq<MixupRow>)
    ensures forall x :: x in KeepInWeek(rows) <==> x in rows && InWeek(x)
    ensures Ascending(rows) ==> Ascending(KeepInWeek(rows))
  {
    hide InWeek, Ascending;
    if rows != [] {
      var rest := KeepInWeek(rows[1..]);
      KeepInWeekMeaning(rows[1..]);
      assert forall x :: x in rows <==> x == rows[0] || x in rows[1..];
      if Ascending(rows) {
        AscendingTail(rows);
        if InWeek(rows[0]) {
          ConsAscending(rows[0], rest);
        }
      }
    }
  }

  lemma NoRowsAscending()
    ensures Ascending([])
  {
  }

  /** The tail of ascending rows is ascending and numbered after the head. */
  lemma AscendingTail(rows: seq<MixupRow>)
    requires rows != [] && Ascending(rows)
    ensures Ascending(rows[1..])
    ensures forall x :: x in rows[1..] ==> rows[0].rowNumber < x.rowNumber
  {
  }

  lemma KeepInWeekEmpty()
    ensures KeepInWeek([]) == []
  {
  }

  /** What `loadMixupRows` returns: the rows read after the first header row, kept when in the week. */
  function MixupRowsSpec(env: Eastern.Oracles, providers: seq<Provider>, grid: Sheet.Grid): seq<MixupRow> {
    match HeaderRowOf(grid, 1)
    case None => []
    case Some(h) => KeepInWeek(ParsedFrom(env, providers, grid, h + 1))
  }

  /** `loadMixupRows` on the first worksheet: the scan for the header, then the data rows. */
  method LoadMixupRows(env: Eastern.Oracles, providers: seq<Provider>, grid: Sheet.Grid) returns (rows: seq<MixupRow>)
    ensures rows == MixupRowsSpec(env, providers, grid)
  {
    hide IsHeader, ParseRow, Sheet.RowAt, ParsedFrom, KeepInWeek, Ascending, HeaderRowOf, RowRead, NormalizeService;
    var scanned: seq<MixupRow> := [];
    var dataSection := false;
    var rowNumber: nat := 1;
    while rowNumber <= |grid|
      invariant 1 <= rowNumber <= |grid| + 1
      invariant !dataSection ==> scanned == [] && HeaderRowOf(grid, 1) == HeaderRowOf(grid, rowNumber)
      invariant dataSection ==>
                  HeaderRowOf(grid, 1).Some? && HeaderRowOf(grid, 1).value < rowNumber
                  && scanned + ParsedFrom(env, providers, grid, rowNumber)
                     == ParsedFrom(env, providers, grid, HeaderRowOf(grid, 1).value + 1)
      decreases |grid| + 1 - rowNumber
    {
      var row := Sheet.RowAt(grid, rowNumber);
      if !dataSection {
        HeaderRowOfStep(grid, rowNumber);
        if IsHeader(row) {
          dataSection := true;
        }
      } else {
        var parsed := ParseRow(env, providers, row, rowNumber);
        RowReadIs(env, providers, grid, rowNumber);
        ParsedFromStep(env, providers, grid, rowNumber);
        if parsed.Some? {
          assert (scanned + [parsed.value]) + ParsedFrom(env, providers, grid, rowNumber + 1)
                 == scanned + ([parsed.value] + ParsedFrom(env, providers, grid, rowNumber + 1));
          scanned := scanned + [parsed.value];
        }
      }
      rowNumber := rowNumber + 1;
    }
    ParsedFromEnd(env, providers, grid);
    HeaderRowOfEnd(grid);
    KeepInWeekEmpty();
    assert scanned + [] == scanned;
    rows := KeepInWeek(scanned);
  }

  /**
   * The rows loaded are exactly the rows after the header that have a
   * transaction id, a tracked provider and a checkout in the week; they keep
   * the sheet's order.
   */
  lemma MixupRowsMeaning(env: Eastern.Oracles, providers: seq<Provider>, grid: Sheet.Grid)
    ensures forall x :: x in MixupRowsSpec(env, providers, grid) ==>
              HeaderRowOf(grid, 1).Some? && HeaderRowOf(grid, 1).value < x.rowNumber <= |grid|
              && RowRead(env, providers, grid, x.rowNumber) == Some(x)
              && InWeek(x) && x.transactionId != "" && Provider(x.providerId, x.providerName) in providers
    ensures forall k :: HeaderRowOf(grid, 1).Some? && HeaderRowOf(grid, 1).value < k <= |grid|
                        && RowRead(env, providers, grid, k).Some? && InWeek(RowRead(env, providers, grid, k).value) ==>
              RowRead(env, providers, grid, k).value in MixupRowsSpec(env, providers, grid)
    ensures Ascending(MixupRowsSpec(env, providers, grid))
  {
    hide IsHeader, KeepInWeek, InWeek, Ascending;
    match HeaderRowOf(grid, 1)
    case None =>
      NoRowsAscending();
    case Some(h) =>
      var parsed := ParsedFrom(env, providers, grid, h + 1);
      KeepInWeekMeaning(parsed);
      forall k | h < k <= |grid| && RowRead(env, providers, grid, k).Some?
        ensures RowRead(env, providers, grid, k).value in parsed
      {
        ParsedFromHas(env, providers, grid, h + 1, k);
      }
      forall x | x in MixupRowsSpec(env, providers, grid)
        ensures h < x.rowNumber <= |grid| && RowRead(env, providers, grid, x.rowNumber) == Some(x)
      {
        var i :| 0 <= i < |parsed| && parsed[i] == x;
      }
  }

  // ---------------------------------------------------------------------
  // The webhook rows

  /** A row of the webhook query: event id, the provider and transaction ids it extracted, the body, and `createdDate ?? receivedAt`. */
  datatype QueryRow = QueryRow(eventId: string, providerId: Value, transactionId: Value, payload: Value, tsUtc: Option<int>)

  datatype WebhookRow = WebhookRow(
    eventId: string,
    providerId: string,
    providerName: string,
    transactionId: string,
    service: string,
    serviceKey: string,
    tip: real,
    tenderAmount: real,
    netAmount: real,
    createdUtc: Option<int>)

  /** `a || b`. */
  function Or(a: Value, b: Value): Value {
    if Truthy(a) then a else b
  }

  /** `Number(v ?? 0) || 0`: absent, non-numeric and zero amounts are 0. */
  function AmountOf(v: Value): (r: real)
    ensures v.Num? && v.n.Finite? ==> r == v.n.value
    ensures IsNullish(v) ==> r == 0.0
  {
    var n := ToNumber(Coalesce(v, Num(Finite(0.0))));
    if n.Finite? then n.value else 0.0
  }

  const TenderFields: seq<string> := [
    "cashAmount", "ccAmount", "checkAmount", "achAmount", "otherAmount",
    "gcRedemption", "packageRedemption", "memberShipAmount", "bankAccountAmount", "vagaroPayLaterAmount"]

  /** The sum of the payload's amounts under `fields`, left to right. */
  function TenderSum(payload: Value, fields: seq<string>): (r: real)
    ensures (forall i :: 0 <= i < |fields| ==> IsNullish(Get(payload, fields[i]))) ==> r == 0.0
  {
    if fields == [] then 0.0
    else TenderSum(payload, fields[..|fields| - 1]) + AmountOf(Get(payload, fields[|fields| - 1]))
  }

  /** Fields past `k` that the payload lacks add nothing. */
  lemma {:induction false} TenderSumAbsentTail(payload: Value, fields: seq<string>, k: nat)
    requires k <= |fields|
    requires forall i :: k <= i < |fields| ==> IsNullish(Get(payload, fields[i]))
    ensures TenderSum(payload, fields) == TenderSum(payload, fields[..k])
    decreases |fields| - k
  {
    if k < |fields| {
      var init := fields[..|fields| - 1];
      assert forall i :: k <= i < |init| ==> init[i] == fields[i];
      TenderSumAbsentTail(payload, init, k);
      assert init[..k] == fields[..k];
    } else {
      assert fields[..k] == fields;
    }
  }

  /** A payment in cash and card only tenders their sum. */
  lemma CashAndCardTender(payload: Value, cash: real, card: real)
    requires Get(payload, "cashAmount") == Num(Finite(cash)) && Get(payload, "ccAmount") == Num(Finite(card))
    requires forall i :: 2 <= i < |TenderFields| ==> IsNullish(Get(payload, TenderFields[i]))
    ensures TenderSum(payload, TenderFields) == cash + card
  {
    TenderSumAbsentTail(payload, TenderFields, 2);
    var two := TenderFields[..2];
    assert two == ["cashAmount", "ccAmount"];
    assert two[..1] == ["cashAmount"];
    assert two[..1][..0] == [];
  }

  /** `row.payload?.payload ?? row.payload ?? {}`. */
  function PayloadOf(q: QueryRow): Value {
    Coalesce(Get(q.payload, "payload"), Coalesce(q.payload, Obj(map[])))
  }

  /** The `TypeError` `normalizeService` raises on an item that is not a string. */
  const TrimError := "value.trim is not a function"

  /** The row `loadWebhookRows` makes of one query row, or the error it throws. */
  function WebhookRowOf(providers: seq<Provider>, q: QueryRow): (r: Result<WebhookRow, string>)
    ensures r.Err? <==> !Or(Get(PayloadOf(q), "itemSold"), Str("")).Str?
    ensures r.Ok? ==> r.value.netAmount == r.value.tenderAmount - r.value.tip
                      && r.value.tip == AmountOf(Get(PayloadOf(q), "tip"))
                      && r.value.tenderAmount == TenderSum(PayloadOf(q), TenderFields)
                      && r.value.serviceKey == NormalizeService(r.value.service)
                      && r.value.eventId == q.eventId && r.value.createdUtc == q.tsUtc
  {
    var payload := PayloadOf(q);
    var item := Or(Get(payload, "itemSold"), Str(""));
    if !item.Str? then Err(TrimError)
    else
      var providerId := ToStr(Or(Get(payload, "serviceProviderId"), Or(q.providerId, Str(""))));
      var providerName := match FindById(providers, providerId) case Some(p) => p.name case None => providerId;
      var tip := AmountOf(Get(payload, "tip"));
      var tender := TenderSum(payload, TenderFields);
      Ok(WebhookRow(q.eventId, providerId, providerName,
                    ToStr(Or(Get(payload, "transactionId"), Or(q.transactionId, Str("")))),
                    item.s, NormalizeService(item.s), tip, tender, tender - tip, q.tsUtc))
  }

  /**
   * The provider id is the body's own `serviceProviderId` when it has one, and
   * the row is named after the tracked provider with that id.
   */
  lemma WebhookProvider(providers: seq<Provider>, q: QueryRow, id: string, p: Provider)
    requires Get(PayloadOf(q), "serviceProviderId") == Str(id) && id != ""
    requires WebhookRowOf(providers, q).Ok?
    requires p in providers && p.id == id
    ensures WebhookRowOf(providers, q).value.providerId == id
    ensures WebhookRowOf(providers, q).value.providerName == FindById(providers, id).value.name
    ensures FindById(providers, id).Some?
  {
    hide AmountOf, TenderSum, NormalizeService, FindById, PayloadOf;
    var i :| 0 <= i < |providers| && providers[i] == p;
    assert providers[i].id == id;
  }

  /** A body with the payment nested under `payload` is read from there. */
  lemma NestedPayloadRead(q: QueryRow, inner: map<string, Value>)
    requires Get(q.payload, "payload") == Obj(inner)
    ensures PayloadOf(q) == Obj(inner)
  {
  }

  /** The amount compared with the sheet's price is what was tendered less the tip. */
  lemma CashAndCardNet(providers: seq<Provider>, q: QueryRow, cash: real, card: real, tip: real)
    requires PayloadOf(q) == Obj(map["cashAmount" := Num(Finite(cash)), "ccAmount" := Num(Finite(card)),
                                     "tip" := Num(Finite(tip)), "itemSold" := Str("Gel")])
    ensures WebhookRowOf(providers, q).Ok?
    ensures WebhookRowOf(providers, q).value.netAmount == cash + card - tip
  {
    var p := PayloadOf(q);
    hide TenderSum, WebhookRowOf, PayloadOf;
    assert forall i :: 2 <= i < |TenderFields| ==> IsNullish(Get(p, TenderFields[i]));
    CashAndCardTender(p, cash, card);
  }

  /** `loadWebhookRows` over the query's rows: every row converted, or the first error. */
  function WebhookRows(providers: seq<Provider>, qs: seq<QueryRow>): Result<seq<WebhookRow>, string> {
    if qs == [] then Ok([])
    else
      match WebhookRowOf(providers, qs[0])
      case Err(e) => Err(e)
      case Ok(w) =>
        var rest := WebhookRows(providers, qs[1..]);
        if rest.Err? then rest else Ok([w] + rest.value)
  }

  /** The rows load exactly when every query row converts, and then each is its query row's conversion. */
  lemma {:induction false} WebhookRowsMeaning(providers: seq<Provider>, qs: seq<QueryRow>)
    ensures var r := WebhookRows(providers, qs);
            (r.Ok? <==> forall i :: 0 <= i < |qs| ==> WebhookRowOf(providers, qs[i]).Ok?)
            && (r.Ok? ==> |r.value| == |qs| && forall i :: 0 <= i < |qs| ==> r.value[i] == WebhookRowOf(providers, qs[i]).value)
  {
    hide WebhookRowOf, AmountOf, TenderSum, NormalizeService, PayloadOf, Get, Or, ToStr;
    if qs != [] {
      WebhookRowsMeaning(providers, qs[1..]);
      assert forall i :: 0 < i < |qs| ==> qs[i] == qs[1..][i - 1];
    }
  }

  // ---------------------------------------------------------------------
  // findMatch

  datatype Match = Match(row: MixupRow, score: real, timeDiff: nat, priceDiff: real, tipDiff: real)

  function AbsInt(x: int): nat {
    if x < 0 then -x else x
  }

  function AbsReal(x: real): (r: real)
    ensures r >= 0.0
  {
    if x < 0.0 then -x else x
  }

  /**
   * The checks `findMatch` makes of one candidate row, and its score when
   * they pass: same service key, both times known and at most an hour
   * apart, prices within $7 when both are positive, tips within $1.50 when
   * either is positive.
   */
  function Candidate(event: WebhookRow, row: MixupRow): (r: Option<Match>)
    ensures r.Some? <==>
              row.serviceKey == event.serviceKey && row.checkoutDate.Some? && event.createdUtc.Some?
              && AbsInt(row.checkoutDate.value - event.createdUtc.value) <= MatchWindowMs
              && (row.price > 0.0 && event.netAmount > 0.0 ==> AbsReal(row.price - event.netAmount) <= PriceTolerance)
              && (row.tip > 0.0 || event.tip > 0.0 ==> AbsReal(row.tip - event.tip) <= TipTolerance)
    ensures r.Some? ==> r.value.row == row && r.value.score >= 0.0
    ensures r.Some? ==> (r.value.score == 0.0 <==>
                           row.checkoutDate == event.createdUtc && row.price == event.netAmount && row.tip == event.tip)
  {
    if row.serviceKey != event.serviceKey || row.checkoutDate.None? || event.createdUtc.None? then None
    else
      var timeDiff := AbsInt(row.checkoutDate.value - event.createdUtc.value);
      if timeDiff > MatchWindowMs then None
      else
        var priceDiff := AbsReal(row.price - event.netAmount);
        if row.price > 0.0 && event.netAmount > 0.0 && priceDiff > PriceTolerance then None
        else
          var tipDiff := AbsReal(row.tip - event.tip);
          if (row.tip > 0.0 || event.tip > 0.0) && tipDiff > TipTolerance then None
          else Some(Match(row, timeDiff as real + priceDiff * 1000.0 + tipDiff * 1000.0, timeDiff, priceDiff, tipDiff))
  }

  /** The best match `findMatch` holds after looking at the first `k` candidates. */
  function BestUpTo(event: WebhookRow, cands: seq<MixupRow>, k: nat): (r: Option<Match>)
    requires k <= |cands|
    ensures r.Some? ==> r.value.row in cands[..k] && Candidate(event, r.value.row) == r
  {
    if k == 0 then None
    else
      var best := BestUpTo(event, cands, k - 1);
      var m := Candidate(event, cands[k - 1]);
      assert cands[..k] == cands[..k - 1] + [cands[k - 1]];
      if m.Some? && (best.None? || m.value.score < best.value.score) then m else best
  }

  /** `findMatch`. */
  method FindMatch(event: WebhookRow, candidates: seq<MixupRow>) returns (best: Option<Match>)
    ensures best == BestUpTo(event, candidates, |candidates|)
  {
    hide BestUpTo;
    best := None;
    for i := 0 to |candidates|
      invariant best == BestUpTo(event, candidates, i)
    {
      BestStep(event, candidates, i + 1);
      var row := candidates[i];
      if row.serviceKey != event.serviceKey {
        continue;
      }
      if row.checkoutDate.None? || event.createdUtc.None? {
        continue;
      }
      var timeDiff := AbsInt(row.checkoutDate.value - event.createdUtc.value);
      if timeDiff > MatchWindowMs {
        continue;
      }
      var priceDiff := AbsReal(row.price - event.netAmount);
      if row.price > 0.0 && event.netAmount > 0.0 && priceDiff > PriceTolerance {
        continue;
      }
      var tipDiff := AbsReal(row.tip - event.tip);
      if row.tip > 0.0 || event.tip > 0.0 {
        if tipDiff > TipTolerance {
          continue;
        }
      }
      var score := timeDiff as real + priceDiff * 1000.0 + tipDiff * 1000.0;
      if best.None? || score < best.value.score {
        best := Some(Match(row, score, timeDiff, priceDiff, tipDiff));
      }
    }
  }

  /** One more candidate replaces the best so far only when it passes and scores strictly less. */
  lemma BestStep(event: WebhookRow, cands: seq<MixupRow>, k: nat)
    requires 0 < k <= |cands|
    ensures var best := BestUpTo(event, cands, k - 1);
            var m := Candidate(event, cands[k - 1]);
            BestUpTo(event, cands, k) == if m.Some? && (best.None? || m.value.score < best.value.score) then m else best
  {
  }

  /** Candidate `i` passes the checks, scores no worse than any other among the first `k`, and strictly better than every earlier one. */
  predicate FirstBest(event: WebhookRow, cands: seq<MixupRow>, k: nat, i: nat)
    requires k <= |cands|
  {
    i < k && Candidate(event, cands[i]).Some?
    && (forall j :: 0 <= j < k && Candidate(event, cands[j]).Some? ==>
          Candidate(event, cands[i]).value.score <= Candidate(event, cands[j]).value.score)
    && (forall j :: 0 <= j < i && Candidate(event, cands[j]).Some? ==>
          Candidate(event, cands[i]).value.score < Candidate(event, cands[j]).value.score)
  }

  /** The best so far stays first-best when the next candidate fails or scores no less. */
  lemma FirstBestKept(event: WebhookRow, cands: seq<MixupRow>, k: nat, i: nat)
    requires 0 < k <= |cands| && FirstBest(event, cands, k - 1, i)
    requires Candidate(event, cands[k - 1]).Some? ==>
               Candidate(event, cands[i]).value.score <= Candidate(event, cands[k - 1]).value.score
    ensures FirstBest(event, cands, k, i)
  {
  }

  /** A passing candidate that scores less than every earlier passing one is first-best. */
  lemma FirstBestNew(event: WebhookRow, cands: seq<MixupRow>, k: nat)
    requires 0 < k <= |cands| && Candidate(event, cands[k - 1]).Some?
    requires forall j :: 0 <= j < k - 1 && Candidate(event, cands[j]).Some? ==>
               Candidate(event, cands[k - 1]).value.score < Candidate(event, cands[j]).value.score
    ensures FirstBest(event, cands, k, k - 1)
  {
  }

  /** A passing candidate that scores less than the first-best so far becomes first-best. */
  lemma FirstBestBeaten(event: WebhookRow, cands: seq<MixupRow>, k: nat, i: nat)
    requires 0 < k <= |cands| && FirstBest(event, cands, k - 1, i) && Candidate(event, cands[k - 1]).Some?
    requires Candidate(event, cands[k - 1]).value.score < Candidate(event, cands[i]).value.score
    ensures FirstBest(event, cands, k, k - 1)
  {
    FirstBestNew(event, cands, k);
  }

  /**
   * `findMatch` finds nothing exactly when no candidate passes the checks;
   * otherwise it returns the first candidate with the least score.
   */
  lemma {:induction false} BestIsFirstLeast(event: WebhookRow, cands: seq<MixupRow>, k: nat)
    requires k <= |cands|
    ensures BestUpTo(event, cands, k).None? <==> forall j :: 0 <= j < k ==> Candidate(event, cands[j]).None?
    ensures BestUpTo(event, cands, k).Some? ==>
              exists i: nat :: i < k && FirstBest(event, cands, k, i) && BestUpTo(event, cands, k) == Candidate(event, cands[i])
  {
    hide Candidate, BestUpTo, FirstBest;
    if k > 0 {
      BestIsFirstLeast(event, cands, k - 1);
      BestStep(event, cands, k);
      var best := BestUpTo(event, cands, k - 1);
      var m := Candidate(event, cands[k - 1]);
      if m.Some? && (best.None? || m.value.score < best.value.score) {
        if best.Some? {
          var i0: nat :| i0 < k - 1 && FirstBest(event, cands, k - 1, i0) && best == Candidate(event, cands[i0]);
          FirstBestBeaten(event, cands, k, i0);
        } else {
          FirstBestNew(event, cands, k);
        }
        assert FirstBest(event, cands, k, k - 1);
      } else if best.Some? {
        var i0: nat :| i0 < k - 1 && FirstBest(event, cands, k - 1, i0) && best == Candidate(event, cands[i0]);
        FirstBestKept(event, cands, k, i0);
      }
    }
  }

  // ---------------------------------------------------------------------
  // buildComparison

  datatype Deltas = Deltas(timeDiffMs: int, priceDiff: real, tipDiff: real)

  /** One line of the webhook table. */
  datatype Entry = Entry(event: WebhookRow, matched: Option<MixupRow>, deltas: Option<Deltas>)

  /** One line of the CSV table. */
  datatype CsvEntry = CsvEntry(row: MixupRow, event: Option<WebhookRow>, deltas: Option<Deltas>)

  datatype Comparison = Comparison(entries: seq<Entry>, csvRows: seq<CsvEntry>, unmatchedCsv: seq<MixupRow>)

  /** `remainingCsv`, `entries` and `csvMatchDetail` between two webhooks. */
  datatype Linking = Linking(remaining: set<nat>, entries: seq<Entry>, detail: map<nat, (WebhookRow, Deltas)>)

  function DeltasOf(m: Match): Deltas {
    Deltas(m.timeDiff, m.priceDiff, m.tipDiff)
  }

  /** `new Set(mixupRows.map(r => r.rowNumber))`. */
  function RowNumbers(rows: seq<MixupRow>): (r: set<nat>)
    ensures forall x :: x in rows ==> x.rowNumber in r
    ensures forall n :: n in r ==> exists x :: x in rows && x.rowNumber == n
  {
    set x | x in rows :: x.rowNumber
  }

  /** `mixupRows.filter(row => remainingCsv.has(row.rowNumber))`. */
  function Available(rows: seq<MixupRow>, remaining: set<nat>): (r: seq<MixupRow>)
    ensures forall x :: x in r <==> x in rows && x.rowNumber in remaining
  {
    if rows == [] then []
    else
      var rest := Available(rows[1..], remaining);
      assert forall x :: x in rows <==> x == rows[0] || x in rows[1..];
      if rows[0].rowNumber in remaining then [rows[0]] + rest else rest
  }

  /** The row numbers the entries link to. */
  function Linked(entries: seq<Entry>): (r: set<nat>)
    ensures forall n :: n in r <==>
              exists i :: 0 <= i < |entries| && entries[i].matched.Some? && entries[i].matched.value.rowNumber == n
  {
    if entries == [] then {}
    else
      var init := entries[..|entries| - 1];
      var last := entries[|entries| - 1];
      assert forall i :: 0 <= i < |init| ==> init[i] == entries[i];
      Linked(init) + (if last.matched.Some? then {last.matched.value.rowNumber} else {})
  }

  /** What `findMatch` finds among the rows whose numbers are still in `remaining`. */
  function Pick(rows: seq<MixupRow>, remaining: set<nat>, event: WebhookRow): (r: Option<Match>)
    ensures r.Some? ==> r.value.row in rows && r.value.row.rowNumber in remaining && Candidate(event, r.value.row) == r
  {
    var candidates := Available(rows, remaining);
    assert candidates[..|candidates|] == candidates;
    BestUpTo(event, candidates, |candidates|)
  }

  /** The pick passes the checks and scores no worse than any free row that passes them; there is none only when no free row passes. */
  lemma PickIsBest(rows: seq<MixupRow>, remaining: set<nat>, event: WebhookRow)
    ensures Pick(rows, remaining, event).None? ==>
              forall y :: y in rows && y.rowNumber in remaining ==> Candidate(event, y).None?
    ensures Pick(rows, remaining, event).Some? ==>
              forall y :: y in rows && y.rowNumber in remaining && Candidate(event, y).Some? ==>
                Pick(rows, remaining, event).value.score <= Candidate(event, y).value.score
  {
    var cands := Available(rows, remaining);
    BestIsFirstLeast(event, cands, |cands|);
    hide Candidate, BestUpTo, Available;
    forall y | y in rows && y.rowNumber in remaining
      ensures exists j :: 0 <= j < |cands| && cands[j] == y
    {
      assert y in cands;
    }
    if Pick(rows, remaining, event).Some? {
      var i0: nat :| i0 < |cands| && FirstBest(event, cands, |cands|, i0) && Pick(rows, remaining, event) == Candidate(event, cands[i0]);
    }
  }

  /** One turn of the loop: the webhook takes the best row still free, if any. */
  function LinkStep(rows: seq<MixupRow>, st: Linking, event: WebhookRow): (r: Linking)
    ensures |r.entries| == |st.entries| + 1 && r.entries[..|st.entries|] == st.entries
  {
    match Pick(rows, st.remaining, event)
    case None => st.(entries := st.entries + [Entry(event, None, None)])
    case Some(m) =>
      Linking(st.remaining - {m.row.rowNumber},
              st.entries + [Entry(event, Some(m.row), Some(DeltasOf(m)))],
              st.detail[m.row.rowNumber := (event, DeltasOf(m))])
  }

  /** The state after the first `k` webhooks. */
  function LinkUpTo(rows: seq<MixupRow>, webhooks: seq<WebhookRow>, k: nat): (r: Linking)
    requires k <= |webhooks|
    ensures |r.entries| == k
  {
    if k == 0 then Linking(RowNumbers(rows), [], map[])
    else LinkStep(rows, LinkUpTo(rows, webhooks, k - 1), webhooks[k - 1])
  }

  /** `mixupRows.map(...)`: each CSV row with the webhook linked to its row number, if any. */
  function CsvRowsOf(rows: seq<MixupRow>, detail: map<nat, (WebhookRow, Deltas)>): (r: seq<CsvEntry>)
    ensures |r| == |rows|
    ensures forall k :: 0 <= k < |rows| ==>
              r[k].row == rows[k] && (r[k].event.Some? <==> rows[k].rowNumber in detail)
              && (rows[k].rowNumber in detail ==>
                    r[k].event == Some(detail[rows[k].rowNumber].0) && r[k].deltas == Some(detail[rows[k].rowNumber].1))
  {
    seq(|rows|, k requires 0 <= k < |rows| =>
      if rows[k].rowNumber in detail then CsvEntry(rows[k], Some(detail[rows[k].rowNumber].0), Some(detail[rows[k].rowNumber].1))
      else CsvEntry(rows[k], None, None))
  }

  /** `mixupRows.filter(row => !csvMatchDetail.has(row.rowNumber))`. */
  function Unlinked(rows: seq<MixupRow>, detail: map<nat, (WebhookRow, Deltas)>): (r: seq<MixupRow>)
    ensures forall x :: x in r <==> x in rows && x.rowNumber !in detail
  {
    if rows == [] then []
    else
      var rest := Unlinked(rows[1..], detail);
      assert forall x :: x in rows <==> x == rows[0] || x in rows[1..];
      if rows[0].rowNumber !in detail then [rows[0]] + rest else rest
  }

  /** What `buildComparison` returns for the loaded rows and webhooks. */
  function ComparisonSpec(rows: seq<MixupRow>, webhooks: seq<WebhookRow>): Comparison {
    var st := LinkUpTo(rows, webhooks, |webhooks|);
    Comparison(st.entries, CsvRowsOf(rows, st.detail), Unlinked(rows, st.detail))
  }

  /** `buildComparison`, after both loads. */
  method BuildComparison(rows: seq<MixupRow>, webhooks: seq<WebhookRow>) returns (c: Comparison)
    ensures c == ComparisonSpec(rows, webhooks)
  {
    var remaining := RowNumbers(rows);
    var entries: seq<Entry> := [];
    var detail: map<nat, (WebhookRow, Deltas)> := map[];
    for i := 0 to |webhooks|
      invariant Linking(remaining, entries, detail) == LinkUpTo(rows, webhooks, i)
    {
      var event := webhooks[i];
      var available := Available(rows, remaining);
      var m := FindMatch(event, available);
      if m.Some? {
        remaining := remaining - {m.value.row.rowNumber};
        var deltas := DeltasOf(m.value);
        entries := entries + [Entry(event, Some(m.value.row), Some(deltas))];
        detail := detail[m.value.row.rowNumber := (event, deltas)];
      } else {
        entries := entries + [Entry(event, None, None)];
      }
    }
    c := Comparison(entries, CsvRowsOf(rows, detail), Unlinked(rows, detail));
  }

  /** The links of one more entry. */
  lemma LinkedSnoc(entries: seq<Entry>, e: Entry)
    ensures Linked(entries + [e]) == Linked(entries) + (if e.matched.Some? then {e.matched.value.rowNumber} else {})
  {
    assert (entries + [e])[..|entries|] == entries;
  }

  /** Entry `i` is webhook `i`'s, with deltas exactly when it is linked. */
  ghost predicate EntriesFollow(webhooks: seq<WebhookRow>, k: nat, st: Linking) {
    k <= |webhooks| && |st.entries| == k
    && forall i :: 0 <= i < k ==> st.entries[i].event == webhooks[i]
                                  && (st.entries[i].matched.Some? <==> st.entries[i].deltas.Some?)
  }

  /** Every link is to a row of the sheet and is recorded under its row number with the same webhook and deltas. */
  ghost predicate LinksRecorded(rows: seq<MixupRow>, st: Linking) {
    forall i :: 0 <= i < |st.entries| && st.entries[i].matched.Some? ==>
      st.entries[i].matched.value in rows
      && st.entries[i].matched.value.rowNumber in st.detail
      && st.entries[i].deltas.Some?
      && st.detail[st.entries[i].matched.value.rowNumber] == (st.entries[i].event, st.entries[i].deltas.value)
  }

  /** No two entries link the same row number. */
  ghost predicate LinksDistinct(st: Linking) {
    forall i, j :: 0 <= i < j < |st.entries| && st.entries[i].matched.Some? && st.entries[j].matched.Some? ==>
      st.entries[i].matched.value.rowNumber != st.entries[j].matched.value.rowNumber
  }

  /** The recorded row numbers are the linked ones, and the free ones are the rest. */
  ghost predicate KeysAgree(rows: seq<MixupRow>, st: Linking) {
    st.detail.Keys == Linked(st.entries) && st.remaining == RowNumbers(rows) - st.detail.Keys
  }

  /** What holds of the loop's state after `k` webhooks. */
  ghost predicate LinkInvariant(rows: seq<MixupRow>, webhooks: seq<WebhookRow>, k: nat, st: Linking) {
    EntriesFollow(webhooks, k, st) && LinksRecorded(rows, st) && LinksDistinct(st) && KeysAgree(rows, st)
  }

  /** The entry a step appends, and its record. */
  lemma LinkStepShape(rows: seq<MixupRow>, st: Linking, event: WebhookRow)
    ensures var next := LinkStep(rows, st, event);
            var p := Pick(rows, st.remaining, event);
            next.entries == st.entries + [Entry(event, if p.Some? then Some(p.value.row) else None,
                                                if p.Some? then Some(DeltasOf(p.value)) else None)]
            && (p.None? ==> next.detail == st.detail && next.remaining == st.remaining)
            && (p.Some? ==> next.detail == st.detail[p.value.row.rowNumber := (event, DeltasOf(p.value))]
                            && next.remaining == st.remaining - {p.value.row.rowNumber})
  {
    hide Pick;
  }

  lemma LinkStepFollows(rows: seq<MixupRow>, webhooks: seq<WebhookRow>, k: nat, st: Linking)
    requires k < |webhooks| && EntriesFollow(webhooks, k, st)
    ensures EntriesFollow(webhooks, k + 1, LinkStep(rows, st, webhooks[k]))
  {
    hide Pick, LinkStep;
    LinkStepShape(rows, st, webhooks[k]);
  }

  lemma LinkStepRecords(rows: seq<MixupRow>, webhooks: seq<WebhookRow>, k: nat, st: Linking)
    requires k < |webhooks| && LinksRecorded(rows, st) && KeysAgree(rows, st)
    ensures LinksRecorded(rows, LinkStep(rows, st, webhooks[k]))
  {
    hide Candidate, Pick, LinkStep, Linked, RowNumbers, DeltasOf;
    LinkStepShape(rows, st, webhooks[k]);
    var p := Pick(rows, st.remaining, webhooks[k]);
    if p.Some? {
      assert p.value.row.rowNumber !in st.detail;
    }
  }

  lemma LinkStepDistinct(rows: seq<MixupRow>, webhooks: seq<WebhookRow>, k: nat, st: Linking)
    requires k < |webhooks| && LinksDistinct(st) && LinksRecorded(rows, st) && KeysAgree(rows, st)
    ensures LinksDistinct(LinkStep(rows, st, webhooks[k]))
  {
    hide Candidate, Pick, LinkStep, Linked, RowNumbers, DeltasOf;
    LinkStepShape(rows, st, webhooks[k]);
    var p := Pick(rows, st.remaining, webhooks[k]);
    if p.Some? {
      assert p.value.row.rowNumber !in st.detail;
    }
  }

  lemma LinkStepKeys(rows: seq<MixupRow>, webhooks: seq<WebhookRow>, k: nat, st: Linking)
    requires k < |webhooks| && KeysAgree(rows, st)
    ensures KeysAgree(rows, LinkStep(rows, st, webhooks[k]))
  {
    hide Candidate, Pick, LinkStep, Linked, RowNumbers, DeltasOf;
    LinkStepShape(rows, st, webhooks[k]);
    var p := Pick(rows, st.remaining, webhooks[k]);
    var next := LinkStep(rows, st, webhooks[k]);
    LinkedSnoc(st.entries, next.entries[|st.entries|]);
    assert next.entries == st.entries + [next.entries[|st.entries|]];
    if p.Some? {
      assert p.value.row.rowNumber in RowNumbers(rows);
    }
  }

  lemma LinkStepKeeps(rows: seq<MixupRow>, webhooks: seq<WebhookRow>, k: nat, st: Linking)
    requires k < |webhooks| && LinkInvariant(rows, webhooks, k, st)
    ensures LinkInvariant(rows, webhooks, k + 1, LinkStep(rows, st, webhooks[k]))
  {
    LinkStepFollows(rows, webhooks, k, st);
    LinkStepRecords(rows, webhooks, k, st);
    LinkStepDistinct(rows, webhooks, k, st);
    LinkStepKeys(rows, webhooks, k, st);
  }

  lemma {:induction false} LinkUpToInvariant(rows: seq<MixupRow>, webhooks: seq<WebhookRow>, k: nat)
    requires k <= |webhooks|
    ensures LinkInvariant(rows, webhooks, k, LinkUpTo(rows, webhooks, k))
  {
    if k > 0 {
      LinkUpToInvariant(rows, webhooks, k - 1);
      LinkStepKeeps(rows, webhooks, k - 1, LinkUpTo(rows, webhooks, k - 1));
    }
  }

  /** Later turns only append: the first `i` entries are those after `i` turns. */
  lemma {:induction false} LinkUpToPrefix(rows: seq<MixupRow>, webhooks: seq<WebhookRow>, i: nat, k: nat)
    requires i <= k <= |webhooks|
    ensures |LinkUpTo(rows, webhooks, k).entries| == k
    ensures LinkUpTo(rows, webhooks, k).entries[..i] == LinkUpTo(rows, webhooks, i).entries
    decreases k
  {
    hide LinkStep;
    if i < k {
      LinkUpToPrefix(rows, webhooks, i, k - 1);
      var before := LinkUpTo(rows, webhooks, k - 1).entries;
      var after := LinkUpTo(rows, webhooks, k).entries;
      assert after[..k - 1] == before;
      assert after[..i] == before[..i];
    } else {
      assert LinkUpTo(rows, webhooks, k).entries[..k] == LinkUpTo(rows, webhooks, k).entries;
    }
  }

  /** One entry per webhook, in order, with deltas exactly when linked; one CSV line per row, in order. */
  lemma ComparisonShape(rows: seq<MixupRow>, webhooks: seq<WebhookRow>)
    ensures |ComparisonSpec(rows, webhooks).entries| == |webhooks|
    ensures forall i :: 0 <= i < |webhooks| ==>
              ComparisonSpec(rows, webhooks).entries[i].event == webhooks[i]
              && (ComparisonSpec(rows, webhooks).entries[i].matched.Some? <==> ComparisonSpec(rows, webhooks).entries[i].deltas.Some?)
    ensures |ComparisonSpec(rows, webhooks).csvRows| == |rows|
    ensures forall k :: 0 <= k < |rows| ==> ComparisonSpec(rows, webhooks).csvRows[k].row == rows[k]
  {
    LinkUpToInvariant(rows, webhooks, |webhooks|);
  }

  /** Every link goes to a row of the sheet, and no row is linked to two webhooks. */
  lemma LinkedAtMostOnce(rows: seq<MixupRow>, webhooks: seq<WebhookRow>)
    ensures forall i :: 0 <= i < |ComparisonSpec(rows, webhooks).entries| && ComparisonSpec(rows, webhooks).entries[i].matched.Some? ==>
              ComparisonSpec(rows, webhooks).entries[i].matched.value in rows
    ensures forall i, j :: 0 <= i < j < |ComparisonSpec(rows, webhooks).entries|
                           && ComparisonSpec(rows, webhooks).entries[i].matched.Some?
                           && ComparisonSpec(rows, webhooks).entries[j].matched.Some? ==>
              ComparisonSpec(rows, webhooks).entries[i].matched.value.rowNumber
              != ComparisonSpec(rows, webhooks).entries[j].matched.value.rowNumber
  {
    LinkUpToInvariant(rows, webhooks, |webhooks|);
  }

  /** `unmatchedCsv` holds exactly the rows no webhook was linked to. */
  lemma UnmatchedAreUnlinked(rows: seq<MixupRow>, webhooks: seq<WebhookRow>)
    ensures forall x :: x in ComparisonSpec(rows, webhooks).unmatchedCsv <==>
              x in rows && x.rowNumber !in Linked(ComparisonSpec(rows, webhooks).entries)
  {
    LinkUpToInvariant(rows, webhooks, |webhooks|);
  }

  /** A CSV line shows the webhook linked to its row and that link's deltas, and nothing when there is none. */
  lemma CsvRowsShowLinks(rows: seq<MixupRow>, webhooks: seq<WebhookRow>)
    ensures forall k :: 0 <= k < |rows| ==>
              (ComparisonSpec(rows, webhooks).csvRows[k].event.None? <==>
                 rows[k].rowNumber !in Linked(ComparisonSpec(rows, webhooks).entries))
    ensures forall i, k :: 0 <= i < |ComparisonSpec(rows, webhooks).entries| && 0 <= k < |rows|
                           && ComparisonSpec(rows, webhooks).entries[i].matched.Some?
                           && ComparisonSpec(rows, webhooks).entries[i].matched.value.rowNumber == rows[k].rowNumber ==>
              ComparisonSpec(rows, webhooks).csvRows[k].event == Some(ComparisonSpec(rows, webhooks).entries[i].event)
              && ComparisonSpec(rows, webhooks).csvRows[k].deltas == ComparisonSpec(rows, webhooks).entries[i].deltas
  {
    LinkUpToInvariant(rows, webhooks, |webhooks|);
  }

  /**
   * Each webhook's turn: it is linked to a row still free at that turn that
   * passes the checks and scores no worse than any other free row passing
   * them, with that pair's deltas; it stays unlinked only when no free row
   * passes them.
   */
  lemma GreedyChoice(rows: seq<MixupRow>, webhooks: seq<WebhookRow>, i: nat)
    requires i < |webhooks|
    ensures var c := ComparisonSpec(rows, webhooks);
            |c.entries| == |webhooks|
            && (c.entries[i].matched.Some? ==>
                  Candidate(webhooks[i], c.entries[i].matched.value).Some?
                  && c.entries[i].deltas == Some(DeltasOf(Candidate(webhooks[i], c.entries[i].matched.value).value))
                  && c.entries[i].matched.value.rowNumber !in Linked(c.entries[..i])
                  && forall y :: y in rows && y.rowNumber !in Linked(c.entries[..i]) && Candidate(webhooks[i], y).Some? ==>
                       Candidate(webhooks[i], c.entries[i].matched.value).value.score <= Candidate(webhooks[i], y).value.score)
            && (c.entries[i].matched.None? ==>
                  forall y :: y in rows && y.rowNumber !in Linked(c.entries[..i]) ==> Candidate(webhooks[i], y).None?)
  {
    var all := LinkUpTo(rows, webhooks, |webhooks|);
    var st := LinkUpTo(rows, webhooks, i);
    LinkUpToPrefix(rows, webhooks, i, |webhooks|);
    LinkUpToPrefix(rows, webhooks, i + 1, |webhooks|);
    LinkUpToInvariant(rows, webhooks, i);
    PickIsBest(rows, st.remaining, webhooks[i]);
    hide Candidate, Pick, Linked, RowNumbers, LinkUpTo, ComparisonSpec;
    assert ComparisonSpec(rows, webhooks).entries == all.entries;
    var entry := all.entries[i];
    assert entry == LinkUpTo(rows, webhooks, i + 1).entries[i] by {
      assert all.entries[..i + 1][i] == all.entries[i];
    }
    assert LinkUpTo(rows, webhooks, i + 1) == LinkStep(rows, st, webhooks[i]);
    assert all.entries[..i] == st.entries;
    forall y | y in rows && y.rowNumber !in Linked(st.entries)
      ensures y.rowNumber in st.remaining
    {
      RowNumbersHas(rows, y);
    }
  }

  lemma RowNumbersHas(rows: seq<MixupRow>, y: MixupRow)
    requires y in rows
    ensures y.rowNumber in RowNumbers(rows)
  {
  }

  // ---------------------------------------------------------------------
  // The status column

  /** `Math.round(Math.abs(ms) / 60000)`. */
  function Minutes(ms: int): int {
    RoundHalfUp(AbsInt(ms) as real / 60000.0)
  }

  /** The notes on a linked pair's differences. */
  function DeltaNotes(d: Deltas): seq<string> {
    (if AbsReal(d.priceDiff) > 1.0 then ["Price diff $" + FormatCents(Cents(d.priceDiff))] else [])
    + (if AbsReal(d.tipDiff) > 0.5 then ["Tip diff $" + FormatCents(Cents(d.tipDiff))] else [])
    + (if Minutes(d.timeDiffMs) > 5 then ["Time diff " + IntToString(Minutes(d.timeDiffMs)) + " min"] else [])
  }

  const MismatchLabel := "Linked (provider mismatch)"

  lemma JoinStartsWithFirst(parts: seq<string>, sep: string)
    requires |parts| >= 1
    ensures StartsWith(Join(parts, sep), parts[0])
    ensures |parts| >= 2 ==> Join(parts, sep) == parts[0] + sep + Join(parts[1..], sep)
  {
  }

  /** A status led by either label starts with "Linked", and with the mismatch label exactly when it is led by it. */
  lemma LinkedPrefix(first: string, notes: seq<string>)
    requires first == "Linked" || first == MismatchLabel
    ensures StartsWith(Join([first] + notes, "; "), "Linked")
    ensures StartsWith(Join([first] + notes, "; "), MismatchLabel) <==> first == MismatchLabel
  {
    var parts := [first] + notes;
    var r := Join(parts, "; ");
    JoinStartsWithFirst(parts, "; ");
    assert r[..6] == first[..6];
    if first == "Linked" && |r| >= |MismatchLabel| {
      assert |parts| >= 2;
      assert parts[1..] == notes;
      assert r == "Linked" + "; " + Join(notes, "; ");
      assert r[6] == ';' && MismatchLabel[6] == ' ';
    }
  }

  /**
   * `formatStatus`: which of the pair is present, and for a linked pair
   * whether the provider ids differ, followed by the notable differences.
   */
  function FormatStatus(event: Option<WebhookRow>, row: Option<MixupRow>, deltas: Option<Deltas>): (r: string)
    ensures r == "(n/a)" <==> event.None? && row.None?
    ensures r == "No CSV match" <==> event.Some? && row.None?
    ensures r == "No webhook" <==> event.None? && row.Some?
    ensures event.Some? && row.Some? ==>
              StartsWith(r, "Linked") && (StartsWith(r, MismatchLabel) <==> event.value.providerId != row.value.providerId)
  {
    if event.None? && row.None? then "(n/a)"
    else if event.Some? && row.None? then "No CSV match"
    else if event.None? then "No webhook"
    else
      var first := if event.value.providerId == row.value.providerId then "Linked" else MismatchLabel;
      var notes := if deltas.Some? then DeltaNotes(deltas.value) else [];
      LinkedPrefix(first, notes);
      Join([first] + notes, "; ")
  }

  /** A webhook line says "No CSV match" exactly when it found no row, and a CSV line says "No webhook" exactly when no webhook took it. */
  lemma StatusColumns(rows: seq<MixupRow>, webhooks: seq<WebhookRow>)
    ensures forall i :: 0 <= i < |ComparisonSpec(rows, webhooks).entries| ==>
              var e := ComparisonSpec(rows, webhooks).entries[i];
              (FormatStatus(Some(e.event), e.matched, e.deltas) == "No CSV match" <==> e.matched.None?)
    ensures forall k :: 0 <= k < |ComparisonSpec(rows, webhooks).csvRows| ==>
              var x := ComparisonSpec(rows, webhooks).csvRows[k];
              var linked := Linked(ComparisonSpec(rows, webhooks).entries);
              (FormatStatus(x.event, Some(x.row), x.deltas) == "No webhook" <==> x.row.rowNumber !in linked)
  {
    ComparisonShape(rows, webhooks);
    CsvRowsShowLinks(rows, webhooks);
  }
}
