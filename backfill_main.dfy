/**
 * `main` of the December 2025 backfill: read the day exports, group their
 * rows by Eastern day, optionally purge the earlier manual inserts of one
 * day, index the stored events of each day, collect the rows no key of
 * the index matches, and in apply mode insert them.
 */
module BackfillMain {
  import opened Wrappers
  import opened Text
  import opened Store
  import Eastern
  import Employees
  import Ordering
  import BackfillRange
  import opened BackfillRead
  import opened BackfillExisting
  import opened BackfillCandidate
  import opened BackfillApply

  // ---------------------------------------------------------------- arguments

  /** The options `parseArgs` returns. */
  datatype Options = Options(
    apply: bool,
    verbose: bool,
    debugXlsx: bool,
    purgeManual: bool,
    day: Option<string>,
    dir: string,
    file: Option<string>,
    dryRun: bool)

  const DefaultDir := "src/csv/dec2025"

  /** The first position of `name` in `argv` (`argv.indexOf(name)`). */
  function FirstIndex(argv: seq<string>, name: string, from: nat): (r: Option<nat>)
    requires from <= |argv|
    ensures r.Some? ==> from <= r.value < |argv| && argv[r.value] == name
                        && forall j :: from <= j < r.value ==> argv[j] != name
    ensures r.None? ==> forall j :: from <= j < |argv| ==> argv[j] != name
    decreases |argv| - from
  {
    if from == |argv| then None
    else if argv[from] == name then Some(from)
    else FirstIndex(argv, name, from + 1)
  }

  /** The first argument starting with `prefix` (`argv.find(a => a.startsWith(prefix))`). */
  function FirstWithPrefix(argv: seq<string>, prefix: string, from: nat): (r: Option<string>)
    requires from <= |argv|
    ensures r.Some? ==> StartsWith(r.value, prefix)
                        && exists i :: from <= i < |argv| && argv[i] == r.value
                                       && forall j :: from <= j < i ==> !StartsWith(argv[j], prefix)
    ensures r.None? ==> forall j :: from <= j < |argv| ==> !StartsWith(argv[j], prefix)
    decreases |argv| - from
  {
    if from == |argv| then None
    else if StartsWith(argv[from], prefix) then Some(argv[from])
    else FirstWithPrefix(argv, prefix, from + 1)
  }

  /**
   * `getArg`: the argument after the first `name` when there is one and it
   * is not empty, else the rest of the first `name=...` argument.
   */
  function GetArg(argv: seq<string>, name: string): Option<string> {
    var idx := FirstIndex(argv, name, 0);
    if idx.Some? && idx.value + 1 < |argv| && argv[idx.value + 1] != "" then Some(argv[idx.value + 1])
    else
      match FirstWithPrefix(argv, name + "=", 0)
      case Some(a) => Some(a[|name| + 1..])
      case None => None
  }

  /** The value given as the next argument is read back. */
  lemma GetArgSeparate(before: seq<string>, name: string, value: string, after: seq<string>)
    requires name !in before && value != ""
    ensures GetArg(before + [name, value] + after, name) == Some(value)
  {
    var argv := before + [name, value] + after;
    assert argv[|before|] == name && argv[|before| + 1] == value;
    assert forall j :: 0 <= j < |before| ==> argv[j] == before[j];
  }

  /** The value given inline as `name=value` is read back when nothing earlier claims the option. */
  lemma GetArgInline(before: seq<string>, name: string, value: string, after: seq<string>)
    requires name !in before && name !in after
    requires forall a :: a in before ==> !StartsWith(a, name + "=")
    ensures GetArg(before + [name + "=" + value] + after, name) == Some(value)
  {
    var argv := before + [name + "=" + value] + after;
    var inline := name + "=" + value;
    assert |inline| > |name|;
    assert inline[..|name + "="|] == name + "=";
    assert argv[|before|] == inline;
    forall k | 0 <= k < |argv| ensures argv[k] != name && (k < |before| ==> !StartsWith(argv[k], name + "=")) {
      if k < |before| {
        assert argv[k] == before[k];
      } else if k > |before| {
        assert argv[k] == after[k - |before| - 1];
      }
    }
    assert inline[|name| + 1..] == value;
  }

  /** `parseArgs`. */
  function ParseArgs(argv: seq<string>): (o: Options)
    ensures o.dryRun <==> "--dry-run" in argv || "--dryrun" in argv || "--dry" in argv
    ensures o.apply <==> "--apply" in argv && !o.dryRun
    ensures o.dir == (if GetArg(argv, "--dir").Some? then GetArg(argv, "--dir").value else DefaultDir)
  {
    var dryRun := "--dry-run" in argv || "--dryrun" in argv || "--dry" in argv;
    var file := GetArg(argv, "--file");
    Options(
      apply := "--apply" in argv && !dryRun,
      verbose := "--verbose" in argv,
      debugXlsx := "--debug-xlsx" in argv,
      purgeManual := "--purge-manual" in argv,
      day := GetArg(argv, "--day"),
      dir := GetArg(argv, "--dir").GetOr(DefaultDir),
      file := if file.Some? then file else GetArg(argv, "-f"),
      dryRun := dryRun)
  }

  /** A string option that is truthy in JavaScript: present and not empty. */
  predicate Given(o: Option<string>) {
    o.Some? && o.value != ""
  }

  // ---------------------------------------------------------------- files

  const DefaultFiles: seq<string> := ["12-12-2025.xlsx", "12-13-2025.xlsx", "12-14-2025.xlsx"]

  /** The export of one supported day. */
  function DayFile(day: string): (r: Option<string>)
    ensures r.Some? ==> |day| == 10 && r.value == day[5..7] + "-" + day[8..10] + "-" + day[..4] + ".xlsx"
    ensures r.Some? <==> day in {"2025-12-12", "2025-12-13", "2025-12-14"}
  {
    if day == "2025-12-12" then
      assert day[5..7] == "12" && day[8..10] == "12" && day[..4] == "2025";
      Some("12-12-2025.xlsx")
    else if day == "2025-12-13" then
      assert day[5..7] == "12" && day[8..10] == "13" && day[..4] == "2025";
      Some("12-13-2025.xlsx")
    else if day == "2025-12-14" then
      assert day[5..7] == "12" && day[8..10] == "14" && day[..4] == "2025";
      Some("12-14-2025.xlsx")
    else None
  }

  function PathJoin(a: string, b: string): string {
    a + "/" + b
  }

  /** `path.resolve(root, dir)` and `path.join(cwd, file)`: an absolute path is kept. */
  function Resolve(base: string, p: string): (r: string)
    ensures StartsWith(p, "/") ==> r == p
  {
    if StartsWith(p, "/") then p else PathJoin(base, p)
  }

  function UnsupportedDay(day: string): string {
    "Unsupported --day '" + day + "'. Supported: 2025-12-12, 2025-12-13, 2025-12-14"
  }

  /** The files to read: the one given, or the export of the chosen day, or the three defaults. */
  function SelectFiles(o: Options, repoRoot: string, cwd: string): (r: Result<seq<string>, string>)
    ensures r.Err? <==> !Given(o.file) && Given(o.day) && DayFile(Trim(o.day.value)).None?
    ensures r.Err? ==> r.error == UnsupportedDay(Trim(o.day.value))
    ensures Given(o.file) ==> r == Ok([Resolve(cwd, o.file.value)])
    ensures r.Ok? && !Given(o.file) && Given(o.day) ==>
              r.value == [PathJoin(Resolve(repoRoot, o.dir), DayFile(Trim(o.day.value)).value)]
    ensures r.Ok? && !Given(o.file) && !Given(o.day) ==> |r.value| == 3
  {
    if Given(o.file) then Ok([Resolve(cwd, o.file.value)])
    else
      var dir := Resolve(repoRoot, o.dir);
      if !Given(o.day) then Ok([PathJoin(dir, DefaultFiles[0]), PathJoin(dir, DefaultFiles[1]), PathJoin(dir, DefaultFiles[2])])
      else
        var desired := Trim(o.day.value);
        match DayFile(desired)
        case None => Err(UnsupportedDay(desired))
        case Some(f) => Ok([PathJoin(dir, f)])
  }

  /** The rows of all the files in order, or the first reader error. */
  function ReadAllSpec(env: Eastern.Oracles, dir: Employees.Directory, files: Files, paths: seq<string>): (r: Result<seq<XlsxRow>, string>)
    decreases |paths|
  {
    if paths == [] then Ok([])
    else
      var n := |paths| - 1;
      match ReadAllSpec(env, dir, files, paths[..n])
      case Err(e) => Err(e)
      case Ok(rows) =>
        match ReadXlsxSpec(env, dir, files, paths[n])
        case Err(e) => Err(e)
        case Ok(more) => Ok(rows + more)
  }

  /** Reading succeeds exactly when every file reads, and then every row passed the reader's gate. */
  lemma {:induction false} ReadAllRows(env: Eastern.Oracles, dir: Employees.Directory, files: Files, paths: seq<string>)
    ensures ReadAllSpec(env, dir, files, paths).Ok? <==> forall p :: p in paths ==> ReadXlsxSpec(env, dir, files, p).Ok?
    ensures ReadAllSpec(env, dir, files, paths).Ok? ==>
              forall r :: r in ReadAllSpec(env, dir, files, paths).value ==> ValidRow(r)
    decreases |paths|
  {
    hide ReadXlsxSpec, ValidRow;
    if paths != [] {
      var n := |paths| - 1;
      assert paths == paths[..n] + [paths[n]];
      ReadAllRows(env, dir, files, paths[..n]);
      if ReadXlsxSpec(env, dir, files, paths[n]).Ok? {
        ReadRowsValid(env, dir, files, paths[n]);
        var more := ReadXlsxSpec(env, dir, files, paths[n]).value;
        assert forall r :: r in more ==> ValidRow(r) by {
          forall r | r in more ensures ValidRow(r) {
            var j :| 0 <= j < |more| && more[j] == r;
          }
        }
      }
    }
  }

  /** The reading loop over the selected files. */
  method ReadAll(env: Eastern.Oracles, dir: Employees.Directory, files: Files, paths: seq<string>)
    returns (r: Result<seq<XlsxRow>, string>)
    ensures r == ReadAllSpec(env, dir, files, paths)
  {
    hide ReadXlsxSpec;
    var all: seq<XlsxRow> := [];
    var i := 0;
    assert paths[..0] == [];
    while i < |paths|
      invariant 0 <= i <= |paths|
      invariant ReadAllSpec(env, dir, files, paths[..i]) == Ok(all)
    {
      assert paths[..i + 1][..i] == paths[..i];
      var rows, _ := ReadXlsx(env, dir, files, paths[i]);
      if rows.Err? {
        ReadAllStops(env, dir, files, paths, i + 1);
        return Err(rows.error);
      }
      all := all + rows.value;
      i := i + 1;
    }
    assert paths[..|paths|] == paths;
    r := Ok(all);
  }

  /** Once a file fails to read, the whole read fails with that error. */
  lemma {:induction false} ReadAllStops(env: Eastern.Oracles, dir: Employees.Directory, files: Files, paths: seq<string>, n: nat)
    requires n <= |paths|
    ensures ReadAllSpec(env, dir, files, paths[..n]).Err? ==> ReadAllSpec(env, dir, files, paths) == ReadAllSpec(env, dir, files, paths[..n])
    decreases |paths| - n
  {
    hide ReadXlsxSpec;
    if n < |paths| {
      assert paths[..n + 1][..n] == paths[..n];
      ReadAllStops(env, dir, files, paths, n + 1);
    } else {
      assert paths[..n] == paths;
    }
  }

  // ---------------------------------------------------------------- grouping

  /** Whether the grouping keeps a row: all rows, or only those of the chosen day. */
  predicate Admits(env: Eastern.Oracles, only: Option<string>, r: XlsxRow) {
    !Given(only) || RowDay(env, r) == Trim(only.value)
  }

  /** `rowsByDay`: the days in the order the Map first met them, and each day's rows. */
  datatype Groups = Groups(order: seq<string>, byDay: map<string, seq<XlsxRow>>)

  ghost predicate GroupsWellFormed(g: Groups) {
    Ordering.Distinct(g.order) && forall d :: d in g.byDay <==> d in g.order
  }

  function GroupStep(env: Eastern.Oracles, only: Option<string>, g: Groups, r: XlsxRow): Groups {
    var d := RowDay(env, r);
    if !Admits(env, only, r) then g
    else if d in g.byDay then Groups(g.order, g.byDay[d := g.byDay[d] + [r]])
    else Groups(g.order + [d], g.byDay[d := [r]])
  }

  function GroupSpec(env: Eastern.Oracles, rows: seq<XlsxRow>, only: Option<string>): Groups
    decreases |rows|
  {
    if rows == [] then Groups([], map[])
    else GroupStep(env, only, GroupSpec(env, rows[..|rows| - 1], only), rows[|rows| - 1])
  }

  /** The rows of `d` the grouping keeps, in order: a filter written independently of the Map. */
  function RowsOfDay(env: Eastern.Oracles, rows: seq<XlsxRow>, only: Option<string>, d: string): (r: seq<XlsxRow>)
    ensures forall x :: x in r ==> x in rows && RowDay(env, x) == d && Admits(env, only, x)
    decreases |rows|
  {
    if rows == [] then []
    else
      var n := |rows| - 1;
      var x := rows[n];
      RowsOfDay(env, rows[..n], only, d) + (if Admits(env, only, x) && RowDay(env, x) == d then [x] else [])
  }

  /**
   * The grouping: the Map holds exactly the days of admitted rows, each
   * once in its key order, and a day's rows are the admitted rows of that
   * day in the order they were read.
   */
  lemma {:induction false} GroupedRows(env: Eastern.Oracles, rows: seq<XlsxRow>, only: Option<string>)
    ensures GroupsWellFormed(GroupSpec(env, rows, only))
    ensures forall d :: d in GroupSpec(env, rows, only).byDay <==> RowsOfDay(env, rows, only, d) != []
    ensures forall d :: d in GroupSpec(env, rows, only).byDay ==> GroupSpec(env, rows, only).byDay[d] == RowsOfDay(env, rows, only, d)
    decreases |rows|
  {
    hide RowDay, Admits, RowsOfDay, GroupsWellFormed;
    if rows == [] {
      GroupedNone(env, only);
    } else {
      var n := |rows| - 1;
      GroupedRows(env, rows[..n], only);
      var g := GroupSpec(env, rows[..n], only);
      var x := rows[n];
      var g' := GroupStep(env, only, g, x);
      assert GroupSpec(env, rows, only) == g';
      GroupStepWellFormed(env, only, g, x);
      forall d ensures d in g'.byDay <==> RowsOfDay(env, rows, only, d) != []
        ensures d in g'.byDay ==> g'.byDay[d] == RowsOfDay(env, rows, only, d)
      {
        RowsOfDayStep(env, rows, only, d);
      }
    }
  }

  lemma GroupedNone(env: Eastern.Oracles, only: Option<string>)
    ensures GroupsWellFormed(Groups([], map[]))
    ensures forall d :: RowsOfDay(env, [], only, d) == []
  {
  }

  lemma RowsOfDayStep(env: Eastern.Oracles, rows: seq<XlsxRow>, only: Option<string>, d: string)
    requires rows != []
    ensures var n := |rows| - 1;
            RowsOfDay(env, rows, only, d)
            == RowsOfDay(env, rows[..n], only, d) + (if Admits(env, only, rows[n]) && RowDay(env, rows[n]) == d then [rows[n]] else [])
  {
    hide RowDay, Admits;
  }

  /** One more row keeps every day once in the order and in the Map. */
  lemma GroupStepWellFormed(env: Eastern.Oracles, only: Option<string>, g: Groups, x: XlsxRow)
    requires GroupsWellFormed(g)
    ensures GroupsWellFormed(GroupStep(env, only, g, x))
  {
    hide RowDay, Admits;
    var g' := GroupStep(env, only, g, x);
    if Admits(env, only, x) && RowDay(env, x) !in g.byDay {
      assert Ordering.Distinct(g'.order) by {
        forall i, j | 0 <= i < j < |g'.order| ensures g'.order[i] != g'.order[j] {
          if j == |g.order| {
            assert g.order[i] in g.order;
          }
        }
      }
    }
  }

  /** The grouping after one more row is one grouping step on the grouping before it. */
  lemma GroupSpecStep(env: Eastern.Oracles, rows: seq<XlsxRow>, k: nat, only: Option<string>)
    requires k <= |rows|
    ensures k == 0 ==> GroupSpec(env, rows[..k], only) == Groups([], map[])
    ensures k > 0 ==> GroupSpec(env, rows[..k], only) == GroupStep(env, only, GroupSpec(env, rows[..k - 1], only), rows[k - 1])
  {
    hide RowDay, GroupStep;
    if k > 0 {
      assert rows[..k][..k - 1] == rows[..k - 1];
    }
  }

  /** The grouping loop. */
  method GroupByDay(env: Eastern.Oracles, rows: seq<XlsxRow>, only: Option<string>) returns (g: Groups)
    ensures g == GroupSpec(env, rows, only)
  {
    hide RowDay, Trim, GroupSpec;
    g := Groups([], map[]);
    GroupSpecStep(env, rows, 0, only);
    var i := 0;
    while i < |rows|
      invariant 0 <= i <= |rows|
      invariant g == GroupSpec(env, rows[..i], only)
    {
      GroupSpecStep(env, rows, i + 1, only);
      var d := RowDay(env, rows[i]);
      if Given(only) && d != Trim(only.value) {
        i := i + 1;
        continue;
      }
      if d in g.byDay {
        g := Groups(g.order, g.byDay[d := g.byDay[d] + [rows[i]]]);
      } else {
        g := Groups(g.order + [d], g.byDay[d := [rows[i]]]);
      }
      i := i + 1;
    }
    assert rows[..|rows|] == rows;
  }

  /** `dayKeys`: the chosen day when it has rows, else every day with rows in sorted order. */
  function DayKeys(o: Options, g: Groups): (days: seq<string>)
    requires GroupsWellFormed(g)
    ensures Ordering.Distinct(days)
    ensures forall d :: d in days ==> d in g.byDay
    ensures Given(o.day) ==> days == if Trim(o.day.value) in g.byDay then [Trim(o.day.value)] else []
    ensures !Given(o.day) ==> Ordering.StrictlySorted(days) && forall d :: d in g.byDay ==> d in days
  {
    if Given(o.day) then
      var d := Trim(o.day.value);
      if d in g.byDay then [d] else []
    else
      var sorted := Ordering.SortStrings(g.order);
      assert forall d :: d in sorted <==> d in g.order by {
        forall d ensures d in sorted <==> d in g.order {
          assert d in sorted <==> d in multiset(sorted);
          assert d in g.order <==> d in multiset(g.order);
        }
      }
      assert Ordering.Distinct(sorted) by {
        forall i, j | 0 <= i < j < |sorted| ensures sorted[i] != sorted[j] {
          Ordering.StrLessAsymmetric(sorted[i], sorted[j]);
        }
      }
      sorted
  }

  function RowsFor(byDay: map<string, seq<XlsxRow>>, d: string): seq<XlsxRow> {
    if d in byDay then byDay[d] else []
  }

  // ---------------------------------------------------------------- purge

  const PurgeNeedsDay := "--purge-manual requires --day YYYY-MM-DD"

  /** `--purge-manual`: the count deleted and the table after it, or the error. */
  function PurgeSpec(env: Eastern.Oracles, o: Options, events: seq<StoredEvent>, online: bool): (r: Result<(Option<nat>, seq<StoredEvent>), string>)
    ensures !o.purgeManual ==> r == Ok((None, events))
    ensures o.purgeManual && !Given(o.day) ==> r == Err(PurgeNeedsDay)
  {
    hide BackfillRange.UtcRangeForEtDay, Trim, Purged;
    if !o.purgeManual then Ok((None, events))
    else if !Given(o.day) then Err(PurgeNeedsDay)
    else
      match BackfillRange.UtcRangeForEtDay(env, Trim(o.day.value))
      case Err(e) => Err(e)
      case Ok(range) =>
        if !online then Err(DatabaseError)
        else
          var rest := Purged(events, ManualPrefix, range.start, range.end);
          Ok((Some(|events| - |rest|), rest))
  }

  // ---------------------------------------------------------------- index and missing rows

  /** `existingKeysByDay` for the chosen days, or the first error. */
  function IndexSpec(env: Eastern.Oracles, events: seq<StoredEvent>, online: bool, days: seq<string>): (r: Result<map<string, set<string>>, string>)
    decreases |days|
  {
    if days == [] then Ok(map[])
    else
      var n := |days| - 1;
      match IndexSpec(env, events, online, days[..n])
      case Err(e) => Err(e)
      case Ok(m) =>
        match ExistingKeysSpec(env, events, online, days[n])
        case Err(e) => Err(e)
        case Ok(keys) => Ok(m[days[n] := keys])
  }

  /** The index holds, for each chosen day and no other, the key set of that day. */
  lemma {:induction false} IndexHoldsDays(env: Eastern.Oracles, events: seq<StoredEvent>, online: bool, days: seq<string>)
    ensures IndexSpec(env, events, online, days).Ok? <==> forall d :: d in days ==> ExistingKeysSpec(env, events, online, d).Ok?
    ensures IndexSpec(env, events, online, days).Ok? ==>
              (forall d :: d in IndexSpec(env, events, online, days).value <==> d in days)
              && forall d :: d in days ==> IndexSpec(env, events, online, days).value[d] == ExistingKeysSpec(env, events, online, d).value
    decreases |days|
  {
    hide ExistingKeysSpec;
    if days != [] {
      var n := |days| - 1;
      assert days == days[..n] + [days[n]];
      IndexHoldsDays(env, events, online, days[..n]);
    }
  }

  /** The candidates of one day's rows that no key of `keys` matches, in order. */
  function MissingOfDay(env: Eastern.Oracles, rows: seq<XlsxRow>, keys: set<string>): seq<Candidate>
    decreases |rows|
  {
    if rows == [] then []
    else
      var n := |rows| - 1;
      MissingOfDay(env, rows[..n], keys) + (if IsMissing(env, keys, rows[n]) then [BuildCandidate(rows[n])] else [])
  }

  /** `missing`: the days in order, each day's rows in order. */
  function MissingSpec(env: Eastern.Oracles, days: seq<string>, byDay: map<string, seq<XlsxRow>>, keysByDay: map<string, set<string>>): seq<Candidate>
    decreases |days|
  {
    if days == [] then []
    else
      var n := |days| - 1;
      MissingSpec(env, days[..n], byDay, keysByDay) + MissingOfDay(env, RowsFor(byDay, days[n]), KeysOf(keysByDay, days[n]))
  }

  /** A candidate is collected exactly when it is built from a row of its day that none of the three keys finds in the day's index. */
  lemma {:induction false} MissingOfDayIff(env: Eastern.Oracles, rows: seq<XlsxRow>, keys: set<string>, c: Candidate)
    ensures c in MissingOfDay(env, rows, keys) <==>
            exists r :: r in rows && c == BuildCandidate(r)
                        && StrictKeyOf(env, r) !in keys && FallbackKeyOf(env, r) !in keys && UltraKeyOf(env, r) !in keys
    decreases |rows|
  {
    hide BuildCandidate, StrictKeyOf, FallbackKeyOf, UltraKeyOf;
    if rows != [] {
      var n := |rows| - 1;
      assert rows == rows[..n] + [rows[n]];
      MissingOfDayIff(env, rows[..n], keys, c);
    }
  }

  lemma {:induction false} MissingSpecIff(env: Eastern.Oracles, days: seq<string>, byDay: map<string, seq<XlsxRow>>,
                                          keysByDay: map<string, set<string>>, c: Candidate)
    ensures c in MissingSpec(env, days, byDay, keysByDay) <==>
            exists d :: d in days && c in MissingOfDay(env, RowsFor(byDay, d), KeysOf(keysByDay, d))
    decreases |days|
  {
    hide MissingOfDay;
    if days != [] {
      var n := |days| - 1;
      assert days == days[..n] + [days[n]];
      MissingSpecIff(env, days[..n], byDay, keysByDay, c);
    }
  }

  /** Adding the keys of a day the collected days do not include changes nothing collected so far. */
  lemma {:induction false} MissingSpecFrame(env: Eastern.Oracles, days: seq<string>, byDay: map<string, seq<XlsxRow>>,
                                            keysByDay: map<string, set<string>>, d: string, keys: set<string>)
    requires d !in days
    ensures MissingSpec(env, days, byDay, keysByDay[d := keys]) == MissingSpec(env, days, byDay, keysByDay)
    decreases |days|
  {
    hide MissingOfDay;
    if days != [] {
      var n := |days| - 1;
      assert days[n] in days;
      assert days[..n] + [days[n]] == days;
      MissingSpecFrame(env, days[..n], byDay, keysByDay, d, keys);
    }
  }

  /** The inner loop: one day's rows, each appended when missing. */
  method CollectDay(env: Eastern.Oracles, rows: seq<XlsxRow>, keys: set<string>, missing: seq<Candidate>)
    returns (missing': seq<Candidate>)
    ensures missing' == missing + MissingOfDay(env, rows, keys)
  {
    hide BuildCandidate, StrictKeyOf, FallbackKeyOf, UltraKeyOf;
    missing' := missing;
    var i := 0;
    while i < |rows|
      invariant 0 <= i <= |rows|
      invariant missing' == missing + MissingOfDay(env, rows[..i], keys)
    {
      assert rows[..i + 1][..i] == rows[..i];
      var r := rows[i];
      if StrictKeyOf(env, r) !in keys && FallbackKeyOf(env, r) !in keys && UltraKeyOf(env, r) !in keys {
        missing' := missing' + [BuildCandidate(r)];
      }
      i := i + 1;
    }
    assert rows[..|rows|] == rows;
  }

  function PlansOf(env: Eastern.Oracles, missing: seq<Candidate>, now: int): (plans: seq<Planned>)
    ensures |plans| == |missing| && forall i :: 0 <= i < |missing| ==> plans[i] == PlanOf(env, missing[i], now)
  {
    seq(|missing|, i requires 0 <= i < |missing| => PlanOf(env, missing[i], now))
  }

  // ---------------------------------------------------------------- main

  /** What a run reports: the purge count, the missing candidates, and the insert count in apply mode. */
  datatype Outcome = Outcome(purged: Option<nat>, missing: seq<Candidate>, inserted: Option<nat>)

  datatype Final = Final(result: Result<Outcome, string>, events: seq<StoredEvent>)

  /**
   * The stages after the purge: index, collect, and insert in apply mode.
   * `asWritten` selects the apply loop as the source has it (`Backfill`
   * runs that one); `false` is the corrected loop, where a `P2002` skip
   * also records the key.
   */
  function ApplySpec(env: Eastern.Oracles, o: Options, g: Groups, days: seq<string>, now: int,
                     purged: Option<nat>, events: seq<StoredEvent>, online: bool, asWritten: bool): Final
  {
    match IndexSpec(env, events, online, days)
    case Err(e) => Final(Err(e), events)
    case Ok(keysByDay) =>
      var missing := MissingSpec(env, days, g.byDay, keysByDay);
      if !o.apply then Final(Ok(Outcome(purged, missing, None)), events)
      else
        var t := Run(PlansOf(env, missing, now), Tally(keysByDay, 0, events, None), online, asWritten);
        Final(if t.failure.Some? then Err(t.failure.value) else Ok(Outcome(purged, missing, Some(t.inserted))), t.events)
  }

  /** The whole script on a table holding `events`. */
  function BackfillSpec(env: Eastern.Oracles, dir: Employees.Directory, files: Files, argv: seq<string>,
                        repoRoot: string, cwd: string, now: int, events: seq<StoredEvent>, online: bool, asWritten: bool): Final
  {
    var o := ParseArgs(argv);
    match SelectFiles(o, repoRoot, cwd)
    case Err(e) => Final(Err(e), events)
    case Ok(paths) =>
      match ReadAllSpec(env, dir, files, paths)
      case Err(e) => Final(Err(e), events)
      case Ok(rows) => RowsSpec(env, o, rows, now, events, online, asWritten)
  }

  /** The run once the rows are read: group them, purge if asked, then index, collect and insert. */
  function RowsSpec(env: Eastern.Oracles, o: Options, rows: seq<XlsxRow>, now: int, events: seq<StoredEvent>, online: bool,
                    asWritten: bool): Final {
    GroupedRows(env, rows, o.day);
    var g := GroupSpec(env, rows, o.day);
    var days := DayKeys(o, g);
    match PurgeSpec(env, o, events, online)
    case Err(e) => Final(Err(e), events)
    case Ok(p) => ApplySpec(env, o, g, days, now, p.0, p.1, online, asWritten)
  }

  /** The loop over the chosen days: index a day, then collect its missing rows. */
  method IndexAndCollect(env: Eastern.Oracles, store: EventStore, days: seq<string>, byDay: map<string, seq<XlsxRow>>)
    returns (r: Result<(map<string, set<string>>, seq<Candidate>), string>)
    requires Ordering.Distinct(days)
    ensures r.Err? <==> IndexSpec(env, store.events, store.online, days).Err?
    ensures r.Err? ==> r.error == IndexSpec(env, store.events, store.online, days).error
    ensures r.Ok? ==> r.value.0 == IndexSpec(env, store.events, store.online, days).value
                      && r.value.1 == MissingSpec(env, days, byDay, r.value.0)
  {
    hide ExistingKeysSpec, MissingOfDay;
    var keysByDay: map<string, set<string>> := map[];
    var missing: seq<Candidate> := [];
    var i := 0;
    assert days[..0] == [];
    while i < |days|
      invariant 0 <= i <= |days|
      invariant IndexSpec(env, store.events, store.online, days[..i]) == Ok(keysByDay)
      invariant missing == MissingSpec(env, days[..i], byDay, keysByDay)
    {
      var d := days[i];
      assert days[..i + 1][..i] == days[..i] && days[..i + 1][i] == d;
      var keys := ExistingMatchKeysForDay(env, store, d);
      if keys.Err? {
        IndexStops(env, store.events, store.online, days, i + 1);
        return Err(keys.error);
      }
      assert d !in days[..i];
      MissingSpecFrame(env, days[..i], byDay, keysByDay, d, keys.value);
      keysByDay := keysByDay[d := keys.value];
      assert KeysOf(keysByDay, d) == keys.value;
      missing := CollectDay(env, RowsFor(byDay, d), keys.value, missing);
      i := i + 1;
    }
    assert days[..|days|] == days;
    r := Ok((keysByDay, missing));
  }

  lemma {:induction false} IndexStops(env: Eastern.Oracles, events: seq<StoredEvent>, online: bool, days: seq<string>, n: nat)
    requires n <= |days|
    ensures IndexSpec(env, events, online, days[..n]).Err? ==> IndexSpec(env, events, online, days) == IndexSpec(env, events, online, days[..n])
    decreases |days| - n
  {
    hide ExistingKeysSpec;
    if n < |days| {
      assert days[..n + 1][..n] == days[..n];
      IndexStops(env, events, online, days, n + 1);
    } else {
      assert days[..n] == days;
    }
  }

  /** The purge step on the table. */
  method PurgeStage(env: Eastern.Oracles, o: Options, store: EventStore) returns (r: Result<Option<nat>, string>)
    requires store.Valid()
    modifies store
    ensures store.Valid() && store.online == old(store.online)
    ensures var p := PurgeSpec(env, o, old(store.events), old(store.online));
            (r.Err? <==> p.Err?) && (r.Err? ==> r.error == p.error && store.events == old(store.events))
            && (r.Ok? ==> r.value == p.value.0 && store.events == p.value.1)
  {
    hide BackfillRange.UtcRangeForEtDay, Purged, Trim, BackfillRange.DayComponents, BackfillRange.GuessOf, BackfillRange.FromMidnight;
    if !o.purgeManual {
      return Ok(None);
    }
    if !Given(o.day) {
      return Err(PurgeNeedsDay);
    }
    var range := BackfillRange.UtcRangeForEtDay(env, Trim(o.day.value));
    if range.Err? {
      return Err(range.error);
    }
    var count := store.DeleteDayRangeWithPrefix(ManualPrefix, range.value.start, range.value.end);
    if count.Err? {
      return Err(count.error);
    }
    r := Ok(Some(count.value));
  }

  /** The index, the collection and the inserts, after the purge. */
  method ApplyStage(env: Eastern.Oracles, o: Options, g: Groups, days: seq<string>, now: int,
                    purged: Option<nat>, store: EventStore)
    returns (r: Result<Outcome, string>)
    requires store.Valid() && Ordering.Distinct(days)
    modifies store
    ensures store.Valid() && store.online == old(store.online)
    ensures var f := ApplySpec(env, o, g, days, now, purged, old(store.events), old(store.online), true);
            r == f.result && store.events == f.events
  {
    hide IndexSpec, MissingSpec, Run, PlansOf;
    var collected := IndexAndCollect(env, store, days, g.byDay);
    if collected.Err? {
      return Err(collected.error);
    }
    var keysByDay, missing := collected.value.0, collected.value.1;
    if !o.apply {
      return Ok(Outcome(purged, missing, None));
    }
    var applied := ApplyMissing(store, PlansOf(env, missing, now), keysByDay);
    if applied.Err? {
      return Err(applied.error);
    }
    r := Ok(Outcome(purged, missing, Some(applied.value)));
  }

  /** `main` of the backfill on an event table. */
  method Backfill(env: Eastern.Oracles, dir: Employees.Directory, files: Files, argv: seq<string>,
                  repoRoot: string, cwd: string, now: int, store: EventStore)
    returns (r: Result<Outcome, string>)
    requires store.Valid()
    modifies store
    ensures store.Valid() && store.online == old(store.online)
    ensures var f := BackfillSpec(env, dir, files, argv, repoRoot, cwd, now, old(store.events), old(store.online), true);
            r == f.result && store.events == f.events
  {
    hide ReadAllSpec, GroupSpec, ApplySpec, PurgeSpec, DayKeys, SelectFiles, ParseArgs;
    var o := ParseArgs(argv);
    var paths := SelectFiles(o, repoRoot, cwd);
    if paths.Err? {
      return Err(paths.error);
    }
    var rows := ReadAll(env, dir, files, paths.value);
    if rows.Err? {
      return Err(rows.error);
    }
    var g := GroupByDay(env, rows.value, o.day);
    GroupedRows(env, rows.value, o.day);
    var days := DayKeys(o, g);
    var purged := PurgeStage(env, o, store);
    if purged.Err? {
      return Err(purged.error);
    }
    r := ApplyStage(env, o, g, days, now, purged.value, store);
  }

  // ---------------------------------------------------------------- what a run promises

  /**
   * A dry run inserts nothing: every row of the table afterwards was
   * there before, and without `--purge-manual` the table is untouched.
   */
  lemma DryRunNeverWrites(env: Eastern.Oracles, dir: Employees.Directory, files: Files, argv: seq<string>,
                          repoRoot: string, cwd: string, now: int, events: seq<StoredEvent>, online: bool)
    requires !ParseArgs(argv).apply
    ensures var f := BackfillSpec(env, dir, files, argv, repoRoot, cwd, now, events, online, true);
            (forall e :: e in f.events ==> e in events)
            && (!ParseArgs(argv).purgeManual ==> f.events == events)
  {
    hide ReadAllSpec, GroupSpec, DayKeys, SelectFiles, ParseArgs, IndexSpec, MissingSpec, Purged;
  }

  /** `--purge-manual` deletes exactly the manual rows of the chosen day's range and reports how many. */
  lemma PurgeRemoves(env: Eastern.Oracles, o: Options, events: seq<StoredEvent>, online: bool)
    requires o.purgeManual && PurgeSpec(env, o, events, online).Ok?
    ensures var p := PurgeSpec(env, o, events, online).value;
            var range := BackfillRange.UtcRangeForEtDay(env, Trim(o.day.value)).value;
            Given(o.day) && online && BackfillRange.UtcRangeForEtDay(env, Trim(o.day.value)).Ok?
            && (forall e :: e in p.1 <==> e in events && !(InDayRange(e, range.start, range.end) && StartsWith(e.eventId, ManualPrefix)))
            && p.0 == Some(|events| - |p.1|)
  {
    hide BackfillRange.UtcRangeForEtDay, Trim, BackfillRange.DayComponents, BackfillRange.GuessOf, BackfillRange.FromMidnight;
  }

  /** A table that only grows keeps every key of a day's index. */
  lemma IndexGrows(env: Eastern.Oracles, events: seq<StoredEvent>, more: seq<StoredEvent>, day: string)
    requires ExistingKeysSpec(env, events, true, day).Ok?
    ensures ExistingKeysSpec(env, events + more, true, day).Ok?
    ensures ExistingKeysSpec(env, events, true, day).value <= ExistingKeysSpec(env, events + more, true, day).value
  {
    hide RecordKeys, ReadingOf, MatchRowOf, KeysOfRows;
    assert BackfillRange.UtcRangeForEtDay(env, day).Ok?;
    forall k | k in ExistingKeysSpec(env, events, true, day).value
      ensures k in ExistingKeysSpec(env, events + more, true, day).value
    {
      ExistingKeyHasSource(env, events, true, day, k);
      var e :| e in events && k in RecordKeys(env, day, ReadingOf(MatchRowOf(e.payload)))
               && InDayRange(e, BackfillRange.UtcRangeForEtDay(env, day).value.start, BackfillRange.UtcRangeForEtDay(env, day).value.end);
      StoredRecordIndexed(env, events + more, day, e, k);
    }
  }

  lemma IndexSpecGrows(env: Eastern.Oracles, events: seq<StoredEvent>, more: seq<StoredEvent>, days: seq<string>)
    requires IndexSpec(env, events, true, days).Ok?
    ensures IndexSpec(env, events + more, true, days).Ok?
    ensures KeysWithin(IndexSpec(env, events, true, days).value, IndexSpec(env, events + more, true, days).value)
  {
    hide ExistingKeysSpec, IndexSpec;
    IndexHoldsDays(env, events, true, days);
    forall d | d in days ensures ExistingKeysSpec(env, events + more, true, d).Ok? {
      IndexGrows(env, events, more, d);
    }
    IndexHoldsDays(env, events + more, true, days);
    var m1, m2 := IndexSpec(env, events, true, days).value, IndexSpec(env, events + more, true, days).value;
    forall d ensures KeysOf(m1, d) <= KeysOf(m2, d) {
      if d in days {
        IndexGrows(env, events, more, d);
      }
    }
  }

  /**
   * The re-run's choice among the first run's candidates, as a test on a
   * plan's day and strict key: whether a row with that day and key is
   * missing from the re-run's index.
   */
  ghost function KeepFor(env: Eastern.Oracles, keysByDay: map<string, set<string>>): Planned -> bool {
    (p: Planned) => exists r: XlsxRow :: RowDay(env, r) == p.day && StrictKeyOf(env, r) == p.key
                                         && IsMissing(env, KeysOf(keysByDay, p.day), r)
  }

  lemma KeepForSlot(env: Eastern.Oracles, keysByDay: map<string, set<string>>)
    ensures SlotDetermined(KeepFor(env, keysByDay))
  {
  }

  lemma KeepForRow(env: Eastern.Oracles, keysByDay: map<string, set<string>>, r: XlsxRow, now: int)
    ensures KeepFor(env, keysByDay)(PlanOf(env, BuildCandidate(r), now)) <==> IsMissing(env, KeysOf(keysByDay, RowDay(env, r)), r)
  {
    hide IsMissing, StrictKeyOf, RecordOf, BackfillRange.UtcRangeForEtDay, Eastern.EtDay, PayloadBody, EventIdOf;
    var p := PlanOf(env, BuildCandidate(r), now);
    assert p.day == RowDay(env, r) && p.key == StrictKeyOf(env, r);
    if KeepFor(env, keysByDay)(p) {
      var r' :| RowDay(env, r') == p.day && StrictKeyOf(env, r') == p.key && IsMissing(env, KeysOf(keysByDay, p.day), r');
      StrictKeyDetermines(env, r', r);
    }
  }

  /** A row missing from a larger index is missing from a smaller one. */
  lemma MissingAntitone(env: Eastern.Oracles, keys1: set<string>, keys2: set<string>, r: XlsxRow)
    requires keys1 <= keys2
    ensures IsMissing(env, keys2, r) ==> IsMissing(env, keys1, r)
  {
  }

  lemma PlansAppend(env: Eastern.Oracles, a: seq<Candidate>, b: seq<Candidate>, now: int)
    ensures PlansOf(env, a + b, now) == PlansOf(env, a, now) + PlansOf(env, b, now)
  {
    hide *;
    var left, right := PlansOf(env, a + b, now), PlansOf(env, a, now) + PlansOf(env, b, now);
    forall i | 0 <= i < |left| ensures left[i] == right[i] {
      if i < |a| {
        assert (a + b)[i] == a[i];
      } else {
        assert (a + b)[i] == b[i - |a|];
      }
    }
  }

  lemma {:induction false} FilterAppend(s: seq<Planned>, t: seq<Planned>, keep: Planned -> bool)
    ensures Filter(s + t, keep) == Filter(s, keep) + Filter(t, keep)
    decreases |t|
  {
    if t == [] {
      assert s + t == s;
    } else {
      var n := |t| - 1;
      assert (s + t)[..|s + t| - 1] == s + t[..n];
      FilterAppend(s, t[..n], keep);
    }
  }

  /**
   * One day of the re-run: with a larger index, the candidates the re-run
   * collects are those of the first run that the larger index still finds
   * missing.
   */
  lemma {:induction false} MissingOfDayShrinks(env: Eastern.Oracles, rows: seq<XlsxRow>, d: string,
                                               keys1: map<string, set<string>>, keys2: map<string, set<string>>, now: int)
    requires forall r :: r in rows ==> RowDay(env, r) == d
    requires KeysOf(keys1, d) <= KeysOf(keys2, d)
    ensures PlansOf(env, MissingOfDay(env, rows, KeysOf(keys2, d)), now)
            == Filter(PlansOf(env, MissingOfDay(env, rows, KeysOf(keys1, d)), now), KeepFor(env, keys2))
    decreases |rows|
  {
    hide IsMissing, BuildCandidate, PlanOf, RowDay, KeepFor, PlansOf, Filter;
    if rows != [] {
      var n := |rows| - 1;
      var r := rows[n];
      assert r in rows;
      MissingOfDayShrinks(env, rows[..n], d, keys1, keys2, now);
      var m1 := MissingOfDay(env, rows[..n], KeysOf(keys1, d));
      var m2 := MissingOfDay(env, rows[..n], KeysOf(keys2, d));
      var one1 := MissingRow(env, KeysOf(keys1, d), r);
      var one2 := MissingRow(env, KeysOf(keys2, d), r);
      assert MissingOfDay(env, rows, KeysOf(keys1, d)) == m1 + one1;
      assert MissingOfDay(env, rows, KeysOf(keys2, d)) == m2 + one2;
      PlansAppend(env, m2, one2, now);
      PlansAppend(env, m1, one1, now);
      FilterAppend(PlansOf(env, m1, now), PlansOf(env, one1, now), KeepFor(env, keys2));
      MissingRowShrinks(env, r, d, keys1, keys2, now);
    }
  }

  /** The candidate one row contributes to a day's missing list: none, or the row's own. */
  function MissingRow(env: Eastern.Oracles, keys: set<string>, r: XlsxRow): seq<Candidate> {
    if IsMissing(env, keys, r) then [BuildCandidate(r)] else []
  }

  /** One row of the re-run's day: its plan is kept exactly when the larger index still misses it. */
  lemma MissingRowShrinks(env: Eastern.Oracles, r: XlsxRow, d: string,
                          keys1: map<string, set<string>>, keys2: map<string, set<string>>, now: int)
    requires RowDay(env, r) == d
    requires KeysOf(keys1, d) <= KeysOf(keys2, d)
    ensures PlansOf(env, MissingRow(env, KeysOf(keys2, d), r), now)
            == Filter(PlansOf(env, MissingRow(env, KeysOf(keys1, d), r), now), KeepFor(env, keys2))
  {
    hide IsMissing, BuildCandidate, PlanOf, RowDay, KeepFor, PlansOf, Filter;
    var c := BuildCandidate(r);
    var p := PlanOf(env, c, now);
    KeepForRow(env, keys2, r, now);
    MissingAntitone(env, KeysOf(keys1, d), KeysOf(keys2, d), r);
    PlansSingle(env, c, now);
    FilterSingle(p, KeepFor(env, keys2));
    PlansEmpty(env, now);
    FilterEmpty(KeepFor(env, keys2));
  }

  lemma PlansSingle(env: Eastern.Oracles, c: Candidate, now: int)
    ensures PlansOf(env, [c], now) == [PlanOf(env, c, now)]
  {
    hide PlanOf;
  }

  lemma PlansEmpty(env: Eastern.Oracles, now: int)
    ensures PlansOf(env, [], now) == []
  {
  }

  lemma FilterSingle(p: Planned, keep: Planned -> bool)
    ensures Filter([p], keep) == if keep(p) then [p] else []
  {
    assert [p][..0] == [];
  }

  lemma FilterEmpty(keep: Planned -> bool)
    ensures Filter([], keep) == []
  {
  }

  /** All chosen days of the re-run: its candidates are the first run's that its larger index still finds missing. */
  lemma {:induction false} MissingSpecShrinks(env: Eastern.Oracles, days: seq<string>, byDay: map<string, seq<XlsxRow>>,
                                              keys1: map<string, set<string>>, keys2: map<string, set<string>>, now: int)
    requires forall d, r :: d in byDay && r in byDay[d] ==> RowDay(env, r) == d
    requires KeysWithin(keys1, keys2)
    ensures PlansOf(env, MissingSpec(env, days, byDay, keys2), now)
            == Filter(PlansOf(env, MissingSpec(env, days, byDay, keys1), now), KeepFor(env, keys2))
    decreases |days|
  {
    hide MissingOfDay, PlansOf, KeepFor, RowDay;
    if days != [] {
      var n := |days| - 1;
      var d := days[n];
      MissingSpecShrinks(env, days[..n], byDay, keys1, keys2, now);
      MissingOfDayShrinks(env, RowsFor(byDay, d), d, keys1, keys2, now);
      var a1, b1 := MissingSpec(env, days[..n], byDay, keys1), MissingOfDay(env, RowsFor(byDay, d), KeysOf(keys1, d));
      var a2, b2 := MissingSpec(env, days[..n], byDay, keys2), MissingOfDay(env, RowsFor(byDay, d), KeysOf(keys2, d));
      PlansAppend(env, a1, b1, now);
      PlansAppend(env, a2, b2, now);
      FilterAppend(PlansOf(env, a1, now), PlansOf(env, b1, now), KeepFor(env, keys2));
    }
  }

  /** Plans of the same candidates made at two instants differ only in the inserted row's timestamps. */
  lemma PlansRestamped(env: Eastern.Oracles, missing: seq<Candidate>, now1: int, now2: int)
    ensures AllRestamped(PlansOf(env, missing, now1), PlansOf(env, missing, now2))
  {
    hide Eastern.EtDay, StrictKeyOf, BackfillRange.UtcRangeForEtDay, BackfillRange.DayComponents,
         BackfillRange.GuessOf, BackfillRange.FromMidnight;
  }

  /**
   * Running the backfill in apply mode a second time, on the table the
   * first run left, inserts nothing and changes nothing, whatever the
   * clock reads: the rows the first run inserted or skipped are found again
   * by the index, or by their strict key within the run, or by their event
   * id.  This holds for the apply loop that records a strict key on a
   * duplicate id; `AsWrittenRerunDuplicates` shows the loop as written
   * does not have it.
   */
  lemma RerunInsertsNothingEndToEnd(env: Eastern.Oracles, dir: Employees.Directory, files: Files, argv: seq<string>,
                                    repoRoot: string, cwd: string, now1: int, now2: int, events: seq<StoredEvent>)
    requires ParseArgs(argv).apply && !ParseArgs(argv).purgeManual
    requires BackfillSpec(env, dir, files, argv, repoRoot, cwd, now1, events, true, false).result.Ok?
    ensures var first := BackfillSpec(env, dir, files, argv, repoRoot, cwd, now1, events, true, false);
            var second := BackfillSpec(env, dir, files, argv, repoRoot, cwd, now2, first.events, true, false);
            second.result.Ok? && second.result.value.inserted == Some(0) && second.events == first.events
  {
    hide ReadAllSpec, GroupSpec, DayKeys, SelectFiles, ParseArgs, RowsSpec, BackfillSpec, PurgeSpec, ApplySpec, GroupsWellFormed;
    var o := ParseArgs(argv);
    BackfillSpecReads(env, dir, files, argv, repoRoot, cwd, now1, events, false);
    var paths := SelectFiles(o, repoRoot, cwd).value;
    var rows := ReadAllSpec(env, dir, files, paths).value;
    GroupedRows(env, rows, o.day);
    var g := GroupSpec(env, rows, o.day);
    BackfillSpecNoPurge(env, dir, files, argv, repoRoot, cwd, now1, events, false);
    var first := ApplySpec(env, o, g, DayKeys(o, g), now1, None, events, true, false);
    assert forall d, r :: d in g.byDay && r in g.byDay[d] ==> RowDay(env, r) == d;
    ApplyRerunInsertsNothing(env, o, g, DayKeys(o, g), now1, now2, events);
    BackfillSpecNoPurge(env, dir, files, argv, repoRoot, cwd, now2, first.events, false);
  }

  /** The apply step run twice over the same groups: the second run finds every row present. */
  lemma ApplyRerunInsertsNothing(env: Eastern.Oracles, o: Options, g: Groups, days: seq<string>,
                                 now1: int, now2: int, events: seq<StoredEvent>)
    requires o.apply
    requires forall d, r :: d in g.byDay && r in g.byDay[d] ==> RowDay(env, r) == d
    requires ApplySpec(env, o, g, days, now1, None, events, true, false).result.Ok?
    ensures var first := ApplySpec(env, o, g, days, now1, None, events, true, false);
            var second := ApplySpec(env, o, g, days, now2, None, first.events, true, false);
            second.result.Ok? && second.result.value.inserted == Some(0) && second.events == first.events
  {
    hide IndexSpec, MissingSpec, PlansOf, Run, KeepFor, RowDay;
    var keys1 := IndexSpec(env, events, true, days).value;
    var missing1 := MissingSpec(env, days, g.byDay, keys1);
    var plans1 := PlansOf(env, missing1, now1);
    var t1 := Run(plans1, Tally(keys1, 0, events, None), true, false);
    assert t1.failure.None?;
    RunGrows(plans1, Tally(keys1, 0, events, None), true, false);
    var added := t1.events[|events|..];
    assert t1.events == events + added;
    IndexSpecGrows(env, events, added, days);
    var keys2 := IndexSpec(env, t1.events, true, days).value;
    MissingSpecShrinks(env, days, g.byDay, keys1, keys2, now2);
    PlansRestamped(env, missing1, now1, now2);
    KeepForSlot(env, keys2);
    RerunInsertsNothing(plans1, keys1, events, PlansOf(env, missing1, now2), KeepFor(env, keys2), keys2, t1.events);
  }

  /** A run that succeeds has found its files and read them. */
  lemma BackfillSpecReads(env: Eastern.Oracles, dir: Employees.Directory, files: Files, argv: seq<string>,
                          repoRoot: string, cwd: string, now: int, events: seq<StoredEvent>, asWritten: bool)
    requires BackfillSpec(env, dir, files, argv, repoRoot, cwd, now, events, true, asWritten).result.Ok?
    ensures SelectFiles(ParseArgs(argv), repoRoot, cwd).Ok?
    ensures ReadAllSpec(env, dir, files, SelectFiles(ParseArgs(argv), repoRoot, cwd).value).Ok?
  {
    hide ReadAllSpec, GroupSpec, DayKeys, SelectFiles, ParseArgs, ApplySpec, PurgeSpec;
  }

  /** Without a purge, a run whose files are read is the apply step on the untouched table. */
  lemma BackfillSpecNoPurge(env: Eastern.Oracles, dir: Employees.Directory, files: Files, argv: seq<string>,
                            repoRoot: string, cwd: string, now: int, events: seq<StoredEvent>, asWritten: bool)
    requires !ParseArgs(argv).purgeManual
    requires SelectFiles(ParseArgs(argv), repoRoot, cwd).Ok?
    requires ReadAllSpec(env, dir, files, SelectFiles(ParseArgs(argv), repoRoot, cwd).value).Ok?
    ensures var o := ParseArgs(argv);
            var rows := ReadAllSpec(env, dir, files, SelectFiles(o, repoRoot, cwd).value).value;
            var g := GroupSpec(env, rows, o.day);
            GroupsWellFormed(g)
            && BackfillSpec(env, dir, files, argv, repoRoot, cwd, now, events, true, asWritten)
               == ApplySpec(env, o, g, DayKeys(o, g), now, None, events, true, asWritten)
  {
    hide ReadAllSpec, GroupSpec, DayKeys, SelectFiles, ParseArgs, ApplySpec, GroupsWellFormed;
    var o := ParseArgs(argv);
    GroupedRows(env, ReadAllSpec(env, dir, files, SelectFiles(o, repoRoot, cwd).value).value, o.day);
  }
}
