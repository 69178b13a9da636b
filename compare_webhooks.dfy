/**
 * `compareWebhooks.ts`: reads the rows of one provider, Isabel Guerrero,
 * from `compare.xlsx`, looks their transaction ids up in the stored
 * webhook payloads, and reports the transactions with no stored event
 * ("missing", grouped per transaction id) and those whose events all name
 * another provider ("mismatched").  The sheet loader is shared with
 * `listSheetRange.ts`.
 */
module CompareWebhooks {
  import opened Wrappers
  import opened Text
  import opened Js
  import opened Sheet
  import Eastern
  import Employees
  import BackfillRead
  import BackfillExisting
  import Store
  import Ordering
  import ImportCompare

  /** The error thrown when the script loads and the directory lacks the target. */
  const MissingTargetMessage := "Unable to locate provider ID for Isabel Guerrero in provider directory"

  /** One sheet row of the target's. */
  datatype SheetTransaction = SheetTransaction(
    rowNumber: nat,
    transactionId: string,
    providerName: string,
    itemSold: string,
    amount: real,
    tip: real,
    checkoutDate: Option<int>)

  // ---- Loading the sheet -----------------------------------------------------

  /** The row callback: the early returns, then the row as pushed. */
  function ReadRow(env: Eastern.Oracles, row: Row, rowNumber: nat): Option<SheetTransaction> {
    if rowNumber <= 1 then None
    else
      var providerName := CellToString(CellAt(row, 9));
      var itemSold := CellToString(CellAt(row, 6));
      var transactionId := CellToString(CellAt(row, 3));
      if providerName == "" || transactionId == "" || itemSold == "" then None
      else if Lower(Trim(itemSold)) == "total" then None
      else if !ImportCompare.IsTarget(providerName) then None
      else
        Some(SheetTransaction(
          rowNumber := rowNumber,
          transactionId := transactionId,
          providerName := providerName,
          itemSold := itemSold,
          amount := CellToNumber(CellAt(row, 12)),
          tip := CellToNumber(CellAt(row, 14)),
          checkoutDate := ParseLocalDate(env, CellAt(row, 1))))
  }

  /** What every loaded row satisfies. */
  predicate Kept(t: SheetTransaction) {
    t.rowNumber > 1 && t.providerName != "" && t.transactionId != "" && t.itemSold != ""
    && Lower(Trim(t.itemSold)) != "total" && ImportCompare.IsTarget(t.providerName)
  }

  /**
   * A row is pushed exactly when it is below the header, names a provider,
   * a transaction and an item, the item is not the totals line and the
   * provider is the target; it is pushed with its own cells.
   */
  lemma ReadRowMeaning(env: Eastern.Oracles, row: Row, rowNumber: nat)
    ensures var o := ReadRow(env, row, rowNumber);
            var providerName := CellToString(CellAt(row, 9));
            var itemSold := CellToString(CellAt(row, 6));
            var transactionId := CellToString(CellAt(row, 3));
            (o.Some? <==> rowNumber > 1 && providerName != "" && transactionId != "" && itemSold != ""
                          && Lower(Trim(itemSold)) != "total" && ImportCompare.IsTarget(providerName))
            && (o.Some? ==> Kept(o.value) && o.value.rowNumber == rowNumber
                            && o.value.transactionId == transactionId && o.value.itemSold == itemSold
                            && o.value.amount == CellToNumber(CellAt(row, 12))
                            && o.value.tip == CellToNumber(CellAt(row, 14))
                            && o.value.checkoutDate == ParseLocalDate(env, CellAt(row, 1)))
  {
    hide CellToString, CellToNumber, ParseLocalDate, Lower, Trim, CellAt, ImportCompare.IsTarget;
  }

  /** `eachRow` from row `n` on: the rows pushed, in row order. */
  function Rows(env: Eastern.Oracles, grid: Grid, n: nat): seq<SheetTransaction>
    decreases |grid| + 1 - n
  {
    hide ReadRow;
    if n > |grid| then []
    else
      match ReadRow(env, RowAt(grid, n), n)
      case Some(t) => [t] + Rows(env, grid, n + 1)
      case None => Rows(env, grid, n + 1)
  }

  /** Kept rows from row `n` on, in increasing row order. */
  predicate OrderedFrom(ts: seq<SheetTransaction>, n: nat) {
    (forall j :: 0 <= j < |ts| ==> Kept(ts[j]) && ts[j].rowNumber >= n)
    && (forall a, b :: 0 <= a < b < |ts| ==> ts[a].rowNumber < ts[b].rowNumber)
  }

  lemma OrderedNone(n: nat)
    ensures OrderedFrom([], n)
  {
  }

  lemma OrderedCons(t: SheetTransaction, rest: seq<SheetTransaction>, n: nat)
    requires Kept(t) && t.rowNumber == n && OrderedFrom(rest, n + 1)
    ensures OrderedFrom([t] + rest, n)
  {
    hide Kept;
    var s := [t] + rest;
    assert forall j :: 1 <= j < |s| ==> s[j] == rest[j - 1];
  }

  lemma OrderedLater(ts: seq<SheetTransaction>, n: nat)
    requires OrderedFrom(ts, n + 1)
    ensures OrderedFrom(ts, n)
  {
    hide Kept;
  }

  /** The loaded rows all pass the row tests and keep the sheet's order. */
  lemma {:induction false} RowsOrdered(env: Eastern.Oracles, grid: Grid, n: nat)
    ensures OrderedFrom(Rows(env, grid, n), n)
    decreases |grid| + 1 - n
  {
    hide ReadRow, OrderedFrom, Kept;
    if n <= |grid| {
      var o := ReadRow(env, RowAt(grid, n), n);
      RowsOrdered(env, grid, n + 1);
      if o.Some? {
        ReadRowMeaning(env, RowAt(grid, n), n);
        OrderedCons(o.value, Rows(env, grid, n + 1), n);
      } else {
        OrderedLater(Rows(env, grid, n + 1), n);
      }
    } else {
      OrderedNone(n);
    }
  }

  /** Every row the callback pushes is among the loaded rows. */
  lemma {:induction false} RowsComplete(env: Eastern.Oracles, grid: Grid, n: nat, k: nat)
    requires n <= k <= |grid| && ReadRow(env, RowAt(grid, k), k).Some?
    ensures ReadRow(env, RowAt(grid, k), k).value in Rows(env, grid, n)
    decreases k - n
  {
    hide ReadRow;
    if k > n {
      RowsComplete(env, grid, n + 1, k);
    }
  }

  /** `loadSheetTransactions`: the rows of the first sheet, or the error that stops the script. */
  function LoadSpec(env: Eastern.Oracles, files: BackfillRead.Files): Result<seq<SheetTransaction>, string> {
    match files(ImportCompare.ComparePath)
    case None => Err("cannot read " + ImportCompare.ComparePath)
    case Some(sheets) =>
      if sheets == [] then Err("compare.xlsx is empty")
      else Ok(Rows(env, sheets[0], 1))
  }

  /** `loadSheetTransactions`, reading the workbook and running the row loop. */
  method LoadSheetTransactions(env: Eastern.Oracles, files: BackfillRead.Files)
    returns (r: Result<seq<SheetTransaction>, string>)
    ensures r == LoadSpec(env, files)
  {
    var sheets := files(ImportCompare.ComparePath);
    if sheets.None? {
      return Err("cannot read " + ImportCompare.ComparePath);
    }
    if sheets.value == [] {
      return Err("compare.xlsx is empty");
    }
    var rows := ReadRows(env, sheets.value[0]);
    r := Ok(rows);
  }

  /** The `eachRow` loop: the callback on every row in turn. */
  method ReadRows(env: Eastern.Oracles, grid: Grid) returns (transactions: seq<SheetTransaction>)
    ensures transactions == Rows(env, grid, 1)
  {
    hide ReadRow, RowAt;
    transactions := [];
    var rowNumber: nat := 1;
    while rowNumber <= |grid|
      invariant 1 <= rowNumber <= |grid| + 1
      invariant transactions + Rows(env, grid, rowNumber) == Rows(env, grid, 1)
      decreases |grid| + 1 - rowNumber
    {
      var outcome := ReadRow(env, RowAt(grid, rowNumber), rowNumber);
      if outcome.Some? {
        assert (transactions + [outcome.value]) + Rows(env, grid, rowNumber + 1)
            == transactions + ([outcome.value] + Rows(env, grid, rowNumber + 1));
        transactions := transactions + [outcome.value];
      }
      rowNumber := rowNumber + 1;
    }
    assert transactions + [] == transactions;
  }

  // ---- Distinct ids and the stored matches -----------------------------------

  /** `sheetTransactions.map(tx => tx.transactionId)`. */
  function Ids(ts: seq<SheetTransaction>): (r: seq<string>)
    ensures |r| == |ts|
    ensures forall j :: 0 <= j < |ts| ==> r[j] == ts[j].transactionId
  {
    seq(|ts|, j requires 0 <= j < |ts| => ts[j].transactionId)
  }

  /** `Array.from(new Set(ids))`: each id once, in the order of first appearance. */
  function UniqueIds(ids: seq<string>): (r: seq<string>)
    ensures forall x :: x in r <==> x in ids
    ensures Ordering.Distinct(r)
  {
    if ids == [] then []
    else
      var n := |ids| - 1;
      var front := UniqueIds(ids[..n]);
      assert ids == ids[..n] + [ids[n]];
      if ids[n] in front then front else front + [ids[n]]
  }

  /** Ids that are already distinct come out unchanged. */
  lemma {:induction false} UniqueIdsOfDistinct(ids: seq<string>)
    requires Ordering.Distinct(ids)
    ensures UniqueIds(ids) == ids
  {
    if ids != [] {
      var n := |ids| - 1;
      UniqueIdsOfDistinct(ids[..n]);
      assert ids[n] !in ids[..n];
      assert ids == ids[..n] + [ids[n]];
    }
  }

  /** One row of the raw query: the event id and the nested transaction and provider ids, as text. */
  datatype DbMatch = DbMatch(eventId: string, transactionId: Option<string>, providerId: Option<string>)

  /** The selected columns of one stored event. */
  function MatchOf(e: Store.StoredEvent): DbMatch {
    var nested := Get(e.payload, "payload");
    DbMatch(e.eventId, BackfillExisting.TextField(nested, "transactionId"),
            BackfillExisting.TextField(nested, "serviceProviderId"))
  }

  /** The `WHERE … IN (…)` test: a nested transaction id that is one of `ids` (SQL NULL is never in the list). */
  predicate Selected(e: Store.StoredEvent, ids: seq<string>) {
    MatchOf(e).transactionId.Some? && MatchOf(e).transactionId.value in ids
  }

  /** The raw query's rows, in table order. */
  function MatchesOf(events: seq<Store.StoredEvent>, ids: seq<string>): (r: seq<DbMatch>)
    ensures |r| <= |events|
    ensures forall j :: 0 <= j < |r| ==> r[j].transactionId.Some? && r[j].transactionId.value in ids
  {
    hide MatchOf;
    if events == [] then []
    else
      var n := |events| - 1;
      var front := MatchesOf(events[..n], ids);
      if Selected(events[n], ids) then front + [MatchOf(events[n])] else front
  }

  /** Exactly the selected events appear, each as its own columns. */
  lemma {:induction false} MatchesOfMembers(events: seq<Store.StoredEvent>, ids: seq<string>, x: DbMatch)
    ensures x in MatchesOf(events, ids) <==> exists i :: 0 <= i < |events| && Selected(events[i], ids) && MatchOf(events[i]) == x
  {
    hide MatchOf, Selected;
    if events != [] {
      var n := |events| - 1;
      MatchesOfMembers(events[..n], ids, x);
      assert forall i :: 0 <= i < n ==> events[..n][i] == events[i];
    }
  }

  /** `fetchWebhookMatches`: no query at all for an empty id list. */
  method FetchWebhookMatches(store: Store.EventStore, ids: seq<string>) returns (r: Result<seq<DbMatch>, string>)
    ensures ids == [] ==> r == Ok([])
    ensures ids != [] ==> r == if store.online then Ok(MatchesOf(store.events, ids)) else Err(Store.DatabaseError)
  {
    if ids == [] {
      return Ok([]);
    }
    if !store.online {
      return Err(Store.DatabaseError);
    }
    r := Ok(MatchesOf(store.events, ids));
  }

  // ---- matchMap --------------------------------------------------------------

  /** `match.transaction_id || ""`. */
  function KeyOf(m: DbMatch): string {
    if m.transactionId.Some? then m.transactionId.value else ""
  }

  /** The matches whose key is `k`, in their order. */
  function MatchesFor(ms: seq<DbMatch>, k: string): (r: seq<DbMatch>)
    ensures |r| <= |ms|
    ensures forall j :: 0 <= j < |r| ==> r[j] in ms && KeyOf(r[j]) == k
    ensures r == [] <==> forall j :: 0 <= j < |ms| ==> KeyOf(ms[j]) != k
  {
    if ms == [] then []
    else
      var n := |ms| - 1;
      var front := MatchesFor(ms[..n], k);
      assert ms == ms[..n] + [ms[n]];
      if KeyOf(ms[n]) == k then front + [ms[n]] else front
  }

  /** The group of `k` holds exactly the matches whose key is `k`. */
  lemma {:induction false} MatchesForMembers(ms: seq<DbMatch>, k: string, x: DbMatch)
    ensures x in MatchesFor(ms, k) <==> x in ms && KeyOf(x) == k
  {
    if ms != [] {
      var n := |ms| - 1;
      MatchesForMembers(ms[..n], k, x);
      assert ms == ms[..n] + [ms[n]];
    }
  }

  /** The list kept under `k`: matches with an empty key are skipped. */
  function GroupOf(ms: seq<DbMatch>, k: string): seq<DbMatch> {
    if k == "" then [] else MatchesFor(ms, k)
  }

  /** `matchMap.get(k) ?? []`. */
  function Lookup(g: map<string, seq<DbMatch>>, k: string): seq<DbMatch> {
    if k in g then g[k] else []
  }

  /** `g` holds exactly the non-empty groups of `ms`. */
  ghost predicate GroupedBy(g: map<string, seq<DbMatch>>, ms: seq<DbMatch>) {
    (forall k :: k in g <==> GroupOf(ms, k) != [])
    && (forall k :: k in g ==> g[k] == GroupOf(ms, k))
  }

  /** Looking a key up in the grouped map gives its group, whatever the key. */
  lemma LookupGroup(g: map<string, seq<DbMatch>>, ms: seq<DbMatch>, k: string)
    requires GroupedBy(g, ms)
    ensures Lookup(g, k) == GroupOf(ms, k)
  {
  }

  /** The group of `k` after one more match. */
  lemma GroupOfStep(ms: seq<DbMatch>, m: DbMatch, k: string)
    ensures GroupOf(ms + [m], k) == if k != "" && KeyOf(m) == k then GroupOf(ms, k) + [m] else GroupOf(ms, k)
  {
    if k != "" {
      assert (ms + [m])[..|ms|] == ms;
    }
  }

  /** `matchMap` after one more match: appended to the list of its key, unless the key is empty. */
  function AddMatch(g: map<string, seq<DbMatch>>, m: DbMatch): map<string, seq<DbMatch>> {
    if KeyOf(m) == "" then g else g[KeyOf(m) := Lookup(g, KeyOf(m)) + [m]]
  }

  /** Adding a match keeps the entry of one key in step with its group. */
  lemma GroupedByStepAt(g: map<string, seq<DbMatch>>, ms: seq<DbMatch>, m: DbMatch, k: string)
    requires (k in g <==> GroupOf(ms, k) != []) && (k in g ==> g[k] == GroupOf(ms, k))
    ensures k in AddMatch(g, m) <==> GroupOf(ms + [m], k) != []
    ensures k in AddMatch(g, m) ==> AddMatch(g, m)[k] == GroupOf(ms + [m], k)
  {
    hide MatchesFor;
    GroupOfStep(ms, m, k);
  }

  /** Adding a match to the grouping of `ms` gives the grouping of `ms + [m]`. */
  lemma GroupedByStep(g: map<string, seq<DbMatch>>, ms: seq<DbMatch>, m: DbMatch)
    requires GroupedBy(g, ms)
    ensures GroupedBy(AddMatch(g, m), ms + [m])
  {
    hide MatchesFor, GroupOf, AddMatch;
    forall k ensures (k in AddMatch(g, m) <==> GroupOf(ms + [m], k) != [])
                     && (k in AddMatch(g, m) ==> AddMatch(g, m)[k] == GroupOf(ms + [m], k)) {
      GroupedByStepAt(g, ms, m, k);
    }
  }

  lemma GroupedByNone()
    ensures GroupedBy(map[], [])
  {
  }

  /** The `matchMap` loop: each match appended to the list of its non-empty key. */
  method GroupMatches(ms: seq<DbMatch>) returns (g: map<string, seq<DbMatch>>)
    ensures GroupedBy(g, ms)
  {
    hide GroupedBy, MatchesFor;
    g := map[];
    GroupedByNone();
    var i := 0;
    while i < |ms|
      invariant 0 <= i <= |ms|
      invariant GroupedBy(g, ms[..i])
    {
      var m := ms[i];
      assert ms[..i + 1] == ms[..i] + [m];
      GroupedByStep(g, ms[..i], m);
      ghost var before := g;
      var key := KeyOf(m);
      if key != "" {
        var list := Lookup(g, key);
        g := g[key := list + [m]];
      }
      assert g == AddMatch(before, m);
      i := i + 1;
    }
    assert ms[..i] == ms;
  }

  // ---- missing and mismatched ------------------------------------------------

  /** `(m.provider_id || "")`. */
  function ProviderOf(m: DbMatch): string {
    if m.providerId.Some? then m.providerId.value else ""
  }

  /** `matches.some(m => (m.provider_id || "") === targetId)`. */
  predicate HasTarget(ms: seq<DbMatch>, targetId: string) {
    exists j :: 0 <= j < |ms| && ProviderOf(ms[j]) == targetId
  }

  /** `matches.map(m => m.provider_id)`. */
  function Providers(ms: seq<DbMatch>): (r: seq<Option<string>>)
    ensures |r| == |ms|
    ensures forall j :: 0 <= j < |ms| ==> r[j] == ms[j].providerId
  {
    seq(|ms|, j requires 0 <= j < |ms| => ms[j].providerId)
  }

  /** A transaction present in the events but never under the target. */
  datatype Mismatch = Mismatch(transaction: SheetTransaction, providers: seq<Option<string>>)

  /** The transactions with no match, in sheet order. */
  function MissingOf(txs: seq<SheetTransaction>, ms: seq<DbMatch>): seq<SheetTransaction> {
    if txs == [] then []
    else
      var n := |txs| - 1;
      var front := MissingOf(txs[..n], ms);
      if GroupOf(ms, txs[n].transactionId) == [] then front + [txs[n]] else front
  }

  /** The transactions with matches, none of them the target's, in sheet order. */
  function MismatchedOf(txs: seq<SheetTransaction>, ms: seq<DbMatch>, targetId: string): seq<Mismatch> {
    if txs == [] then []
    else
      var n := |txs| - 1;
      var front := MismatchedOf(txs[..n], ms, targetId);
      var group := GroupOf(ms, txs[n].transactionId);
      if group != [] && !HasTarget(group, targetId) then front + [Mismatch(txs[n], Providers(group))] else front
  }

  /** A sheet transaction is missing exactly when no match carries its id. */
  lemma {:induction false} MissingOfMembers(txs: seq<SheetTransaction>, ms: seq<DbMatch>, t: SheetTransaction)
    ensures t in MissingOf(txs, ms) <==> t in txs && GroupOf(ms, t.transactionId) == []
  {
    hide GroupOf;
    if txs != [] {
      var n := |txs| - 1;
      MissingOfMembers(txs[..n], ms, t);
      assert txs == txs[..n] + [txs[n]];
    }
  }

  /**
   * A transaction is reported as mismatched exactly when it has matches and
   * none of them names the target, and it is reported with its matches' providers.
   */
  lemma {:induction false} MismatchedOfMembers(txs: seq<SheetTransaction>, ms: seq<DbMatch>, targetId: string, x: Mismatch)
    ensures x in MismatchedOf(txs, ms, targetId) <==>
              x.transaction in txs && GroupOf(ms, x.transaction.transactionId) != []
              && !HasTarget(GroupOf(ms, x.transaction.transactionId), targetId)
              && x.providers == Providers(GroupOf(ms, x.transaction.transactionId))
  {
    hide GroupOf, HasTarget, Providers;
    if txs != [] {
      var n := |txs| - 1;
      MismatchedOfMembers(txs[..n], ms, targetId, x);
      assert txs == txs[..n] + [txs[n]];
    }
  }

  /** No transaction is both missing and mismatched. */
  lemma MissingAndMismatchedDisjoint(txs: seq<SheetTransaction>, ms: seq<DbMatch>, targetId: string, x: Mismatch)
    requires x in MismatchedOf(txs, ms, targetId)
    ensures x.transaction !in MissingOf(txs, ms)
  {
    MismatchedOfMembers(txs, ms, targetId, x);
    MissingOfMembers(txs, ms, x.transaction);
  }

  /** The classification loop over the sheet transactions. */
  method Classify(txs: seq<SheetTransaction>, g: map<string, seq<DbMatch>>, ghost ms: seq<DbMatch>, targetId: string)
    returns (missing: seq<SheetTransaction>, mismatched: seq<Mismatch>)
    requires GroupedBy(g, ms)
    ensures missing == MissingOf(txs, ms)
    ensures mismatched == MismatchedOf(txs, ms, targetId)
  {
    hide GroupedBy, GroupOf, HasTarget, Providers;
    missing := [];
    mismatched := [];
    var i := 0;
    while i < |txs|
      invariant 0 <= i <= |txs|
      invariant missing == MissingOf(txs[..i], ms)
      invariant mismatched == MismatchedOf(txs[..i], ms, targetId)
    {
      var tx := txs[i];
      assert txs[..i + 1][..i] == txs[..i];
      assert txs[..i + 1][i] == tx;
      var matches := Lookup(g, tx.transactionId);
      LookupGroup(g, ms, tx.transactionId);
      if matches == [] {
        missing := missing + [tx];
      } else if !HasTarget(matches, targetId) {
        mismatched := mismatched + [Mismatch(tx, Providers(matches))];
      }
      i := i + 1;
    }
    assert txs[..i] == txs;
  }

  /**
   * For a queried id, the matches grouped under it are the columns of the
   * stored events whose nested transaction id is that id.
   */
  lemma GroupMembersAreEvents(events: seq<Store.StoredEvent>, ids: seq<string>, k: string, x: DbMatch)
    requires k != "" && k in ids
    ensures x in GroupOf(MatchesOf(events, ids), k) <==>
              exists i :: 0 <= i < |events| && MatchOf(events[i]) == x && x.transactionId == Some(k)
  {
    hide MatchOf, MatchesOf;
    MatchesForMembers(MatchesOf(events, ids), k, x);
    MatchesOfMembers(events, ids, x);
  }

  /** A queried id has no group exactly when no stored event carries it. */
  lemma GroupEmptyIffNoEvent(events: seq<Store.StoredEvent>, ids: seq<string>, k: string)
    requires k != "" && k in ids
    ensures GroupOf(MatchesOf(events, ids), k) == [] <==>
              forall i :: 0 <= i < |events| ==> MatchOf(events[i]).transactionId != Some(k)
  {
    hide MatchOf, MatchesOf, GroupOf;
    var g := GroupOf(MatchesOf(events, ids), k);
    if g != [] {
      GroupMembersAreEvents(events, ids, k, g[0]);
    }
    if i :| 0 <= i < |events| && MatchOf(events[i]).transactionId == Some(k) {
      GroupMembersAreEvents(events, ids, k, MatchOf(events[i]));
    }
  }

  /** A queried id's group names the target exactly when some stored event with that id does. */
  lemma GroupHasTargetIffEvent(events: seq<Store.StoredEvent>, ids: seq<string>, k: string, targetId: string)
    requires k != "" && k in ids
    ensures HasTarget(GroupOf(MatchesOf(events, ids), k), targetId) <==>
              exists i :: 0 <= i < |events| && MatchOf(events[i]).transactionId == Some(k)
                          && ProviderOf(MatchOf(events[i])) == targetId
  {
    hide MatchOf, MatchesOf, GroupOf;
    var g := GroupOf(MatchesOf(events, ids), k);
    if j :| 0 <= j < |g| && ProviderOf(g[j]) == targetId {
      GroupMembersAreEvents(events, ids, k, g[j]);
    }
    if i :| 0 <= i < |events| && MatchOf(events[i]).transactionId == Some(k) && ProviderOf(MatchOf(events[i])) == targetId {
      GroupMembersAreEvents(events, ids, k, MatchOf(events[i]));
      var j :| 0 <= j < |g| && g[j] == MatchOf(events[i]);
    }
  }

  // ---- groupedMissing --------------------------------------------------------

  /** The entry kept per missing transaction id. */
  datatype Bucket = Bucket(rows: seq<nat>, services: seq<string>, total: real, tips: real)

  const EmptyBucket := Bucket([], [], 0.0, 0.0)

  /** The bucket of `k`: rows and services pushed and amount and tip added, in input order. */
  function BucketFor(txs: seq<SheetTransaction>, k: string): (b: Bucket)
    ensures |b.rows| == |b.services|
  {
    if txs == [] then EmptyBucket
    else
      var n := |txs| - 1;
      var b := BucketFor(txs[..n], k);
      var t := txs[n];
      if t.transactionId == k then Bucket(b.rows + [t.rowNumber], b.services + [t.itemSold], b.total + t.amount, b.tips + t.tip)
      else b
  }

  /** An id that no transaction carries has the empty bucket. */
  lemma {:induction false} BucketForAbsent(txs: seq<SheetTransaction>, k: string)
    requires k !in Ids(txs)
    ensures BucketFor(txs, k) == EmptyBucket
  {
    if txs != [] {
      var n := |txs| - 1;
      assert Ids(txs[..n]) == Ids(txs)[..n];
      BucketForAbsent(txs[..n], k);
    }
  }

  /** `groupedMissing`, as a map. */
  function Buckets(missing: seq<SheetTransaction>): map<string, Bucket> {
    map k | k in UniqueIds(Ids(missing)) :: BucketFor(missing, k)
  }

  /** `buckets` and its insertion order `order` after the transactions `txs`. */
  ghost predicate BucketedBy(buckets: map<string, Bucket>, order: seq<string>, txs: seq<SheetTransaction>) {
    order == UniqueIds(Ids(txs))
    && (forall k :: k in buckets <==> k in order)
    && (forall k :: k in buckets ==> buckets[k] == BucketFor(txs, k))
  }

  lemma BucketedByNone()
    ensures BucketedBy(map[], [], [])
  {
  }

  /** The map described by `BucketedBy` is `Buckets`. */
  lemma BucketedByIsBuckets(buckets: map<string, Bucket>, order: seq<string>, txs: seq<SheetTransaction>)
    requires BucketedBy(buckets, order, txs)
    ensures buckets == Buckets(txs) && order == UniqueIds(Ids(txs))
  {
    hide BucketFor, UniqueIds, Ids;
  }

  /** One more transaction: its bucket gains its row, service, amount and tip; a new id joins the order. */
  lemma BucketedByStep(buckets: map<string, Bucket>, order: seq<string>, missing: seq<SheetTransaction>, i: nat)
    requires i < |missing| && BucketedBy(buckets, order, missing[..i])
    ensures var t := missing[i];
            var b := if t.transactionId in buckets then buckets[t.transactionId] else EmptyBucket;
            var order' := if t.transactionId in buckets then order else order + [t.transactionId];
            BucketedBy(buckets[t.transactionId := Bucket(b.rows + [t.rowNumber], b.services + [t.itemSold],
                                                         b.total + t.amount, b.tips + t.tip)],
                       order', missing[..i + 1])
  {
    hide BucketFor, UniqueIds, Ids;
    GroupMissingStep(missing, i);
    if missing[i].transactionId !in buckets {
      BucketForAbsent(missing[..i], missing[i].transactionId);
    }
  }

  /** The `groupedMissing` loop; `order` is the map's insertion order, in which it is printed. */
  method GroupMissing(missing: seq<SheetTransaction>) returns (buckets: map<string, Bucket>, order: seq<string>)
    ensures buckets == Buckets(missing)
    ensures order == UniqueIds(Ids(missing))
  {
    hide BucketedBy, Buckets, BucketFor, UniqueIds, Ids;
    buckets := map[];
    order := [];
    var i := 0;
    BucketedByNone();
    assert missing[..0] == [];
    while i < |missing|
      invariant 0 <= i <= |missing|
      invariant BucketedBy(buckets, order, missing[..i])
    {
      var tx := missing[i];
      BucketedByStep(buckets, order, missing, i);
      var bucket := if tx.transactionId in buckets then buckets[tx.transactionId] else EmptyBucket;
      if tx.transactionId !in buckets {
        order := order + [tx.transactionId];
      }
      bucket := Bucket(bucket.rows + [tx.rowNumber], bucket.services + [tx.itemSold],
                       bucket.total + tx.amount, bucket.tips + tx.tip);
      buckets := buckets[tx.transactionId := bucket];
      i := i + 1;
    }
    assert missing[..i] == missing;
    BucketedByIsBuckets(buckets, order, missing);
  }

  /** What one more transaction does to the ids and the buckets. */
  lemma GroupMissingStep(missing: seq<SheetTransaction>, i: nat)
    requires i < |missing|
    ensures var t := missing[i];
            UniqueIds(Ids(missing[..i + 1])) ==
              (if t.transactionId in UniqueIds(Ids(missing[..i])) then UniqueIds(Ids(missing[..i]))
               else UniqueIds(Ids(missing[..i])) + [t.transactionId])
    ensures var t := missing[i];
            forall k :: BucketFor(missing[..i + 1], k) ==
              if k == t.transactionId then
                var b := BucketFor(missing[..i], k);
                Bucket(b.rows + [t.rowNumber], b.services + [t.itemSold], b.total + t.amount, b.tips + t.tip)
              else BucketFor(missing[..i], k)
  {
    hide BucketFor;
    var p := missing[..i + 1];
    assert p[..i] == missing[..i];
    assert Ids(p)[..i] == Ids(missing[..i]);
    forall k ensures BucketFor(p, k) == (if k == missing[i].transactionId then
                var b := BucketFor(missing[..i], k);
                Bucket(b.rows + [missing[i].rowNumber], b.services + [missing[i].itemSold], b.total + missing[i].amount, b.tips + missing[i].tip)
              else BucketFor(missing[..i], k)) {
      BucketForStep(p, k);
    }
  }

  lemma BucketForStep(txs: seq<SheetTransaction>, k: string)
    requires txs != []
    ensures var n := |txs| - 1;
            var b := BucketFor(txs[..n], k);
            var t := txs[n];
            BucketFor(txs, k) ==
              if t.transactionId == k then Bucket(b.rows + [t.rowNumber], b.services + [t.itemSold], b.total + t.amount, b.tips + t.tip)
              else b
  {
  }

  /** Row count, gross and tip, added up. */
  datatype Tally = Tally(rows: nat, total: real, tips: real)

  function Plus(a: Tally, b: Tally): Tally {
    Tally(a.rows + b.rows, a.total + b.total, a.tips + b.tips)
  }

  function TallyOfBucket(b: Bucket): Tally {
    Tally(|b.rows|, b.total, b.tips)
  }

  /** The tally of all the transactions, one row each. */
  function TallyOf(txs: seq<SheetTransaction>): Tally {
    if txs == [] then Tally(0, 0.0, 0.0)
    else
      var n := |txs| - 1;
      Plus(TallyOf(txs[..n]), Tally(1, txs[n].amount, txs[n].tip))
  }

  /** The tallies of the buckets of `keys`, added up. */
  function TallyOfBuckets(buckets: map<string, Bucket>, keys: seq<string>): Tally
    requires forall k :: k in keys ==> k in buckets
  {
    if keys == [] then Tally(0, 0.0, 0.0)
    else
      var n := |keys| - 1;
      Plus(TallyOfBuckets(buckets, keys[..n]), TallyOfBucket(buckets[keys[n]]))
  }

  /** `TallyOfBuckets` over the buckets of `txs`, without the map. */
  function TallyOfKeys(txs: seq<SheetTransaction>, keys: seq<string>): Tally {
    if keys == [] then Tally(0, 0.0, 0.0)
    else
      var n := |keys| - 1;
      Plus(TallyOfKeys(txs, keys[..n]), TallyOfBucket(BucketFor(txs, keys[n])))
  }

  lemma {:induction false} TallyOfBucketsIsKeys(txs: seq<SheetTransaction>, keys: seq<string>)
    requires forall k :: k in keys ==> k in UniqueIds(Ids(txs))
    ensures forall k :: k in keys ==> k in Buckets(txs)
    ensures TallyOfBuckets(Buckets(txs), keys) == TallyOfKeys(txs, keys)
  {
    hide BucketFor, UniqueIds, Ids;
    if keys != [] {
      var n := |keys| - 1;
      assert forall k :: k in keys[..n] ==> k in keys;
      TallyOfBucketsIsKeys(txs, keys[..n]);
    }
  }

  /** One more transaction adds its own tally to the bucket sum of distinct keys, if its id is among them. */
  lemma {:induction false} TallyOfKeysStep(txs: seq<SheetTransaction>, keys: seq<string>)
    requires txs != [] && Ordering.Distinct(keys)
    ensures var n := |txs| - 1;
            var t := txs[n];
            TallyOfKeys(txs, keys) ==
              if t.transactionId in keys then Plus(TallyOfKeys(txs[..n], keys), Tally(1, t.amount, t.tip))
              else TallyOfKeys(txs[..n], keys)
  {
    hide BucketFor;
    if keys != [] {
      var m := |keys| - 1;
      assert Ordering.Distinct(keys[..m]);
      TallyOfKeysStep(txs, keys[..m]);
      BucketForStep(txs, keys[m]);
      assert keys == keys[..m] + [keys[m]];
      assert keys[m] !in keys[..m];
    }
  }

  /**
   * The printed groups account for every missing row once: their row
   * counts, gross amounts and tips add up to those of the missing rows.
   */
  lemma {:induction false} GroupedMissingAddsUp(missing: seq<SheetTransaction>)
    ensures forall k :: k in UniqueIds(Ids(missing)) ==> k in Buckets(missing)
    ensures TallyOfBuckets(Buckets(missing), UniqueIds(Ids(missing))) == TallyOf(missing)
  {
    TallyOfBucketsIsKeys(missing, UniqueIds(Ids(missing)));
    KeysAddUp(missing);
  }

  lemma {:induction false} KeysAddUp(txs: seq<SheetTransaction>)
    ensures TallyOfKeys(txs, UniqueIds(Ids(txs))) == TallyOf(txs)
  {
    hide BucketFor, UniqueIds, Ids, TallyOfKeys;
    if txs != [] {
      var n := |txs| - 1;
      var t := txs[n];
      var front := UniqueIds(Ids(txs[..n]));
      KeysAddUp(txs[..n]);
      GroupMissingStep(txs, n);
      assert txs[..n + 1] == txs;
      TallyOfKeysStep(txs, front);
      assert TallyOf(txs) == Plus(TallyOf(txs[..n]), Tally(1, t.amount, t.tip));
      if t.transactionId !in front {
        assert UniqueIds(Ids(txs)) == front + [t.transactionId];
        KeysAppend(txs, front, t.transactionId);
        BucketForStep(txs, t.transactionId);
        BucketForAbsent(txs[..n], t.transactionId);
        assert TallyOfBucket(BucketFor(txs, t.transactionId)) == Tally(1, t.amount, t.tip);
        assert TallyOfKeys(txs, front) == TallyOf(txs[..n]);
      } else {
        assert UniqueIds(Ids(txs)) == front;
      }
    } else {
      EmptyBuckets();
      TallyOfNoKeys(txs);
    }
  }

  lemma TallyOfNoKeys(txs: seq<SheetTransaction>)
    ensures TallyOfKeys(txs, []) == Tally(0, 0.0, 0.0)
  {
  }

  lemma KeysAppend(txs: seq<SheetTransaction>, keys: seq<string>, k: string)
    ensures TallyOfKeys(txs, keys + [k]) == Plus(TallyOfKeys(txs, keys), TallyOfBucket(BucketFor(txs, k)))
  {
    hide BucketFor;
    assert (keys + [k])[..|keys|] == keys;
  }

  // ---- The whole report ------------------------------------------------------

  /** What the script establishes before printing. */
  datatype Report = Report(
    sheetRows: nat,
    distinctIds: nat,
    matchesFound: nat,
    missing: seq<SheetTransaction>,
    groups: map<string, Bucket>,
    groupOrder: seq<string>,
    mismatched: seq<Mismatch>)

  /** The report for a table, or the error that ends the script. */
  function ReportSpec(env: Eastern.Oracles, dir: Employees.Directory, files: BackfillRead.Files,
                      events: seq<Store.StoredEvent>, online: bool): Result<Report, string> {
    match ImportCompare.TargetProviderId(dir)
    case None => Err(MissingTargetMessage)
    case Some(targetId) =>
      match LoadSpec(env, files)
      case Err(e) => Err(e)
      case Ok(txs) =>
        var ids := UniqueIds(Ids(txs));
        if ids != [] && !online then Err(Store.DatabaseError)
        else
          var ms := if ids == [] then [] else MatchesOf(events, ids);
          var missing := MissingOf(txs, ms);
          Ok(Report(|txs|, |ids|, |ms|, missing, Buckets(missing), UniqueIds(Ids(missing)),
                    MismatchedOf(txs, ms, targetId)))
  }

  /** `main` (with the load-time lookup of the target's id), up to the printing. */
  method Compare(env: Eastern.Oracles, dir: Employees.Directory, files: BackfillRead.Files, store: Store.EventStore)
    returns (r: Result<Report, string>)
    ensures r == ReportSpec(env, dir, files, store.events, store.online)
  {
    hide LoadSpec, UniqueIds, Ids, MatchesOf, MissingOf, MismatchedOf, Buckets;
    var targetId := ImportCompare.TargetProviderId(dir);
    if targetId.None? {
      return Err(MissingTargetMessage);
    }
    var loaded := LoadSheetTransactions(env, files);
    if loaded.Err? {
      return Err(loaded.error);
    }
    var txs := loaded.value;
    var ids := UniqueIds(Ids(txs));
    var fetched := FetchWebhookMatches(store, ids);
    if fetched.Err? {
      return Err(fetched.error);
    }
    var ms := fetched.value;
    var g := GroupMatches(ms);
    var missing, mismatched := Classify(txs, g, ms, targetId.value);
    var buckets: map<string, Bucket> := map[];
    var order: seq<string> := [];
    if missing != [] {
      buckets, order := GroupMissing(missing);
    } else {
      EmptyBuckets();
    }
    r := Ok(Report(|txs|, |ids|, |ms|, missing, buckets, order, mismatched));
  }

  /** Every loaded row passed the row tests. */
  lemma LoadedKept(env: Eastern.Oracles, files: BackfillRead.Files)
    requires LoadSpec(env, files).Ok?
    ensures forall t :: t in LoadSpec(env, files).value ==> Kept(t)
  {
    hide Rows, Kept;
    var grid := files(ImportCompare.ComparePath).value[0];
    RowsOrdered(env, grid, 1);
  }

  /** A loaded row's id is among the queried ids, and it is not empty. */
  lemma LoadedIdQueried(txs: seq<SheetTransaction>, t: SheetTransaction)
    requires t in txs && Kept(t)
    ensures t.transactionId != "" && t.transactionId in UniqueIds(Ids(txs))
  {
    var j :| 0 <= j < |txs| && txs[j] == t;
    assert Ids(txs)[j] == t.transactionId;
  }

  /**
   * The report's missing rows are exactly the loaded rows whose transaction
   * id no stored event carries in its nested payload.
   */
  lemma ReportMissingIff(env: Eastern.Oracles, dir: Employees.Directory, files: BackfillRead.Files,
                         events: seq<Store.StoredEvent>, online: bool, t: SheetTransaction)
    requires ReportSpec(env, dir, files, events, online).Ok?
    ensures t in ReportSpec(env, dir, files, events, online).value.missing <==>
              t in LoadSpec(env, files).value
              && forall i :: 0 <= i < |events| ==> MatchOf(events[i]).transactionId != Some(t.transactionId)
  {
    hide LoadSpec, MatchesOf, MissingOf, MismatchedOf, Buckets, UniqueIds, Ids, Kept, MatchOf, GroupOf;
    var txs := LoadSpec(env, files).value;
    var ids := UniqueIds(Ids(txs));
    LoadedKept(env, files);
    var ms := if ids == [] then [] else MatchesOf(events, ids);
    MissingOfMembers(txs, ms, t);
    if t in txs {
      LoadedIdQueried(txs, t);
      GroupEmptyIffNoEvent(events, ids, t.transactionId);
    }
  }

  /** Some entry of `mm` reports `t`. */
  predicate ReportsMismatch(mm: seq<Mismatch>, t: SheetTransaction) {
    exists j :: 0 <= j < |mm| && mm[j].transaction == t
  }

  /**
   * The report names a row as mismatched exactly when it is a loaded row,
   * some stored event carries its transaction id, and none of those events
   * names the target provider.
   */
  lemma ReportMismatchedIff(env: Eastern.Oracles, dir: Employees.Directory, files: BackfillRead.Files,
                            events: seq<Store.StoredEvent>, online: bool, t: SheetTransaction)
    requires ReportSpec(env, dir, files, events, online).Ok?
    ensures ReportsMismatch(ReportSpec(env, dir, files, events, online).value.mismatched, t) <==>
              t in LoadSpec(env, files).value
              && (exists i :: 0 <= i < |events| && MatchOf(events[i]).transactionId == Some(t.transactionId))
              && !(exists i :: 0 <= i < |events| && MatchOf(events[i]).transactionId == Some(t.transactionId)
                                && ProviderOf(MatchOf(events[i])) == ImportCompare.TargetProviderId(dir).value)
  {
    hide LoadSpec, MatchesOf, MissingOf, MismatchedOf, Buckets, UniqueIds, Ids, Kept, MatchOf, GroupOf, HasTarget, Providers;
    var targetId := ImportCompare.TargetProviderId(dir).value;
    var txs := LoadSpec(env, files).value;
    var ids := UniqueIds(Ids(txs));
    LoadedKept(env, files);
    var ms := if ids == [] then [] else MatchesOf(events, ids);
    var mm := MismatchedOf(txs, ms, targetId);
    assert mm == ReportSpec(env, dir, files, events, online).value.mismatched;
    if j :| 0 <= j < |mm| && mm[j].transaction == t {
      MismatchedOfMembers(txs, ms, targetId, mm[j]);
    }
    if t in txs {
      LoadedIdQueried(txs, t);
      GroupEmptyIffNoEvent(events, ids, t.transactionId);
      GroupHasTargetIffEvent(events, ids, t.transactionId, targetId);
      var x := Mismatch(t, Providers(GroupOf(ms, t.transactionId)));
      MismatchedOfMembers(txs, ms, targetId, x);
      if x in mm {
        var j :| 0 <= j < |mm| && mm[j] == x;
      }
    }
  }

  lemma EmptyBuckets()
    ensures Buckets([]) == map[] && UniqueIds(Ids([])) == []
  {
  }
}
