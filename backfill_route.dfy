/**
 * `POST /backfill` (src/routes/backfill.ts): fills in `cash_collected`
 * and `day` for every stored event that has no `cash_collected` yet,
 * behind a shared token.
 */
module BackfillRoute {
  import opened Wrappers
  import opened Js
  import Calendar
  import Store
  import VagaroRoute

  function FiniteOr0(n: Number): real {
    if n.Finite? then n.value else 0.0
  }

  /**
   * Cash tendered minus amount due, read from the payload's top level, else
   * from its nested `payload`, else 0, each through `Number` with a
   * non-finite result taken as 0.
   */
  function CashOf(e: Store.StoredEvent): real {
    var p := if Truthy(e.payload) then e.payload else Obj(map[]);
    var inner := if Truthy(Get(p, "payload")) then Get(p, "payload") else Obj(map[]);
    var cash := ToNumber(Coalesce(Coalesce(Get(p, "cashAmount"), Get(inner, "cashAmount")), Num(Finite(0.0))));
    var due := ToNumber(Coalesce(Coalesce(Get(p, "amountDue"), Get(inner, "amountDue")), Num(Finite(0.0))));
    FiniteOr0(cash) - FiniteOr0(due)
  }

  /** On plain numeric amounts this agrees with what the ingest route stores. */
  lemma CashAgreesWithIngest(e: Store.StoredEvent, cash: real, due: real)
    requires Get(e.payload, "cashAmount") == Num(Finite(cash)) && Get(e.payload, "amountDue") == Num(Finite(due))
    ensures CashOf(e) == VagaroRoute.DeriveCashCollected(e.payload) == cash - due
  {
    VagaroRoute.CashPrefersTopLevel(e.payload, cash, due);
  }

  /** On a boolean amount the two disagree: `Number(true)` is 1 here, while the ingest route reads 0. */
  lemma CashDisagreesOnBooleans(e: Store.StoredEvent)
    requires e.payload == Obj(map["cashAmount" := Bool(true)])
    ensures CashOf(e) == 1.0 && VagaroRoute.DeriveCashCollected(e.payload) == 0.0
  {
    VagaroRoute.PickOne(e.payload, "cashAmount");
    VagaroRoute.PickOne(e.payload, "amountDue");
    VagaroRoute.PickOne(e.payload, "payload");
    VagaroRoute.PickUndefined(["cashAmount"]);
    VagaroRoute.PickUndefined(["amountDue"]);
  }

  /** `createdDate ?? receivedAt ?? new Date()`. */
  function SourceDate(e: Store.StoredEvent, now: int): int {
    if e.createdDate.Some? then e.createdDate.value else if e.receivedAt.Some? then e.receivedAt.value else now
  }

  /** UTC midnight of the source date; None when `Date.UTC` gives an invalid date, which the update rejects. */
  function DayFor(e: Store.StoredEvent, now: int): Option<int> {
    Calendar.UtcMidnight(SourceDate(e, now))
  }

  function Filled(e: Store.StoredEvent, now: int): Store.StoredEvent {
    e.(cashCollected := Some(CashOf(e)), day := DayFor(e, now))
  }

  predicate ValidIndices(events: seq<Store.StoredEvent>, ids: seq<nat>) {
    (forall j :: 0 <= j < |ids| ==> ids[j] < |events|)
    && (forall a, b :: 0 <= a < b < |ids| ==> ids[a] < ids[b])
  }

  /** The first position from `from` on where `ok` is false, or |ok| when there is none. */
  function FirstFalse(ok: seq<bool>, from: nat): (r: nat)
    requires from <= |ok|
    ensures from <= r <= |ok|
    ensures forall j :: from <= j < r ==> ok[j]
    ensures r < |ok| ==> !ok[r]
    decreases |ok| - from
  {
    if from == |ok| || !ok[from] then from else FirstFalse(ok, from + 1)
  }

  /** Which of the rows at `ids` have a computable day. */
  function Fillable(events: seq<Store.StoredEvent>, ids: seq<nat>, now: int): (r: seq<bool>)
    requires forall j :: 0 <= j < |ids| ==> ids[j] < |events|
    ensures |r| == |ids|
    ensures forall j :: 0 <= j < |ids| ==> r[j] == DayFor(events[ids[j]], now).Some?
  {
    seq(|ids|, j requires 0 <= j < |ids| => DayFor(events[ids[j]], now).Some?)
  }

  /** The table after the first `k` of `ids` have been updated. */
  function PatchedUpTo(events: seq<Store.StoredEvent>, ids: seq<nat>, k: nat, now: int): (r: seq<Store.StoredEvent>)
    requires k <= |ids|
    ensures |r| == |events|
    ensures forall n :: 0 <= n < |events| ==> r[n] == if n in ids[..k] then Filled(events[n], now) else events[n]
  {
    seq(|events|, n requires 0 <= n < |events| => if n in ids[..k] then Filled(events[n], now) else events[n])
  }

  /** The row at `ids[k]` is not yet updated after the first `k`. */
  lemma PatchedUntouched(events: seq<Store.StoredEvent>, ids: seq<nat>, k: nat, now: int)
    requires ValidIndices(events, ids) && k < |ids|
    ensures PatchedUpTo(events, ids, k, now)[ids[k]] == events[ids[k]]
  {
    assert ids[k] !in ids[..k];
  }

  /** Updating the row at `ids[k]` extends the patch by one. */
  lemma PatchStep(events: seq<Store.StoredEvent>, ids: seq<nat>, k: nat, now: int)
    requires ValidIndices(events, ids) && k < |ids|
    ensures PatchedUpTo(events, ids, k + 1, now) == PatchedUpTo(events, ids, k, now)[ids[k] := Filled(events[ids[k]], now)]
  {
    hide DayFor, CashOf;
    assert forall n :: 0 <= n < |events| ==> (n in ids[..k + 1] <==> n in ids[..k] || n == ids[k]);
  }

  datatype Outcome = Outcome(events: seq<Store.StoredEvent>, reply: Reply)

  const Failed := Reply(500, Obj(map["ok" := Bool(false), "error" := Str("backfill_failed")]))

  function UpdatedReply(updated: nat): Reply {
    Reply(200, Obj(map["ok" := Bool(true), "updated" := Num(Finite(updated as real))]))
  }

  /**
   * What the route does to the table and answers.  Rows are updated in the
   * order the query returns them; the first whose day is invalid stops the
   * run with 500, leaving the earlier updates in place.
   */
  function BackfillSpec(events: seq<Store.StoredEvent>, online: bool, token: string, dashToken: string, now: int): Outcome {
    if dashToken == "" || token != dashToken then
      Outcome(events, Reply(403, Obj(map["ok" := Bool(false), "error" := Str("unauthorized")])))
    else if !online then Outcome(events, Failed)
    else
      var ids := Store.NullCashIndices(events);
      var k := FirstFalse(Fillable(events, ids, now), 0);
      Outcome(PatchedUpTo(events, ids, k, now), if k < |ids| then Failed else UpdatedReply(|ids|))
  }

  /** The route handler: `token` is the `x-auth-token` header ("" when absent), `dashToken` is `DASH_TOKEN` ("" when unset). */
  method Backfill(store: Store.EventStore, token: string, dashToken: string, now: int) returns (reply: Reply)
    requires store.Valid()
    modifies store
    ensures store.Valid() && store.online == old(store.online)
    ensures reply == BackfillSpec(old(store.events), old(store.online), token, dashToken, now).reply
    ensures store.events == BackfillSpec(old(store.events), old(store.online), token, dashToken, now).events
  {
    hide DayFor, CashOf, PatchedUpTo, Fillable, FirstFalse, Store.NullCashIndices;
    if dashToken == "" || token != dashToken {
      return Reply(403, Obj(map["ok" := Bool(false), "error" := Str("unauthorized")]));
    }
    var rows := store.FindNullCash();
    if rows.Err? {
      return Failed;
    }
    var ids := rows.value;
    var updated := FillRows(store, ids, now);
    if updated < |ids| {
      return Failed;
    }
    reply := UpdatedReply(updated);
  }

  /** The update loop: rows in the order of `ids`, until the first whose day cannot be computed. */
  method FillRows(store: Store.EventStore, ids: seq<nat>, now: int) returns (updated: nat)
    requires store.Valid() && store.online && ValidIndices(store.events, ids)
    modifies store
    ensures store.Valid() && store.online
    ensures updated == FirstFalse(Fillable(old(store.events), ids, now), 0)
    ensures store.events == PatchedUpTo(old(store.events), ids, updated, now)
  {
    hide DayFor, CashOf, PatchedUpTo, Fillable, Store.UniqueEventIds;
    ghost var original := store.events;
    updated := 0;
    while updated < |ids|
      invariant store.Valid() && store.online && |store.events| == |original|
      invariant updated <= FirstFalse(Fillable(original, ids, now), 0)
      invariant store.events == PatchedUpTo(original, ids, updated, now)
    {
      var i := ids[updated];
      PatchedUntouched(original, ids, updated, now);
      var e := store.events[i];
      var day := DayFor(e, now);
      if day.None? {
        return;
      }
      var ok := store.UpdateCashAndDay(i, CashOf(e), day.value);
      PatchStep(original, ids, updated, now);
      updated := updated + 1;
    }
  }

  /** 403 exactly when no token is configured or the header differs, and then nothing changes. */
  lemma ForbiddenIff(events: seq<Store.StoredEvent>, online: bool, token: string, dashToken: string, now: int)
    ensures BackfillSpec(events, online, token, dashToken, now).reply.status == 403 <==> dashToken == "" || token != dashToken
    ensures BackfillSpec(events, online, token, dashToken, now).reply.status == 403 ==>
              BackfillSpec(events, online, token, dashToken, now).events == events
  {
  }

  /** A completed run leaves no row without `cash_collected`, and `updated` counts the rows it filled. */
  lemma CompletedRunFillsAll(events: seq<Store.StoredEvent>, online: bool, token: string, now: int)
    requires BackfillSpec(events, online, token, token, now).reply.status == 200
    ensures var after := BackfillSpec(events, online, token, token, now).events;
            |after| == |events|
            && (forall n :: 0 <= n < |after| ==> after[n].cashCollected.Some?)
            && BackfillSpec(events, online, token, token, now).reply == UpdatedReply(|Store.NullCashIndices(events)|)
  {
    var ids := Store.NullCashIndices(events);
    assert ids[..|ids|] == ids;
  }

  /** Rows that already had `cash_collected` are never touched. */
  lemma FilledRowsUntouched(events: seq<Store.StoredEvent>, online: bool, token: string, dashToken: string, now: int, n: nat)
    requires n < |events| && events[n].cashCollected.Some?
    ensures var after := BackfillSpec(events, online, token, dashToken, now).events;
            |after| == |events| && after[n] == events[n]
  {
    assert n !in Store.NullCashIndices(events);
  }

  /** Running the route again after a completed run updates nothing. */
  lemma SecondRunUpdatesNothing(events: seq<Store.StoredEvent>, online: bool, token: string, now1: int, now2: int)
    requires BackfillSpec(events, online, token, token, now1).reply.status == 200
    ensures var after := BackfillSpec(events, online, token, token, now1).events;
            BackfillSpec(after, online, token, token, now2) == Outcome(after, UpdatedReply(0))
  {
    var after := BackfillSpec(events, online, token, token, now1).events;
    CompletedRunFillsAll(events, online, token, now1);
    Store.NullCashIndicesEmpty(after);
    var ids := Store.NullCashIndices(after);
    var patched := PatchedUpTo(after, ids, 0, now2);
    assert patched == after;
  }

  /** When every row to fill has a valid date outside the years 0..99, the run completes. */
  lemma ValidDatesComplete(events: seq<Store.StoredEvent>, token: string, now: int)
    requires forall n :: 0 <= n < |events| && events[n].cashCollected.None? ==>
               -Calendar.MaxTime <= SourceDate(events[n], now) <= Calendar.MaxTime
               && !(0 <= Calendar.UtcDate(SourceDate(events[n], now)).year <= 99)
    ensures BackfillSpec(events, true, token, token, now).reply.status != 500
  {
    var ids := Store.NullCashIndices(events);
    var k := FirstFalse(Fillable(events, ids, now), 0);
    if k < |ids| {
      Calendar.UtcMidnightTruncates(SourceDate(events[ids[k]], now));
    }
  }
}
