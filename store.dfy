/**
 * The `WebhookEvent` table as the scripts and routes use it: one stored
 * event per row, `eventId` unique.  The table is a class whose `events`
 * the writing operations reassign; `online` says whether the database
 * answers at all (when it does not, every call fails).
 */
module Store {
  import opened Wrappers
  import opened Text
  import opened Js
  import Ordering

  /** One row of `WebhookEvent` (the raw body text is not kept). */
  datatype StoredEvent = StoredEvent(
    eventId: string,
    entityType: string,
    action: string,
    businessIds: seq<string>,
    createdDate: Option<int>,
    receivedAt: Option<int>,
    payload: Value,
    headers: Value,
    sourceIp: string,
    userAgent: string,
    cashCollected: Option<real>,
    day: Option<int>)

  /** What `create` does: inserts, or raises the unique-constraint error `P2002`, or fails outright. */
  datatype CreateOutcome = Created | DuplicateEventId | Unavailable

  const DatabaseError := "database unavailable"

  predicate HasEventId(events: seq<StoredEvent>, eventId: string) {
    exists i :: 0 <= i < |events| && events[i].eventId == eventId
  }

  predicate UniqueEventIds(events: seq<StoredEvent>) {
    forall i, j :: 0 <= i < j < |events| ==> events[i].eventId != events[j].eventId
  }

  /** `day >= start AND day < end`: rows without a day never match. */
  predicate InDayRange(e: StoredEvent, start: int, end: int) {
    e.day.Some? && start <= e.day.value < end
  }

  /** The outcome `create` has on a table holding `events`. */
  function CreateOutcomeFor(events: seq<StoredEvent>, online: bool, e: StoredEvent): (r: CreateOutcome)
    ensures r.Created? <==> online && !HasEventId(events, e.eventId)
    ensures r.DuplicateEventId? <==> online && HasEventId(events, e.eventId)
  {
    if !online then Unavailable
    else if HasEventId(events, e.eventId) then DuplicateEventId
    else Created
  }

  /** Appending an event with a new id keeps the ids unique. */
  lemma AppendUnique(events: seq<StoredEvent>, e: StoredEvent)
    requires UniqueEventIds(events) && !HasEventId(events, e.eventId)
    ensures UniqueEventIds(events + [e])
  {
    var s := events + [e];
    forall i, j | 0 <= i < j < |s| ensures s[i].eventId != s[j].eventId {
      if j == |events| {
        assert s[i] == events[i];
      } else {
        assert s[i] == events[i] && s[j] == events[j];
      }
    }
  }

  /** The rows of the table whose `day` lies in `[start, end)`, in table order. */
  function DayRange(events: seq<StoredEvent>, start: int, end: int): (r: seq<StoredEvent>)
    ensures |r| <= |events|
    ensures forall e :: e in r <==> e in events && InDayRange(e, start, end)
  {
    if events == [] then []
    else
      var rest := DayRange(events[1..], start, end);
      assert forall e :: e in events <==> e == events[0] || e in events[1..];
      if InDayRange(events[0], start, end) then [events[0]] + rest else rest
  }

  /** `createdDate >= start AND createdDate < end`. */
  predicate CreatedIn(e: StoredEvent, start: int, end: int) {
    e.createdDate.Some? && start <= e.createdDate.value < end
  }

  /** The rows created in `[start, end)`, in table order. */
  function CreatedRange(events: seq<StoredEvent>, start: int, end: int): (r: seq<StoredEvent>)
    ensures forall e :: e in r <==> e in events && CreatedIn(e, start, end)
    ensures forall i :: 0 <= i < |r| ==> CreatedIn(r[i], start, end)
  {
    if events == [] then []
    else
      var rest := CreatedRange(events[1..], start, end);
      assert forall e :: e in events <==> e == events[0] || e in events[1..];
      if CreatedIn(events[0], start, end) then [events[0]] + rest else rest
  }

  /** The sort key of `orderBy: { createdDate: "asc" }` (rows without a date are never in a created range). */
  function CreatedKey(e: StoredEvent): int {
    if e.createdDate.Some? then e.createdDate.value else 0
  }

  /** The rows a `deleteMany` on `[start, end)` and an `eventId` prefix leaves. */
  function Purged(events: seq<StoredEvent>, prefix: string, start: int, end: int): (r: seq<StoredEvent>)
    ensures |r| <= |events|
    ensures forall e :: e in r <==> e in events && !(InDayRange(e, start, end) && StartsWith(e.eventId, prefix))
  {
    if events == [] then []
    else
      var rest := Purged(events[1..], prefix, start, end);
      assert forall e :: e in events <==> e == events[0] || e in events[1..];
      if InDayRange(events[0], start, end) && StartsWith(events[0].eventId, prefix) then rest
      else [events[0]] + rest
  }

  /** Deleting rows keeps the ids unique. */
  lemma {:induction false} PurgedUnique(events: seq<StoredEvent>, prefix: string, start: int, end: int)
    requires UniqueEventIds(events)
    ensures UniqueEventIds(Purged(events, prefix, start, end))
  {
    if events != [] {
      var tail := events[1..];
      assert UniqueEventIds(tail) by {
        forall i, j | 0 <= i < j < |tail| ensures tail[i].eventId != tail[j].eventId {
          assert tail[i] == events[i + 1] && tail[j] == events[j + 1];
        }
      }
      PurgedUnique(tail, prefix, start, end);
      var rest := Purged(tail, prefix, start, end);
      if !(InDayRange(events[0], start, end) && StartsWith(events[0].eventId, prefix)) {
        var s := [events[0]] + rest;
        forall i, j | 0 <= i < j < |s| ensures s[i].eventId != s[j].eventId {
          if i == 0 {
            assert s[j] in rest;
            var k :| 1 <= k < |events| && events[k] == s[j];
          } else {
            assert s[i] == rest[i - 1] && s[j] == rest[j - 1];
          }
        }
      }
    }
  }

  /** Deleting distributes over the two halves of a table. */
  lemma {:induction false} PurgedAppend(a: seq<StoredEvent>, b: seq<StoredEvent>, prefix: string, start: int, end: int)
    ensures Purged(a + b, prefix, start, end) == Purged(a, prefix, start, end) + Purged(b, prefix, start, end)
    decreases |a|
  {
    if a == [] {
      assert a + b == b;
    } else {
      assert (a + b)[0] == a[0] && (a + b)[1..] == a[1..] + b;
      PurgedAppend(a[1..], b, prefix, start, end);
    }
  }

  /** A table with no row to delete is left as it is. */
  lemma {:induction false} PurgedNothing(events: seq<StoredEvent>, prefix: string, start: int, end: int)
    requires forall i :: 0 <= i < |events| ==> !(InDayRange(events[i], start, end) && StartsWith(events[i].eventId, prefix))
    ensures Purged(events, prefix, start, end) == events
    decreases |events|
  {
    if events != [] {
      PurgedNothing(events[1..], prefix, start, end);
    }
  }

  /** Deleting twice deletes nothing more. */
  lemma PurgedTwice(events: seq<StoredEvent>, prefix: string, start: int, end: int)
    ensures Purged(Purged(events, prefix, start, end), prefix, start, end) == Purged(events, prefix, start, end)
  {
    var once := Purged(events, prefix, start, end);
    assert forall i :: 0 <= i < |once| ==> once[i] in once;
    PurgedNothing(once, prefix, start, end);
  }

  /**
   * The rows of `batch` that `createMany({ skipDuplicates: true })` adds:
   * each row whose `eventId` is neither stored nor taken by an earlier row
   * of the batch, in batch order.
   */
  function NewRows(events: seq<StoredEvent>, batch: seq<StoredEvent>): (r: seq<StoredEvent>)
    ensures |r| <= |batch|
    ensures forall e :: e in r ==> e in batch
    decreases |batch|
  {
    if batch == [] then []
    else if HasEventId(events, batch[0].eventId) then NewRows(events, batch[1..])
    else [batch[0]] + NewRows(events + [batch[0]], batch[1..])
  }

  /** After the insert every id of the batch is in the table, and the ids stay unique. */
  lemma {:induction false} NewRowsInserted(events: seq<StoredEvent>, batch: seq<StoredEvent>)
    requires UniqueEventIds(events)
    ensures UniqueEventIds(events + NewRows(events, batch))
    ensures forall i :: 0 <= i < |batch| ==> HasEventId(events + NewRows(events, batch), batch[i].eventId)
    decreases |batch|
  {
    if batch != [] {
      var b := batch[0];
      var after := events + NewRows(events, batch);
      if HasEventId(events, b.eventId) {
        NewRowsInserted(events, batch[1..]);
        var k :| 0 <= k < |events| && events[k].eventId == b.eventId;
        assert after[k] == events[k];
      } else {
        AppendUnique(events, b);
        NewRowsInserted(events + [b], batch[1..]);
        assert after == (events + [b]) + NewRows(events + [b], batch[1..]);
        assert after[|events|] == b;
      }
      forall i | 1 <= i < |batch| ensures HasEventId(after, batch[i].eventId) {
        assert batch[i] == batch[1..][i - 1];
      }
    }
  }

  /** A batch whose ids are all stored adds nothing. */
  lemma {:induction false} NewRowsNone(events: seq<StoredEvent>, batch: seq<StoredEvent>)
    requires forall i :: 0 <= i < |batch| ==> HasEventId(events, batch[i].eventId)
    ensures NewRows(events, batch) == []
    decreases |batch|
  {
    if batch != [] {
      NewRowsNone(events, batch[1..]);
    }
  }

  /** A batch of distinct new ids is added whole. */
  lemma {:induction false} NewRowsAll(events: seq<StoredEvent>, batch: seq<StoredEvent>)
    requires UniqueEventIds(batch)
    requires forall i :: 0 <= i < |batch| ==> !HasEventId(events, batch[i].eventId)
    ensures NewRows(events, batch) == batch
    decreases |batch|
  {
    if batch != [] {
      var b := batch[0];
      var rest := batch[1..];
      forall i | 0 <= i < |rest| ensures !HasEventId(events + [b], rest[i].eventId) {
        assert rest[i] == batch[i + 1];
        forall k | 0 <= k < |events + [b]| ensures (events + [b])[k].eventId != rest[i].eventId {
          if k < |events| {
            assert (events + [b])[k] == events[k];
          }
        }
      }
      assert UniqueEventIds(rest) by {
        forall i, j | 0 <= i < j < |rest| ensures rest[i].eventId != rest[j].eventId {
          assert rest[i] == batch[i + 1] && rest[j] == batch[j + 1];
        }
      }
      NewRowsAll(events + [b], rest);
    }
  }

  /** The row a `findUnique` on `eventId` returns. */
  function FindEventId(events: seq<StoredEvent>, eventId: string): (r: Option<StoredEvent>)
    ensures r.Some? <==> HasEventId(events, eventId)
    ensures r.Some? ==> r.value in events && r.value.eventId == eventId
  {
    if events == [] then None
    else if events[0].eventId == eventId then Some(events[0])
    else
      var r := FindEventId(events[1..], eventId);
      assert HasEventId(events, eventId) ==> events[0].eventId == eventId || HasEventId(events[1..], eventId) by {
        if HasEventId(events, eventId) {
          var i :| 0 <= i < |events| && events[i].eventId == eventId;
          if i > 0 { assert events[1..][i - 1] == events[i]; }
        }
      }
      r
  }

  /** Positions of the rows whose `cash_collected` is null, in table order. */
  function NullCashIndices(events: seq<StoredEvent>): (r: seq<nat>)
    ensures forall j :: 0 <= j < |r| ==> r[j] < |events| && events[r[j]].cashCollected.None?
    ensures forall i :: 0 <= i < |events| && events[i].cashCollected.None? ==> i in r
    ensures forall a, b :: 0 <= a < b < |r| ==> r[a] < r[b]
  {
    if events == [] then []
    else
      var n := |events| - 1;
      var front := NullCashIndices(events[..n]);
      assert forall i :: 0 <= i < n ==> events[..n][i] == events[i];
      if events[n].cashCollected.None? then front + [n] else front
  }

  /** With every `cash_collected` set, the query finds nothing. */
  lemma {:induction false} NullCashIndicesEmpty(events: seq<StoredEvent>)
    requires forall n :: 0 <= n < |events| ==> events[n].cashCollected.Some?
    ensures NullCashIndices(events) == []
  {
    if events != [] {
      var n := |events| - 1;
      NullCashIndicesEmpty(events[..n]);
    }
  }

  class EventStore {
    var events: seq<StoredEvent>
    var online: bool

    ghost predicate Valid()
      reads this
    {
      UniqueEventIds(events)
    }

    constructor (initial: seq<StoredEvent>, online: bool)
      requires UniqueEventIds(initial)
      ensures Valid() && this.events == initial && this.online == online
    {
      this.events := initial;
      this.online := online;
    }

    /** `webhookEvent.create`: the row is added unless its `eventId` is taken. */
    method Create(e: StoredEvent) returns (outcome: CreateOutcome)
      requires Valid()
      modifies this
      ensures Valid() && online == old(online)
      ensures outcome == CreateOutcomeFor(old(events), old(online), e)
      ensures events == if outcome.Created? then old(events) + [e] else old(events)
    {
      outcome := CreateOutcomeFor(events, online, e);
      if outcome.Created? {
        AppendUnique(events, e);
        events := events + [e];
      }
    }

    /** `findUnique({ where: { eventId } })`. */
    method FindUnique(eventId: string) returns (r: Result<Option<StoredEvent>, string>)
      ensures r == if online then Ok(FindEventId(events, eventId)) else Err(DatabaseError)
    {
      if !online {
        return Err(DatabaseError);
      }
      r := Ok(FindEventId(events, eventId));
    }

    /** A `findMany`/raw query over `day >= start AND day < end`. */
    method QueryDayRange(start: int, end: int) returns (r: Result<seq<StoredEvent>, string>)
      ensures r == if online then Ok(DayRange(events, start, end)) else Err(DatabaseError)
    {
      if !online {
        return Err(DatabaseError);
      }
      r := Ok(DayRange(events, start, end));
    }

    /** `findMany({ where: { cash_collected: null } })`, as positions in the table. */
    method FindNullCash() returns (r: Result<seq<nat>, string>)
      ensures r == if online then Ok(NullCashIndices(events)) else Err(DatabaseError)
    {
      if !online {
        return Err(DatabaseError);
      }
      r := Ok(NullCashIndices(events));
    }

    /** `findMany` of the rows created in `[start, end)`, ordered by creation time. */
    method QueryCreatedRange(start: int, end: int) returns (r: Result<seq<StoredEvent>, string>)
      ensures r == if online then Ok(Ordering.SortBy(CreatedRange(events, start, end), CreatedKey)) else Err(DatabaseError)
    {
      if !online {
        return Err(DatabaseError);
      }
      r := Ok(Ordering.SortBy(CreatedRange(events, start, end), CreatedKey));
    }

    /** `deleteMany` of the rows in `[start, end)` whose `eventId` starts with `prefix`. */
    method DeleteDayRangeWithPrefix(prefix: string, start: int, end: int) returns (r: Result<nat, string>)
      requires Valid()
      modifies this
      ensures Valid() && online == old(online)
      ensures r.Ok? <==> old(online)
      ensures r.Err? ==> r.error == DatabaseError
      ensures events == if old(online) then Purged(old(events), prefix, start, end) else old(events)
      ensures r.Ok? ==> r.value == |old(events)| - |events|
    {
      if !online {
        return Err(DatabaseError);
      }
      PurgedUnique(events, prefix, start, end);
      var before := |events|;
      events := Purged(events, prefix, start, end);
      r := Ok(before - |events|);
    }

    /** `createMany({ data: batch, skipDuplicates: true })`: the count is the number of rows added. */
    method CreateManySkipDuplicates(batch: seq<StoredEvent>) returns (r: Result<nat, string>)
      requires Valid()
      modifies this
      ensures Valid() && online == old(online)
      ensures r.Ok? <==> old(online)
      ensures r.Err? ==> r.error == DatabaseError
      ensures events == if old(online) then old(events) + NewRows(old(events), batch) else old(events)
      ensures r.Ok? ==> r.value == |NewRows(old(events), batch)|
    {
      if !online {
        return Err(DatabaseError);
      }
      var added := NewRows(events, batch);
      NewRowsInserted(events, batch);
      events := events + added;
      r := Ok(|added|);
    }

    /** `update({ where: { id }, data: { cash_collected, day } })`. */
    method UpdateCashAndDay(i: nat, cash: real, day: int) returns (ok: bool)
      requires Valid() && i < |events|
      modifies this
      ensures Valid() && online == old(online) && ok == old(online)
      ensures events == if ok then old(events)[i := old(events)[i].(cashCollected := Some(cash), day := Some(day))]
                        else old(events)
    {
      ok := online;
      if ok {
        var updated := events[i].(cashCollected := Some(cash), day := Some(day));
        var next := events[i := updated];
        forall a, b | 0 <= a < b < |next| ensures next[a].eventId != next[b].eventId {
          assert next[a].eventId == events[a].eventId && next[b].eventId == events[b].eventId;
        }
        events := next;
      }
    }
  }
}
