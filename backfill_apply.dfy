/**
 * The apply loop of the backfill: each missing candidate is inserted
 * unless its strict key is already in the key set of its day; after an
 * insert the key joins that set, so candidates sharing a strict key insert
 * at most once per run.  A duplicate `eventId` (Prisma's `P2002`) is
 * skipped without counting; any other error aborts the run.
 *
 * As written, the `P2002` skip leaves the key out of the day's set.  When a
 * candidate's earlier insert was not recognised by the re-run's index, a
 * later candidate with the same strict key and another event id is then
 * inserted by the re-run, a duplicate the first run had avoided.  The model
 * keeps that behaviour (`asWritten`) and proves the run with the key added
 * on `P2002` idempotent.
 */
module BackfillApply {
  import opened Wrappers
  import opened Store
  import Eastern
  import opened BackfillRead
  import opened BackfillCandidate

  /** One insert the loop attempts: the candidate's day, its strict key, and the row `create` is given (or the error building it throws). */
  datatype Planned = Planned(day: string, key: string, record: Result<StoredEvent, string>)

  /** The candidate as the apply loop sees it; `now` stands for the instant of the insert. */
  function PlanOf(env: Eastern.Oracles, c: Candidate, now: int): (p: Planned)
    ensures p.day == Eastern.EtDay(env, c.checkoutDate) && p.key == StrictKeyOf(env, c.sourceRow)
    ensures p.record == RecordOf(env, c, now)
  {
    Planned(Eastern.EtDay(env, c.checkoutDate), StrictKeyOf(env, c.sourceRow), RecordOf(env, c, now))
  }

  /** The state of the loop: the per-day key sets, the insert count, the table, and the error that aborted the run. */
  datatype Tally = Tally(keysByDay: map<string, set<string>>, inserted: nat, events: seq<StoredEvent>, failure: Option<string>)

  /** `existingKeysByDay.get(day)`, an absent day holding no keys. */
  function KeysOf(m: map<string, set<string>>, day: string): (r: set<string>)
    ensures day !in m ==> r == {}
  {
    if day in m then m[day] else {}
  }

  /** `existingForDay.add(key)`, or a new set holding the key. */
  function AddKey(m: map<string, set<string>>, day: string, key: string): (r: map<string, set<string>>)
    ensures KeysOf(r, day) == KeysOf(m, day) + {key}
    ensures forall d :: d != day ==> KeysOf(r, d) == KeysOf(m, d)
  {
    m[day := KeysOf(m, day) + {key}]
  }

  /**
   * One iteration.  `asWritten` is the loop as the source has it, where the
   * `P2002` skip leaves the key out of the day's set; otherwise the key is
   * added there too.
   */
  function Step(t: Tally, p: Planned, online: bool, asWritten: bool): Tally {
    if t.failure.Some? then t
    else if p.key in KeysOf(t.keysByDay, p.day) then t
    else if p.record.Err? then t.(failure := Some(p.record.error))
    else match CreateOutcomeFor(t.events, online, p.record.value)
      case Unavailable => t.(failure := Some(DatabaseError))
      case DuplicateEventId => if asWritten then t else t.(keysByDay := AddKey(t.keysByDay, p.day, p.key))
      case Created =>
        t.(keysByDay := AddKey(t.keysByDay, p.day, p.key), inserted := t.inserted + 1, events := t.events + [p.record.value])
  }

  /** The loop over `plans`, in order, from `init`. */
  function Run(plans: seq<Planned>, init: Tally, online: bool, asWritten: bool): Tally
    decreases |plans|
  {
    if plans == [] then init
    else Step(Run(plans[..|plans| - 1], init, online, asWritten), plans[|plans| - 1], online, asWritten)
  }

  lemma RunSnoc(plans: seq<Planned>, p: Planned, init: Tally, online: bool, asWritten: bool)
    ensures Run(plans + [p], init, online, asWritten) == Step(Run(plans, init, online, asWritten), p, online, asWritten)
  {
    assert (plans + [p])[..|plans|] == plans;
  }

  /**
   * What one iteration does: an aborted run stays aborted; a key already in
   * the day's set skips; otherwise the row is appended and counted exactly
   * when `create` succeeds, a duplicate id changes neither table nor count,
   * and every other outcome aborts.  The key sets only grow.
   */
  lemma StepMeaning(t: Tally, p: Planned, online: bool, asWritten: bool)
    ensures var t' := Step(t, p, online, asWritten);
            (t.failure.Some? ==> t' == t)
            && (t.failure.None? && p.key in KeysOf(t.keysByDay, p.day) ==> t' == t)
            && (t'.inserted == t.inserted + 1 <==>
                  t.failure.None? && p.key !in KeysOf(t.keysByDay, p.day) && p.record.Ok? && online
                  && !HasEventId(t.events, p.record.value.eventId))
            && (t'.inserted == t.inserted + 1 ==> t'.events == t.events + [p.record.value] && t'.failure.None?)
            && (t'.inserted != t.inserted + 1 ==> t'.inserted == t.inserted && t'.events == t.events)
            && (t'.failure.Some? <==> t.failure.Some? || (p.key !in KeysOf(t.keysByDay, p.day) && (p.record.Err? || !online)))
            && (forall d :: KeysOf(t.keysByDay, d) <= KeysOf(t'.keysByDay, d))
  {
  }

  /** After an iteration that does not abort, the plan's key is in its day's set, unless the duplicate-id skip of the source left it out. */
  lemma StepRecordsKey(t: Tally, p: Planned, online: bool)
    requires t.failure.None? && Step(t, p, online, false).failure.None?
    ensures p.key in KeysOf(Step(t, p, online, false).keysByDay, p.day)
  {
  }

  /**
   * What a whole run keeps: the table only grows, by exactly the rows
   * counted; the key sets only grow; once aborted the run stays aborted.
   */
  lemma {:induction false} RunGrows(plans: seq<Planned>, init: Tally, online: bool, asWritten: bool)
    requires init.inserted == 0
    ensures var t := Run(plans, init, online, asWritten);
            |t.events| == |init.events| + t.inserted && t.events[..|init.events|] == init.events
            && (forall d :: KeysOf(init.keysByDay, d) <= KeysOf(t.keysByDay, d))
            && (init.failure.Some? ==> t == init)
    decreases |plans|
  {
    if plans != [] {
      var n := |plans| - 1;
      RunGrows(plans[..n], init, online, asWritten);
      StepMeaning(Run(plans[..n], init, online, asWritten), plans[n], online, asWritten);
    }
  }

  /** Key sets only grow along a run: the sets after a prefix are contained in those after a longer one. */
  lemma {:induction false} KeysGrowAlong(plans: seq<Planned>, i: nat, j: nat, init: Tally, online: bool, asWritten: bool)
    requires i <= j <= |plans|
    ensures forall d :: KeysOf(Run(plans[..i], init, online, asWritten).keysByDay, d)
                        <= KeysOf(Run(plans[..j], init, online, asWritten).keysByDay, d)
    decreases j - i
  {
    if i < j {
      KeysGrowAlong(plans, i, j - 1, init, online, asWritten);
      assert plans[..j] == plans[..j - 1] + [plans[j - 1]];
      RunSnoc(plans[..j - 1], plans[j - 1], init, online, asWritten);
      StepMeaning(Run(plans[..j - 1], init, online, asWritten), plans[j - 1], online, asWritten);
    }
  }

  predicate SameSlot(p: Planned, q: Planned) {
    p.day == q.day && p.key == q.key
  }

  /** Whether the iteration of plan `i` inserted. */
  predicate InsertsAt(plans: seq<Planned>, i: nat, init: Tally, online: bool, asWritten: bool)
    requires i < |plans|
  {
    Run(plans[..i + 1], init, online, asWritten).inserted == Run(plans[..i], init, online, asWritten).inserted + 1
  }

  /** Candidates sharing a day and a strict key insert at most once in one run (either version of the loop). */
  lemma AtMostOncePerKey(plans: seq<Planned>, i: nat, j: nat, init: Tally, online: bool, asWritten: bool)
    requires i < j < |plans| && SameSlot(plans[i], plans[j])
    requires InsertsAt(plans, i, init, online, asWritten)
    ensures !InsertsAt(plans, j, init, online, asWritten)
  {
    var ti := Run(plans[..i], init, online, asWritten);
    assert plans[..i + 1] == plans[..i] + [plans[i]];
    RunSnoc(plans[..i], plans[i], init, online, asWritten);
    StepMeaning(ti, plans[i], online, asWritten);
    KeysGrowAlong(plans, i + 1, j, init, online, asWritten);
    var tj := Run(plans[..j], init, online, asWritten);
    assert plans[i].key in KeysOf(tj.keysByDay, plans[j].day);
    assert plans[..j + 1] == plans[..j] + [plans[j]];
    RunSnoc(plans[..j], plans[j], init, online, asWritten);
    StepMeaning(tj, plans[j], online, asWritten);
  }

  /** A plan is settled when its key was in the initial set of its day or its event id is in the table. */
  predicate Settled(p: Planned, keys0: map<string, set<string>>, events: seq<StoredEvent>) {
    p.key in KeysOf(keys0, p.day) || (p.record.Ok? && HasEventId(events, p.record.value.eventId))
  }

  /** Every key in a day's set came from the initial sets or from an earlier plan whose event is in the table. */
  ghost predicate KeysAccounted(plans: seq<Planned>, keys0: map<string, set<string>>, t: Tally) {
    forall d, k :: k in KeysOf(t.keysByDay, d) ==>
      k in KeysOf(keys0, d)
      || exists j :: 0 <= j < |plans| && plans[j].day == d && plans[j].key == k && plans[j].record.Ok?
                     && HasEventId(t.events, plans[j].record.value.eventId)
  }

  /** Plan `i` shares its slot with a settled plan at or before it. */
  ghost predicate SettledBy(plans: seq<Planned>, i: nat, keys0: map<string, set<string>>, events: seq<StoredEvent>)
    requires i < |plans|
  {
    exists j :: 0 <= j <= i && SameSlot(plans[j], plans[i]) && Settled(plans[j], keys0, events)
  }

  ghost predicate AllSettled(plans: seq<Planned>, keys0: map<string, set<string>>, events: seq<StoredEvent>) {
    forall i :: 0 <= i < |plans| ==> SettledBy(plans, i, keys0, events)
  }

  ghost predicate KeysWithin(small: map<string, set<string>>, big: map<string, set<string>>) {
    forall d :: KeysOf(small, d) <= KeysOf(big, d)
  }

  ghost predicate IdsWithin(small: seq<StoredEvent>, big: seq<StoredEvent>) {
    forall id :: HasEventId(small, id) ==> HasEventId(big, id)
  }

  lemma HasEventIdGrows(events: seq<StoredEvent>, more: seq<StoredEvent>, id: string)
    requires HasEventId(events, id)
    ensures HasEventId(events + more, id)
  {
    var i :| 0 <= i < |events| && events[i].eventId == id;
    assert (events + more)[i] == events[i];
  }

  lemma IdsWithinAppend(events: seq<StoredEvent>, more: seq<StoredEvent>)
    ensures IdsWithin(events, events + more)
  {
    forall id | HasEventId(events, id) ensures HasEventId(events + more, id) {
      HasEventIdGrows(events, more, id);
    }
  }

  /**
   * What a corrected, online iteration that does not abort leaves behind:
   * the table and the key sets only grow, the plan's key joins its day's
   * set and is the only key to join, and the plan was already keyed or
   * its event id is now in the table.
   */
  lemma CorrectedStep(t: Tally, p: Planned)
    requires t.failure.None? && Step(t, p, true, false).failure.None?
    ensures var t' := Step(t, p, true, false);
            IdsWithin(t.events, t'.events)
            && KeysWithin(t.keysByDay, t'.keysByDay)
            && p.key in KeysOf(t'.keysByDay, p.day)
            && (forall d, k :: k in KeysOf(t'.keysByDay, d) ==> k in KeysOf(t.keysByDay, d) || (d == p.day && k == p.key))
            && (p.key in KeysOf(t.keysByDay, p.day) || (p.record.Ok? && HasEventId(t'.events, p.record.value.eventId)))
  {
    var t' := Step(t, p, true, false);
    if p.key !in KeysOf(t.keysByDay, p.day) {
      var e := p.record.value;
      if HasEventId(t.events, e.eventId) {
        assert t'.events == t.events + [];
        IdsWithinAppend(t.events, []);
      } else {
        assert t'.events == t.events + [e];
        IdsWithinAppend(t.events, [e]);
        assert t'.events[|t.events|] == e;
      }
    } else {
      assert t'.events == t.events + [];
      IdsWithinAppend(t.events, []);
    }
  }

  /** One corrected iteration keeps every key accounted for. */
  lemma AccountedStep(prefix: seq<Planned>, p: Planned, keys0: map<string, set<string>>, t: Tally, t': Tally)
    requires KeysAccounted(prefix, keys0, t)
    requires IdsWithin(t.events, t'.events)
    requires forall d, k :: k in KeysOf(t'.keysByDay, d) ==> k in KeysOf(t.keysByDay, d) || (d == p.day && k == p.key)
    requires p.key in KeysOf(t.keysByDay, p.day) || (p.record.Ok? && HasEventId(t'.events, p.record.value.eventId))
    ensures KeysAccounted(prefix + [p], keys0, t')
  {
    var plans := prefix + [p];
    forall d, k | k in KeysOf(t'.keysByDay, d)
      ensures k in KeysOf(keys0, d)
              || exists j :: 0 <= j < |plans| && plans[j].day == d && plans[j].key == k && plans[j].record.Ok?
                             && HasEventId(t'.events, plans[j].record.value.eventId)
    {
      if k in KeysOf(t.keysByDay, d) {
        if k !in KeysOf(keys0, d) {
          var j :| 0 <= j < |prefix| && prefix[j].day == d && prefix[j].key == k && prefix[j].record.Ok?
                   && HasEventId(t.events, prefix[j].record.value.eventId);
          assert plans[j] == prefix[j];
        }
      } else {
        assert plans[|prefix|] == p;
      }
    }
  }

  lemma SettledGrows(p: Planned, keys0: map<string, set<string>>, events: seq<StoredEvent>, events': seq<StoredEvent>)
    requires Settled(p, keys0, events) && IdsWithin(events, events')
    ensures Settled(p, keys0, events')
  {
  }

  /** The plan an iteration finds keyed shares its slot with an earlier settled plan. */
  lemma KeyedSettled(prefix: seq<Planned>, p: Planned, keys0: map<string, set<string>>, t: Tally, events': seq<StoredEvent>)
    returns (j: nat)
    requires KeysAccounted(prefix, keys0, t) && IdsWithin(t.events, events')
    requires p.key in KeysOf(t.keysByDay, p.day) && p.key !in KeysOf(keys0, p.day)
    ensures j < |prefix| && SameSlot(prefix[j], p) && Settled(prefix[j], keys0, events')
  {
    j :| 0 <= j < |prefix| && prefix[j].day == p.day && prefix[j].key == p.key && prefix[j].record.Ok?
         && HasEventId(t.events, prefix[j].record.value.eventId);
  }

  /** One corrected iteration keeps every plan settled. */
  lemma SettledStep(prefix: seq<Planned>, p: Planned, keys0: map<string, set<string>>, t: Tally, t': Tally)
    requires AllSettled(prefix, keys0, t.events) && KeysAccounted(prefix, keys0, t)
    requires IdsWithin(t.events, t'.events)
    requires p.key in KeysOf(t.keysByDay, p.day) || (p.record.Ok? && HasEventId(t'.events, p.record.value.eventId))
    ensures AllSettled(prefix + [p], keys0, t'.events)
  {
    var plans := prefix + [p];
    var n := |prefix|;
    forall i | 0 <= i < |plans|
      ensures SettledBy(plans, i, keys0, t'.events)
    {
      if i < n {
        assert SettledBy(prefix, i, keys0, t.events);
        var j :| 0 <= j <= i && SameSlot(prefix[j], prefix[i]) && Settled(prefix[j], keys0, t.events);
        SettledGrows(prefix[j], keys0, t.events, t'.events);
        assert plans[j] == prefix[j] && plans[i] == prefix[i];
      } else if p.key in KeysOf(t.keysByDay, p.day) && p.key !in KeysOf(keys0, p.day) {
        var j := KeyedSettled(prefix, p, keys0, t, t'.events);
        assert plans[j] == prefix[j] && plans[i] == p;
      } else {
        assert plans[i] == p && Settled(p, keys0, t'.events);
      }
    }
  }

  /**
   * A run of the corrected loop that does not abort leaves every plan
   * settled or sharing its slot with an earlier settled plan.
   */
  lemma {:induction false} RunSettles(plans: seq<Planned>, init: Tally)
    requires init.failure.None? && init.inserted == 0
    requires Run(plans, init, true, false).failure.None?
    ensures KeysAccounted(plans, init.keysByDay, Run(plans, init, true, false))
    ensures AllSettled(plans, init.keysByDay, Run(plans, init, true, false).events)
    decreases |plans|
  {
    if plans != [] {
      var n := |plans| - 1;
      var prefix := plans[..n];
      var p := plans[n];
      assert plans == prefix + [p];
      RunSnoc(prefix, p, init, true, false);
      var t := Run(prefix, init, true, false);
      StepMeaning(t, p, true, false);
      RunSettles(prefix, init);
      CorrectedStep(t, p);
      var t' := Step(t, p, true, false);
      AccountedStep(prefix, p, init.keysByDay, t, t');
      SettledStep(prefix, p, init.keysByDay, t, t');
    }
  }

  /** The plans a re-run finds missing: those `keep` admits, in order. */
  function Filter(plans: seq<Planned>, keep: Planned -> bool): (r: seq<Planned>)
    ensures |r| <= |plans|
    ensures forall q :: q in r ==> q in plans && keep(q)
    decreases |plans|
  {
    if plans == [] then []
    else
      var n := |plans| - 1;
      Filter(plans[..n], keep) + (if keep(plans[n]) then [plans[n]] else [])
  }

  /** Whether a plan is kept depends only on its day and key. */
  ghost predicate SlotDetermined(keep: Planned -> bool) {
    forall p, q :: SameSlot(p, q) ==> keep(p) == keep(q)
  }

  /** The plan's key is in its day's set. */
  predicate Keyed(p: Planned, keysByDay: map<string, set<string>>) {
    p.key in KeysOf(keysByDay, p.day)
  }

  /** The re-run so far: nothing inserted, nothing aborted, the table as it was, and every kept plan's key recorded. */
  ghost predicate RerunQuiet(prefix: seq<Planned>, keep: Planned -> bool, keys2: map<string, set<string>>, events2: seq<StoredEvent>, t: Tally) {
    t.failure.None? && t.inserted == 0 && t.events == events2
    && KeysWithin(keys2, t.keysByDay)
    && (forall j :: 0 <= j < |prefix| && keep(prefix[j]) ==> Keyed(prefix[j], t.keysByDay))
  }

  /** A re-run iteration over an already keyed plan, or one whose event id is in the table, changes nothing but the key set. */
  lemma RerunStep(t: Tally, p: Planned)
    requires t.failure.None?
    requires Keyed(p, t.keysByDay) || (p.record.Ok? && HasEventId(t.events, p.record.value.eventId))
    ensures var t' := Step(t, p, true, false);
            t'.failure.None? && t'.inserted == t.inserted && t'.events == t.events
            && KeysWithin(t.keysByDay, t'.keysByDay) && Keyed(p, t'.keysByDay)
  {
  }

  lemma KeysWithinTrans(a: map<string, set<string>>, b: map<string, set<string>>, c: map<string, set<string>>)
    requires KeysWithin(a, b) && KeysWithin(b, c)
    ensures KeysWithin(a, c)
  {
    forall d ensures KeysOf(a, d) <= KeysOf(c, d) {
      assert KeysOf(b, d) <= KeysOf(c, d);
    }
  }

  /** The re-run stays quiet across one more plan whose iteration leaves the table and count alone. */
  lemma RerunQuietStep(prefix: seq<Planned>, p: Planned, keep: Planned -> bool, keys2: map<string, set<string>>,
                       events2: seq<StoredEvent>, t: Tally, t': Tally)
    requires RerunQuiet(prefix, keep, keys2, events2, t)
    requires t'.failure.None? && t'.inserted == 0 && t'.events == events2
    requires KeysWithin(t.keysByDay, t'.keysByDay)
    requires keep(p) ==> Keyed(p, t'.keysByDay)
    ensures RerunQuiet(prefix + [p], keep, keys2, events2, t')
  {
    KeysWithinTrans(keys2, t.keysByDay, t'.keysByDay);
    var plans := prefix + [p];
    forall j | 0 <= j < |plans| && keep(plans[j]) ensures Keyed(plans[j], t'.keysByDay) {
      if j < |prefix| {
        assert plans[j] == prefix[j];
        assert KeysOf(t.keysByDay, prefix[j].day) <= KeysOf(t'.keysByDay, prefix[j].day);
      }
    }
  }

  /** The plan an iteration of the re-run meets is keyed already or has its event id in the table. */
  lemma RerunMeetsSettled(plans: seq<Planned>, m: nat, keep: Planned -> bool,
                          keys1: map<string, set<string>>, events1: seq<StoredEvent>,
                          keys2: map<string, set<string>>, events2: seq<StoredEvent>, t: Tally)
    requires m < |plans| && keep(plans[m])
    requires AllSettled(plans, keys1, events1) && SlotDetermined(keep)
    requires KeysWithin(keys1, keys2) && IdsWithin(events1, events2)
    requires RerunQuiet(plans[..m], keep, keys2, events2, t)
    ensures Keyed(plans[m], t.keysByDay) || (plans[m].record.Ok? && HasEventId(t.events, plans[m].record.value.eventId))
  {
    var p := plans[m];
    assert SettledBy(plans, m, keys1, events1);
    var j :| 0 <= j <= m && SameSlot(plans[j], p) && Settled(plans[j], keys1, events1);
    if j < m {
      assert plans[..m][j] == plans[j] && keep(plans[j]);
    } else {
      assert KeysOf(keys1, p.day) <= KeysOf(keys2, p.day) <= KeysOf(t.keysByDay, p.day);
    }
  }

  lemma {:induction false} RerunInvariant(plans: seq<Planned>, n: nat, keep: Planned -> bool,
                                          keys1: map<string, set<string>>, events1: seq<StoredEvent>,
                                          keys2: map<string, set<string>>, events2: seq<StoredEvent>)
    requires n <= |plans|
    requires AllSettled(plans, keys1, events1) && SlotDetermined(keep)
    requires KeysWithin(keys1, keys2) && IdsWithin(events1, events2)
    ensures RerunQuiet(plans[..n], keep, keys2, events2, Run(Filter(plans[..n], keep), Tally(keys2, 0, events2, None), true, false))
    decreases n
  {
    var init := Tally(keys2, 0, events2, None);
    if n == 0 {
      assert Filter(plans[..0], keep) == [];
      assert KeysWithin(keys2, keys2);
    } else {
      var m := n - 1;
      RerunInvariant(plans, m, keep, keys1, events1, keys2, events2);
      var prefix := plans[..m];
      var p := plans[m];
      assert plans[..n] == prefix + [p];
      var f := Filter(prefix, keep);
      var t := Run(f, init, true, false);
      assert Filter(plans[..n], keep) == f + (if keep(p) then [p] else []);
      if keep(p) {
        RunSnoc(f, p, init, true, false);
        RerunMeetsSettled(plans, m, keep, keys1, events1, keys2, events2, t);
        RerunStep(t, p);
        RerunQuietStep(prefix, p, keep, keys2, events2, t, Step(t, p, true, false));
      } else {
        assert f + [] == f;
        assert KeysWithin(t.keysByDay, t.keysByDay);
        RerunQuietStep(prefix, p, keep, keys2, events2, t, t);
      }
    }
  }

  /** Two plans for one candidate made at different instants: same slot, and the same event id or the same failure to build a row. */
  predicate Restamped(p: Planned, q: Planned) {
    SameSlot(p, q) && p.record.Ok? == q.record.Ok?
    && (p.record.Ok? ==> p.record.value.eventId == q.record.value.eventId)
  }

  predicate AllRestamped(plans: seq<Planned>, plans': seq<Planned>) {
    |plans| == |plans'| && forall i :: 0 <= i < |plans| ==> Restamped(plans[i], plans'[i])
  }

  lemma SettledRestamped(plans: seq<Planned>, plans': seq<Planned>, keys0: map<string, set<string>>, events: seq<StoredEvent>)
    requires AllSettled(plans, keys0, events) && AllRestamped(plans, plans')
    ensures AllSettled(plans', keys0, events)
  {
    forall i | 0 <= i < |plans'| ensures SettledBy(plans', i, keys0, events) {
      assert SettledBy(plans, i, keys0, events);
      var j :| 0 <= j <= i && SameSlot(plans[j], plans[i]) && Settled(plans[j], keys0, events);
      assert Restamped(plans[j], plans'[j]) && Restamped(plans[i], plans'[i]);
      assert SameSlot(plans'[j], plans'[i]) && Settled(plans'[j], keys0, events);
    }
  }

  /**
   * Idempotence of the corrected loop.  Let a first run over `plans`
   * finish without error.  A re-run meets the same candidates, planned
   * anew (`plans'`), and admits those its index still finds missing, a
   * choice that depends only on each plan's day and key; its key sets
   * contain the first run's initial ones, and its table holds every event
   * id of the first run's final table.  Then the re-run inserts nothing,
   * does not abort, and leaves the table unchanged.
   */
  lemma RerunInsertsNothing(plans: seq<Planned>, keys1: map<string, set<string>>, events1: seq<StoredEvent>,
                            plans': seq<Planned>, keep: Planned -> bool, keys2: map<string, set<string>>, events2: seq<StoredEvent>)
    requires Run(plans, Tally(keys1, 0, events1, None), true, false).failure.None?
    requires AllRestamped(plans, plans') && SlotDetermined(keep)
    requires KeysWithin(keys1, keys2)
    requires IdsWithin(Run(plans, Tally(keys1, 0, events1, None), true, false).events, events2)
    ensures var t := Run(Filter(plans', keep), Tally(keys2, 0, events2, None), true, false);
            t.inserted == 0 && t.failure.None? && t.events == events2
  {
    var first := Run(plans, Tally(keys1, 0, events1, None), true, false);
    RunSettles(plans, Tally(keys1, 0, events1, None));
    SettledRestamped(plans, plans', keys1, first.events);
    RerunInvariant(plans', |plans'|, keep, keys1, first.events, keys2, events2);
    assert plans'[..|plans'|] == plans';
  }

  /**
   * The loop as written is not idempotent: two candidates of one day share
   * a strict key but not an event id.  The first run inserts the first and
   * skips the second by its key.  If the re-run's index does not recognise
   * the stored record (its amount or its tip is not zero and its change due
   * differs from its amount due), both come back as missing; the first
   * hits `P2002` and, its key left out, lets the second through.
   */
  lemma AsWrittenRerunDuplicates(e1: StoredEvent, e2: StoredEvent)
    requires e1.eventId != e2.eventId
    ensures var plans := [Planned("2025-12-12", "k", Ok(e1)), Planned("2025-12-12", "k", Ok(e2))];
            var first := Run(plans, Tally(map[], 0, [], None), true, true);
            var rerun := Run(plans, Tally(map[], 0, first.events, None), true, true);
            first.inserted == 1 && first.events == [e1]
            && rerun.inserted == 1 && rerun.events == [e1, e2]
  {
    var p1, p2 := Planned("2025-12-12", "k", Ok(e1)), Planned("2025-12-12", "k", Ok(e2));
    var plans := [p1, p2];
    assert plans == [p1] + [p2] && [p1] == [] + [p1];
    var init := Tally(map[], 0, [], None);
    RunSnoc([], p1, init, true, true);
    RunSnoc([p1], p2, init, true, true);
    var a := Step(init, p1, true, true);
    assert !HasEventId([], e1.eventId);
    assert a.inserted == 1 && a.events == [e1] && "k" in KeysOf(a.keysByDay, "2025-12-12");
    assert Step(a, p2, true, true) == a;
    var re := Tally(map[], 0, [e1], None);
    RunSnoc([], p1, re, true, true);
    RunSnoc([p1], p2, re, true, true);
    assert [e1][0].eventId == e1.eventId;
    var b := Step(re, p1, true, true);
    assert b == re;
    assert !HasEventId([e1], e2.eventId);
    assert Step(b, p2, true, true).events == [e1] + [e2];
  }

  /**
   * The apply loop over the missing candidates' plans on the event table,
   * as written: a duplicate event id (`P2002`) is skipped before its key
   * joins the day's set.  It returns the number of rows inserted, or the
   * error that aborted the run.
   */
  method ApplyMissing(store: EventStore, plans: seq<Planned>, keysByDay: map<string, set<string>>)
    returns (r: Result<nat, string>)
    requires store.Valid()
    modifies store
    ensures store.Valid() && store.online == old(store.online)
    ensures var t := Run(plans, Tally(keysByDay, 0, old(store.events), None), old(store.online), true);
            store.events == t.events
            && r == if t.failure.Some? then Err(t.failure.value) else Ok(t.inserted)
  {
    var init := Tally(keysByDay, 0, store.events, None);
    var online := store.online;
    var keys := keysByDay;
    var inserted := 0;
    var i := 0;
    assert plans[..0] == [];
    while i < |plans|
      invariant 0 <= i <= |plans|
      invariant store.Valid() && store.online == online
      invariant Run(plans[..i], init, online, true) == Tally(keys, inserted, store.events, None)
    {
      var p := plans[i];
      assert plans[..i + 1] == plans[..i] + [p];
      RunSnoc(plans[..i], p, init, online, true);
      if p.key in KeysOf(keys, p.day) {
        i := i + 1;
        continue;
      }
      if p.record.Err? {
        RunAborted(plans, i + 1, init, online, true);
        return Err(p.record.error);
      }
      var outcome := store.Create(p.record.value);
      if outcome.Unavailable? {
        RunAborted(plans, i + 1, init, online, true);
        return Err(DatabaseError);
      }
      if outcome.DuplicateEventId? {
        i := i + 1;
        continue;
      }
      keys := AddKey(keys, p.day, p.key);
      inserted := inserted + 1;
      i := i + 1;
    }
    assert plans[..|plans|] == plans;
    r := Ok(inserted);
  }

  /** Once aborted, the loop's outcome is that error. */
  lemma {:induction false} RunAborted(plans: seq<Planned>, n: nat, init: Tally, online: bool, asWritten: bool)
    requires n <= |plans|
    ensures Run(plans[..n], init, online, asWritten).failure.Some? ==>
              Run(plans, init, online, asWritten) == Run(plans[..n], init, online, asWritten)
    decreases |plans| - n
  {
    if n < |plans| {
      assert plans[..n + 1] == plans[..n] + [plans[n]];
      RunSnoc(plans[..n], plans[n], init, online, asWritten);
      RunAborted(plans, n + 1, init, online, asWritten);
    } else {
      assert plans[..n] == plans;
    }
  }
}
