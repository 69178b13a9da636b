/**
 * `POST /webhooks/vagaro` (src/routes/vagaro.ts): the webhook body is
 * stored as one `WebhookEvent` row together with the cash it collected
 * and the UTC day it belongs to.
 */
module VagaroRoute {
  import opened Wrappers
  import opened Js
  import Calendar
  import Eastern
  import Store

  /** `num`: strings through `Number`, numbers as they are, anything else 0; a non-finite result is 0. */
  function NumOf(v: Value): (r: real)
    ensures v.Num? && v.n.Finite? ==> r == v.n.value
    ensures !v.Num? && !v.Str? ==> r == 0.0
  {
    var n := if v.Str? then ParseNumber(v.s) else if v.Num? then v.n else Finite(0.0);
    if n.Finite? then n.value else 0.0
  }

  /** A number written out as text reads back as itself. */
  lemma NumOfText(x: real)
    requires IsShortDecimal(x)
    ensures NumOf(Str(NumberToString(x))) == x
  {
    ParseNumberToString(x);
  }

  /** Text that is not a number counts as 0. */
  lemma NumOfNonNumericText(s: string)
    requires !ParseNumber(s).Finite?
    ensures NumOf(Str(s)) == 0.0
  {
  }

  /**
   * `pick(obj, path)`: follows `path` one property at a time and gives
   * `undefined` as soon as the value reached is falsy or the next property
   * is `null` or `undefined`.
   */
  function Pick(v: Value, path: seq<string>): (r: Value)
    ensures path != [] ==> !r.Null?
    decreases |path|
  {
    if path == [] then v
    else if Truthy(v) && !IsNullish(Get(v, path[0])) then Pick(Get(v, path[0]), path[1..])
    else Undefined
  }

  /** Following a path in two legs is following it in one. */
  lemma {:induction false} PickCompose(v: Value, p: seq<string>, q: seq<string>)
    ensures Pick(v, p + q) == Pick(Pick(v, p), q)
    decreases |p|
  {
    if p == [] {
      assert p + q == q;
    } else {
      assert (p + q)[0] == p[0] && (p + q)[1..] == p[1..] + q;
      if Truthy(v) && !IsNullish(Get(v, p[0])) {
        PickCompose(Get(v, p[0]), p[1..], q);
      } else {
        PickUndefined(q);
      }
    }
  }

  lemma PickUndefined(q: seq<string>)
    ensures Pick(Undefined, q) == Undefined
  {
  }

  /** A value found at the end of a path is a property of a truthy value one step before it. */
  lemma PickOne(v: Value, key: string)
    ensures Pick(v, [key]) == if Truthy(v) && !IsNullish(Get(v, key)) then Get(v, key) else Undefined
  {
  }

  /** The top-level field, else the same field under `payload`. */
  function Field(payload: Value, name: string): Value {
    Coalesce(Pick(payload, [name]), Pick(payload, ["payload", name]))
  }

  /** `deriveCashCollected`: cash tendered minus the amount due, not clamped at 0. */
  function DeriveCashCollected(payload: Value): real {
    NumOf(Field(payload, "cashAmount")) - NumOf(Field(payload, "amountDue"))
  }

  /** Top-level amounts win over the nested ones. */
  lemma CashPrefersTopLevel(payload: Value, cash: real, due: real)
    requires Get(payload, "cashAmount") == Num(Finite(cash)) && Get(payload, "amountDue") == Num(Finite(due))
    ensures DeriveCashCollected(payload) == cash - due
  {
    PickOne(payload, "cashAmount");
    PickOne(payload, "amountDue");
  }

  /** With no top-level amounts, the nested `payload` ones are used. */
  lemma CashFromNested(payload: Value, inner: Value, cash: real, due: real)
    requires Get(payload, "payload") == inner && inner.Obj?
    requires IsNullish(Get(payload, "cashAmount")) && IsNullish(Get(payload, "amountDue"))
    requires Get(inner, "cashAmount") == Num(Finite(cash)) && Get(inner, "amountDue") == Num(Finite(due))
    ensures DeriveCashCollected(payload) == cash - due
  {
    PickCompose(payload, ["payload"], ["cashAmount"]);
    PickCompose(payload, ["payload"], ["amountDue"]);
    assert ["payload"] + ["cashAmount"] == ["payload", "cashAmount"];
    assert ["payload"] + ["amountDue"] == ["payload", "amountDue"];
  }

  /** Change owed beyond the cash tendered gives a negative amount. */
  lemma CashNotClamped()
    ensures DeriveCashCollected(Obj(map["cashAmount" := Num(Finite(10.0)), "amountDue" := Num(Finite(25.0))])) == -15.0
  {
    CashPrefersTopLevel(Obj(map["cashAmount" := Num(Finite(10.0)), "amountDue" := Num(Finite(25.0))]), 10.0, 25.0);
  }

  /** `deriveDay`: UTC midnight of the created date, or of now when there is none; None for an invalid date. */
  function DeriveDay(env: Eastern.Oracles, createdDate: Value): (r: Option<int>)
    ensures r.Some? ==> Calendar.TimeInDay(r.value) == 0
  {
    var d := if Truthy(createdDate) then Eastern.NewDate(env, createdDate) else Some(env.now);
    if d.None? then None
    else
      Calendar.UtcMidnightIsMidnight(d.value);
      Calendar.UtcMidnight(d.value)
  }

  /** Outside the years 0..99 the day is the start of the created date's UTC day. */
  lemma DeriveDayStartsDay(env: Eastern.Oracles, createdDate: Value)
    requires Truthy(createdDate) && Eastern.NewDate(env, createdDate).Some?
    requires -Calendar.MaxTime <= Eastern.NewDate(env, createdDate).value <= Calendar.MaxTime
    requires !(0 <= Calendar.UtcDate(Eastern.NewDate(env, createdDate).value).year <= 99)
    ensures var t := Eastern.NewDate(env, createdDate).value;
            DeriveDay(env, createdDate) == Some(t - Calendar.TimeInDay(t))
  {
    hide Eastern.NewDate, Calendar.UtcMidnight, Calendar.UtcDate, Calendar.TimeInDay;
    var t := Eastern.NewDate(env, createdDate).value;
    Calendar.UtcMidnightTruncates(t);
  }

  /** The request as the handler sees it; `ip` is "" when Express has none. */
  datatype Request = Request(body: Value, headers: map<string, string>, ip: string)

  function Header(req: Request, name: string): string {
    if name in req.headers then req.headers[name] else ""
  }

  /** `req.body || {}`. */
  function BodyOf(req: Request): Value {
    if Truthy(req.body) then req.body else Obj(map[])
  }

  /** `body.createdDate ?? (body.payload && body.payload.createdDate)`. */
  function CreatedDateOf(body: Value): Value {
    var payload := Get(body, "payload");
    Coalesce(Get(body, "createdDate"), if Truthy(payload) then Get(payload, "createdDate") else payload)
  }

  /** `String(x ?? '')`. */
  function TextOf(v: Value): string {
    ToStr(Coalesce(v, Str("")))
  }

  function Strings(items: seq<Value>): (r: seq<string>)
    ensures |r| == |items|
    ensures forall i :: 0 <= i < |items| ==> r[i] == ToStr(items[i])
  {
    if items == [] then [] else [ToStr(items[0])] + Strings(items[1..])
  }

  /** Business ids from the body, else from `payload`, each through `String`; [] when neither is an array. */
  function BusinessIdsOf(body: Value): (r: seq<string>)
    ensures Get(body, "businessIds").Arr? ==> r == Strings(Get(body, "businessIds").items)
    ensures !Get(body, "businessIds").Arr? && !Get(Get(body, "payload"), "businessIds").Arr? ==> r == []
  {
    var top := Get(body, "businessIds");
    var nested := Get(Get(body, "payload"), "businessIds");
    if top.Arr? then Strings(top.items) else if nested.Arr? then Strings(nested.items) else []
  }

  function HeadersValue(headers: map<string, string>): Value {
    Obj(map k | k in headers :: Str(headers[k]))
  }

  /**
   * The row the handler asks the database to create, or None when a date
   * in it is invalid (the client rejects an invalid `Date` before writing).
   */
  function RecordOf(env: Eastern.Oracles, req: Request): (r: Option<Store.StoredEvent>)
    ensures r.Some? ==> r.value.eventId == TextOf(Get(BodyOf(req), "id"))
    ensures r.Some? ==> r.value.cashCollected == Some(DeriveCashCollected(BodyOf(req)))
    ensures r.Some? ==> r.value.day == DeriveDay(env, CreatedDateOf(BodyOf(req)))
    ensures r.Some? ==> r.value.payload == BodyOf(req) && r.value.receivedAt == Some(env.now)
    ensures r.Some? <==> (!Truthy(CreatedDateOf(BodyOf(req))) || Eastern.NewDate(env, CreatedDateOf(BodyOf(req))).Some?)
                         && DeriveDay(env, CreatedDateOf(BodyOf(req))).Some?
  {
    var body := BodyOf(req);
    var createdDate := CreatedDateOf(body);
    var created := if Truthy(createdDate) then Eastern.NewDate(env, createdDate) else Some(env.now);
    var day := DeriveDay(env, createdDate);
    if created.None? || day.None? then None
    else
      var xff := Header(req, "x-forwarded-for");
      Some(Store.StoredEvent(
        TextOf(Get(body, "id")),
        TextOf(Get(body, "type")),
        TextOf(Get(body, "action")),
        BusinessIdsOf(body),
        created,
        Some(env.now),
        body,
        HeadersValue(req.headers),
        if xff != "" then xff else req.ip,
        Header(req, "user-agent"),
        Some(DeriveCashCollected(body)),
        day))
  }

  /** The handler: one `create`, 200 when it succeeds and 500 otherwise. */
  method Post(store: Store.EventStore, env: Eastern.Oracles, req: Request) returns (reply: Reply)
    requires store.Valid()
    modifies store
    ensures store.Valid() && store.online == old(store.online)
    ensures RecordOf(env, req).None? ==> reply.status == 500 && store.events == old(store.events)
    ensures RecordOf(env, req).Some? ==>
              var outcome := Store.CreateOutcomeFor(old(store.events), old(store.online), RecordOf(env, req).value);
              (reply.status == 200 <==> outcome.Created?)
              && store.events == if outcome.Created? then old(store.events) + [RecordOf(env, req).value] else old(store.events)
    ensures reply.status == 200 || reply.status == 500
  {
    var record := RecordOf(env, req);
    if record.None? {
      return Reply(500, Obj(map["ok" := Bool(false), "error" := Str("insert_failed")]));
    }
    var outcome := store.Create(record.value);
    if outcome.Created? {
      // The generated row id the source also returns is not kept by the store.
      reply := Reply(200, Obj(map["ok" := Bool(true)]));
    } else {
      reply := Reply(500, Obj(map["ok" := Bool(false), "error" := Str("insert_failed")]));
    }
  }

  /** A body whose id is already stored is refused: the second delivery of a webhook is not stored twice. */
  lemma RedeliveryRefused(env: Eastern.Oracles, req: Request, events: seq<Store.StoredEvent>, online: bool)
    requires RecordOf(env, req).Some?
    requires Store.HasEventId(events, TextOf(Get(BodyOf(req), "id")))
    ensures !Store.CreateOutcomeFor(events, online, RecordOf(env, req).value).Created?
  {
  }
}
