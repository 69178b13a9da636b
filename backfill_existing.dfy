/**
 * `getExistingMatchKeysForDay`: the match keys of the events already stored
 * for one Eastern day.  The query reads six text columns from each event's
 * JSON payload (the nested `payload` object first, the top level second);
 * every record whose service, date and Eastern day check out contributes
 * its fallback key, its strict key when it names a customer or a provider,
 * and its ultra key when its amount or its tip is zero.
 */
module BackfillExisting {
  import opened Wrappers
  import opened Text
  import opened Js
  import Eastern
  import Sheet
  import Store
  import opened BackfillKeys
  import BackfillRange

  /** `json->>'key'`: the property as text, or SQL NULL when it is absent or JSON null. */
  function TextField(v: Value, key: string): (r: Option<string>)
    ensures r.None? <==> IsNullish(Get(v, key))
    ensures Get(v, key).Str? ==> r == Some(Get(v, key).s)
    ensures Get(v, key).Num? && Get(v, key).n.Finite? ==> r == Some(NumberToString(Get(v, key).n.value))
  {
    match Get(v, key)
    case Undefined => None
    case Null => None
    case Str(s) => Some(s)
    case Num(n) => Some(ToStr(Num(n)))
    case Bool(b) => Some(if b then "true" else "false")
    case _ => Some("")
  }

  /** `COALESCE(a, b)`. */
  function FirstNonNull(a: Option<string>, b: Option<string>): (r: Option<string>)
    ensures r == a || r == b
    ensures r.None? <==> a.None? && b.None?
  {
    if a.Some? then a else b
  }

  /** One row of the query: the six columns, each possibly NULL. */
  datatype ExistingMatchRow = ExistingMatchRow(
    itemSold: Option<string>,
    transactionDate: Option<string>,
    amountDue: Option<string>,
    tip: Option<string>,
    customerName: Option<string>,
    providerName: Option<string>)

  /** The query's columns for one stored payload. */
  function MatchRowOf(payload: Value): (r: ExistingMatchRow)
    ensures var inner := Get(payload, "payload");
            r.itemSold == FirstNonNull(TextField(inner, "itemSold"), TextField(payload, "itemSold"))
            && r.amountDue == FirstNonNull(TextField(inner, "amountDue"), TextField(payload, "amountDue"))
            && r.tip == FirstNonNull(TextField(inner, "tip"), TextField(payload, "tip"))
            && r.customerName == FirstNonNull(TextField(inner, "customerName"), TextField(payload, "customerName"))
            && r.providerName == FirstNonNull(TextField(inner, "serviceProviderName"), TextField(payload, "serviceProviderName"))
    ensures var inner := Get(payload, "payload");
            r.transactionDate == FirstNonNull(TextField(inner, "transactionDate"),
                                              FirstNonNull(TextField(payload, "transactionDate"), TextField(payload, "createdDate")))
  {
    var inner := Get(payload, "payload");
    ExistingMatchRow(
      itemSold := FirstNonNull(TextField(inner, "itemSold"), TextField(payload, "itemSold")),
      transactionDate := FirstNonNull(TextField(inner, "transactionDate"),
                                      FirstNonNull(TextField(payload, "transactionDate"), TextField(payload, "createdDate"))),
      amountDue := FirstNonNull(TextField(inner, "amountDue"), TextField(payload, "amountDue")),
      tip := FirstNonNull(TextField(inner, "tip"), TextField(payload, "tip")),
      customerName := FirstNonNull(TextField(inner, "customerName"), TextField(payload, "customerName")),
      providerName := FirstNonNull(TextField(inner, "serviceProviderName"), TextField(payload, "serviceProviderName")))
  }

  /** `Number(raw.replace(/[^0-9.-]/g, "")) || 0`: a number that is NaN or zero becomes 0. */
  function AmountOf(raw: Option<string>): (r: Number)
    ensures r == Finite(0.0) || r == ParseNumber(Keep(raw.GetOr(""), Sheet.IsNumeralChar))
    ensures !r.NaN?
  {
    var n := ParseNumber(Keep(raw.GetOr(""), Sheet.IsNumeralChar));
    TruthyNumber(n);
    if Truthy(Num(n)) then n else Finite(0.0)
  }

  lemma TruthyNumber(n: Number)
    ensures Truthy(Num(n)) ==> !n.NaN?
  {
  }

  /** The values the loop body takes from one row before building keys. */
  datatype Reading = Reading(
    itemSold: string,
    dateText: string,
    amountDue: Number,
    tip: Number,
    customerName: string,
    providerName: string)

  function ReadingOf(row: ExistingMatchRow): Reading {
    Reading(
      itemSold := Trim(row.itemSold.GetOr("")),
      dateText := Trim(row.transactionDate.GetOr("")),
      amountDue := AmountOf(row.amountDue),
      tip := AmountOf(row.tip),
      customerName := Trim(row.customerName.GetOr("")),
      providerName := Trim(row.providerName.GetOr("")))
  }

  /** The instant of a reading that counts for `day`: its date parses and falls on that Eastern day. */
  function InstantOn(env: Eastern.Oracles, day: string, x: Reading): (r: Option<int>)
    ensures r.Some? <==> x.itemSold != "" && x.dateText != "" && env.parseDate(x.dateText).Some?
                         && Eastern.EtDay(env, env.parseDate(x.dateText).value) == day
    ensures r.Some? ==> r == env.parseDate(x.dateText)
  {
    if x.itemSold == "" || x.dateText == "" then None
    else
      match env.parseDate(x.dateText)
      case None => None
      case Some(t) => if Eastern.EtDay(env, t) != day then None else Some(t)
  }

  /** The keys one record contributes to the index of `day`. */
  function RecordKeys(env: Eastern.Oracles, day: string, x: Reading): set<string> {
    match InstantOn(env, day, x)
    case None => {}
    case Some(t) =>
      (if x.customerName != "" || x.providerName != ""
       then {MatchKey(env, day, t, x.itemSold, x.amountDue, x.tip, x.customerName, x.providerName)}
       else {})
      + {FallbackKey(env, day, t, x.itemSold, x.amountDue, x.tip)}
      + (if MoneyKey(x.amountDue) == "0.00" || MoneyKey(x.tip) == "0.00"
         then {UltraKey(env, day, t, x.itemSold)}
         else {})
  }

  /**
   * The indexing rules: a record without a service or a date, with a date
   * that does not parse or that lies on another Eastern day contributes
   * nothing; otherwise its fallback key always, its strict key exactly when
   * it names a customer or a provider, its ultra key exactly when the money
   * key of its amount or of its tip is "0.00", and no other key.
   */
  lemma RecordKeysRules(env: Eastern.Oracles, day: string, x: Reading)
    ensures InstantOn(env, day, x).None? ==> RecordKeys(env, day, x) == {}
    ensures InstantOn(env, day, x).Some? ==>
              var t := InstantOn(env, day, x).value;
              var strict := MatchKey(env, day, t, x.itemSold, x.amountDue, x.tip, x.customerName, x.providerName);
              var fallback := FallbackKey(env, day, t, x.itemSold, x.amountDue, x.tip);
              var ultra := UltraKey(env, day, t, x.itemSold);
              fallback in RecordKeys(env, day, x)
              && (strict in RecordKeys(env, day, x) <==> x.customerName != "" || x.providerName != "")
              && (ultra in RecordKeys(env, day, x) <==> MoneyKey(x.amountDue) == "0.00" || MoneyKey(x.tip) == "0.00")
              && RecordKeys(env, day, x) <= {strict, fallback, ultra}
  {
    hide MatchKey, FallbackKey, UltraKey, MoneyKey, Eastern.EtDay;
    if InstantOn(env, day, x).Some? {
      var t := InstantOn(env, day, x).value;
      assert '|' !in day;
      TiersDistinct(env, day, t, x.itemSold, x.amountDue, x.tip, x.customerName, x.providerName,
                    day, t, x.itemSold, x.amountDue, x.tip);
    }
  }

  /** A record that does not count for the day contributes nothing. */
  lemma RecordKeysNone(env: Eastern.Oracles, day: string, x: Reading)
    requires InstantOn(env, day, x).None?
    ensures RecordKeys(env, day, x) == {}
  {
  }

  /** The keys of a record that counts for the day, tier by tier. */
  lemma RecordKeysOn(env: Eastern.Oracles, day: string, x: Reading, t: int)
    requires InstantOn(env, day, x) == Some(t)
    ensures RecordKeys(env, day, x)
            == (if x.customerName != "" || x.providerName != ""
                then {MatchKey(env, day, t, x.itemSold, x.amountDue, x.tip, x.customerName, x.providerName)}
                else {})
               + {FallbackKey(env, day, t, x.itemSold, x.amountDue, x.tip)}
               + (if MoneyKey(x.amountDue) == "0.00" || MoneyKey(x.tip) == "0.00"
                  then {UltraKey(env, day, t, x.itemSold)}
                  else {})
  {
    hide MatchKey, FallbackKey, UltraKey, MoneyKey;
  }

  /** The keys of the first `n` rows. */
  function KeysOfRows(env: Eastern.Oracles, day: string, rows: seq<ExistingMatchRow>, n: nat): set<string>
    requires n <= |rows|
  {
    if n == 0 then {} else KeysOfRows(env, day, rows, n - 1) + RecordKeys(env, day, ReadingOf(rows[n - 1]))
  }

  /** The index is the union of what each record contributes. */
  lemma {:induction false} KeysOfRowsUnion(env: Eastern.Oracles, day: string, rows: seq<ExistingMatchRow>, n: nat, k: string)
    requires n <= |rows|
    ensures k in KeysOfRows(env, day, rows, n) <==> exists i :: 0 <= i < n && k in RecordKeys(env, day, ReadingOf(rows[i]))
  {
    hide RecordKeys, ReadingOf;
    if n > 0 {
      KeysOfRowsUnion(env, day, rows, n - 1, k);
    }
  }

  /** The query's rows for the events of a day range. */
  function MatchRows(events: seq<Store.StoredEvent>): (rows: seq<ExistingMatchRow>)
    ensures |rows| == |events|
    ensures forall i :: 0 <= i < |events| ==> rows[i] == MatchRowOf(events[i].payload)
  {
    seq(|events|, i requires 0 <= i < |events| => MatchRowOf(events[i].payload))
  }

  /** The key set `getExistingMatchKeysForDay` returns, or the error it throws. */
  function ExistingKeysSpec(env: Eastern.Oracles, events: seq<Store.StoredEvent>, online: bool, day: string): (r: Result<set<string>, string>)
  {
    match BackfillRange.UtcRangeForEtDay(env, day)
    case Err(e) => Err(e)
    case Ok(range) =>
      if !online then Err(Store.DatabaseError)
      else
        var rows := MatchRows(Store.DayRange(events, range.start, range.end));
        Ok(KeysOfRows(env, day, rows, |rows|))
  }

  /**
   * Every key in the index of a day comes from a stored event of that day's
   * range, and is one of that event's three keys.
   */
  lemma ExistingKeyHasSource(env: Eastern.Oracles, events: seq<Store.StoredEvent>, online: bool, day: string, k: string)
    requires ExistingKeysSpec(env, events, online, day).Ok?
    requires k in ExistingKeysSpec(env, events, online, day).value
    ensures exists e :: e in events && k in RecordKeys(env, day, ReadingOf(MatchRowOf(e.payload)))
                        && Store.InDayRange(e, BackfillRange.UtcRangeForEtDay(env, day).value.start,
                                            BackfillRange.UtcRangeForEtDay(env, day).value.end)
  {
    var range := BackfillRange.UtcRangeForEtDay(env, day).value;
    var inRange := Store.DayRange(events, range.start, range.end);
    var rows := MatchRows(inRange);
    KeysOfRowsUnion(env, day, rows, |rows|, k);
    var i :| 0 <= i < |rows| && k in RecordKeys(env, day, ReadingOf(rows[i]));
    assert inRange[i] in inRange;
  }

  /** The index starts empty and grows by one record's keys per row. */
  lemma KeysOfRowsStep(env: Eastern.Oracles, day: string, rows: seq<ExistingMatchRow>, n: nat)
    requires n <= |rows|
    ensures KeysOfRows(env, day, rows, 0) == {}
    ensures n < |rows| ==> KeysOfRows(env, day, rows, n + 1) == KeysOfRows(env, day, rows, n) + RecordKeys(env, day, ReadingOf(rows[n]))
  {
  }

  /** The body of the indexing loop for one record: the tests in order, then the keys it adds. */
  method AddRecordKeys(env: Eastern.Oracles, day: string, x: Reading, keys: set<string>) returns (keys': set<string>)
    ensures keys' == keys + RecordKeys(env, day, x)
  {
    hide MatchKey, FallbackKey, UltraKey, MoneyKey, Eastern.EtDay, RecordKeys;
    if x.itemSold == "" || x.dateText == "" {
      RecordKeysNone(env, day, x);
      return keys;
    }
    var parsed := env.parseDate(x.dateText);
    if parsed.None? {
      RecordKeysNone(env, day, x);
      return keys;
    }
    var t := parsed.value;
    if Eastern.EtDay(env, t) != day {
      RecordKeysNone(env, day, x);
      return keys;
    }
    RecordKeysOn(env, day, x, t);
    keys' := keys;
    if x.customerName != "" || x.providerName != "" {
      keys' := keys' + {MatchKey(env, day, t, x.itemSold, x.amountDue, x.tip, x.customerName, x.providerName)};
    }
    keys' := keys' + {FallbackKey(env, day, t, x.itemSold, x.amountDue, x.tip)};
    if MoneyKey(x.amountDue) == "0.00" || MoneyKey(x.tip) == "0.00" {
      keys' := keys' + {UltraKey(env, day, t, x.itemSold)};
    }
  }

  /** `getExistingMatchKeysForDay`: one pass over the day's events, adding each record's keys. */
  method ExistingMatchKeysForDay(env: Eastern.Oracles, store: Store.EventStore, day: string)
    returns (r: Result<set<string>, string>)
    ensures r == ExistingKeysSpec(env, store.events, store.online, day)
  {
    hide ReadingOf, BackfillRange.UtcRangeForEtDay, BackfillRange.DayComponents, BackfillRange.GuessOf,
         BackfillRange.FromMidnight, MatchRowOf, KeysOfRows, RecordKeys;
    var range := BackfillRange.UtcRangeForEtDay(env, day);
    if range.Err? {
      return Err(range.error);
    }
    var query := store.QueryDayRange(range.value.start, range.value.end);
    if query.Err? {
      return Err(query.error);
    }
    var rows := MatchRows(query.value);
    var keys: set<string> := {};
    var i := 0;
    KeysOfRowsStep(env, day, rows, 0);
    while i < |rows|
      invariant 0 <= i <= |rows|
      invariant keys == KeysOfRows(env, day, rows, i)
    {
      KeysOfRowsStep(env, day, rows, i);
      keys := AddRecordKeys(env, day, ReadingOf(rows[i]), keys);
      i := i + 1;
    }
    r := Ok(keys);
  }
}
