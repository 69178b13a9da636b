/**
 * Normalisation and the three tiers of match keys the December 2025
 * backfill uses to recognise a spreadsheet row among the stored events:
 *
 *   strict:   day | minute | service | amount | tip | customer | provider
 *   fallback: day | minute | service | amount | tip
 *   ultra:    day | minute | service
 */
module BackfillKeys {
  import opened Wrappers
  import opened Text
  import opened Js
  import Eastern
  import Sheet

  predicate IsServiceKeep(c: char) { IsLowerAlpha(c) || IsDigit(c) || IsSpace(c) }
  predicate IsPersonKeep(c: char) { IsLowerAlpha(c) || IsSpace(c) }

  /** Lower-cased, trimmed, white space collapsed to single blanks: the common first steps. */
  function Squash(value: string): (r: string)
    ensures forall i :: 0 <= i < |r| && IsSpace(r[i]) ==> r[i] == ' '
  {
    CollapseSpaces(Lower(Trim(value)))
  }

  /** `normalizeServiceName`: only a-z, 0-9 and blanks survive. */
  function NormalizeServiceName(value: string): (r: string)
    ensures |r| <= |value|
    ensures forall i :: 0 <= i < |r| ==> IsLowerAlpha(r[i]) || IsDigit(r[i]) || r[i] == ' '
  {
    KeptAlphabet(value, IsServiceKeep);
    Keep(Squash(value), IsServiceKeep)
  }

  /** `normalizePersonName`: only a-z and blanks survive. */
  function NormalizePersonName(value: string): (r: string)
    ensures |r| <= |value|
    ensures forall i :: 0 <= i < |r| ==> IsLowerAlpha(r[i]) || r[i] == ' '
  {
    KeptAlphabet(value, IsPersonKeep);
    Keep(Squash(value), IsPersonKeep)
  }

  lemma PersonNameIs(value: string)
    ensures NormalizePersonName(value) == Keep(Squash(value), IsPersonKeep)
  {
  }

  /** What survives the squashing and the filter is kept by the filter and is no white space but a blank. */
  lemma KeptAlphabet(value: string, keep: char -> bool)
    ensures var r := Keep(Squash(value), keep);
            |r| <= |value| && forall i :: 0 <= i < |r| ==> keep(r[i]) && (IsSpace(r[i]) ==> r[i] == ' ')
  {
    var s := Squash(value);
    var r := Keep(s, keep);
    CollapseShorter(Lower(Trim(value)));
    forall i | 0 <= i < |r| ensures IsSpace(r[i]) ==> r[i] == ' ' {
      var j :| 0 <= j < |s| && s[j] == r[i];
    }
  }

  lemma {:induction false} CollapseShorter(s: string)
    ensures |CollapseSpaces(s)| <= |s|
    decreases |s|
  {
    if s != [] {
      if IsSpace(s[0]) {
        CollapseShorter(TrimStart(s));
      } else {
        CollapseShorter(s[1..]);
      }
    }
  }

  /** `moneyKey`: the amount rounded to the cent with two decimals; "0.00" when not finite. */
  function MoneyKey(n: Number): (r: string)
    ensures !n.Finite? ==> r == "0.00"
  {
    if n.Finite? then FormatCents(Cents(n.value)) else "0.00"
  }

  /** A money key reads back as the amount rounded to the cent. */
  lemma MoneyKeyValue(n: Number)
    requires n.Finite?
    ensures ParseNumber(MoneyKey(n)) == Finite(Cents(n.value) as real / 100.0)
  {
    ParseFormatCents(Cents(n.value));
  }

  /** A money key is a numeral: digits, one dot, perhaps a minus sign. */
  lemma MoneyKeyHasNoBar(n: Number)
    ensures '|' !in MoneyKey(n)
  {
    if n.Finite? {
      var c := Cents(n.value);
      var k := 2;
      var a: nat := if c < 0 then -c else c;
      Sheet.DecimalTextChars(a, k);
      assert '|' !in DecimalText(a, k);
      assert SignedDecimalText(c, k) == if c < 0 then "-" + DecimalText(a, k) else DecimalText(a, k);
    }
  }

  /** The money key is "0.00" exactly for non-finite amounts and amounts that round to zero cents. */
  lemma MoneyKeyZero(n: Number)
    ensures MoneyKey(n) == "0.00" <==> !n.Finite? || Cents(n.value) == 0
  {
    hide ParseNumber, FormatCents, Cents;
    if n.Finite? {
      var c := Cents(n.value);
      ParseFormatCents(0);
      var z := FormatCents(0);
      ZeroCentsText();
      assert MoneyKey(n) == FormatCents(c);
      if MoneyKey(n) == "0.00" {
        ParseFormatCents(c);
        assert ParseNumber(FormatCents(c)) == ParseNumber(z);
      }
    }
  }

  /** Two finite amounts have the same money key exactly when they round to the same cents. */
  lemma MoneyKeyCents(a: real, b: real)
    ensures MoneyKey(Finite(a)) == MoneyKey(Finite(b)) <==> Cents(a) == Cents(b)
  {
    if MoneyKey(Finite(a)) == MoneyKey(Finite(b)) {
      MoneyKeyValue(Finite(a));
      MoneyKeyValue(Finite(b));
    }
  }

  lemma ZeroCentsText()
    ensures FormatCents(0) == "0.00"
  {
    var k := 2;
    assert NatToString(0) == "0";
    assert PadStart("0", k + 1, '0') == "000";
    assert DecimalText(0, k) == "0.00";
  }

  /** The parts of a key never contain the separator. */
  predicate BarFree(parts: seq<string>) {
    forall i :: 0 <= i < |parts| ==> '|' !in parts[i]
  }

  /** The day, minute and service of an instant and a service name. */
  function UltraParts(env: Eastern.Oracles, day: string, t: int, itemSold: string): seq<string> {
    [day, Eastern.TimeKey(env, t), NormalizeServiceName(itemSold)]
  }

  function AmountParts(amountDue: Number, tip: Number): seq<string> {
    [MoneyKey(amountDue), MoneyKey(tip)]
  }

  function PersonParts(customerName: string, providerName: string): seq<string> {
    [NormalizePersonName(customerName), NormalizePersonName(providerName)]
  }

  /** `buildMatchKey`. */
  function MatchKey(env: Eastern.Oracles, day: string, t: int, itemSold: string, amountDue: Number, tip: Number,
                    customerName: string, providerName: string): string
  {
    Join(UltraParts(env, day, t, itemSold) + AmountParts(amountDue, tip) + PersonParts(customerName, providerName), "|")
  }

  /** `buildMatchKeyFallback`. */
  function FallbackKey(env: Eastern.Oracles, day: string, t: int, itemSold: string, amountDue: Number, tip: Number): string {
    Join(UltraParts(env, day, t, itemSold) + AmountParts(amountDue, tip), "|")
  }

  /** The ultra-fallback key `${day}|${time}|${service}`. */
  function UltraKey(env: Eastern.Oracles, day: string, t: int, itemSold: string): string {
    day + "|" + Eastern.TimeKey(env, t) + "|" + NormalizeServiceName(itemSold)
  }

  lemma UltraKeyIsJoin(env: Eastern.Oracles, day: string, t: int, itemSold: string)
    ensures UltraKey(env, day, t, itemSold) == Join(UltraParts(env, day, t, itemSold), "|")
  {
    var p := UltraParts(env, day, t, itemSold);
    assert p[1..][1..] == [p[2]];
    assert Join(p[1..], "|") == p[1] + "|" + p[2];
    assert Join(p, "|") == p[0] + "|" + (p[1] + "|" + p[2]);
  }

  /** Joining three, two and two parts with the separator, tier by tier. */
  lemma JoinTiers(u: seq<string>, a: seq<string>, p: seq<string>)
    requires |u| == 3 && |a| == 2 && |p| == 2
    ensures Join(u + a + p, "|") == Join(u + a, "|") + "|" + p[0] + "|" + p[1]
    ensures Join(u + a, "|") == Join(u, "|") + "|" + a[0] + "|" + a[1]
    ensures Join(u, "|") == u[0] + "|" + u[1] + "|" + u[2]
  {
    JoinAppend(u + a, p, "|");
    JoinAppend(u, a, "|");
    assert Join(p, "|") == p[0] + "|" + p[1] by { assert p[1..] == [p[1]]; }
    assert Join(a, "|") == a[0] + "|" + a[1] by { assert a[1..] == [a[1]]; }
    assert u[1..][1..] == [u[2]];
    assert Join(u[1..], "|") == u[1] + "|" + u[2];
  }

  /**
   * The tiers nest: the strict key is the fallback key followed by the
   * customer and provider, and the fallback key is the ultra key followed by
   * the amount and the tip.
   */
  lemma KeyTiers(env: Eastern.Oracles, day: string, t: int, itemSold: string, amountDue: Number, tip: Number,
                 customerName: string, providerName: string)
    ensures MatchKey(env, day, t, itemSold, amountDue, tip, customerName, providerName)
         == FallbackKey(env, day, t, itemSold, amountDue, tip) + "|" + NormalizePersonName(customerName)
            + "|" + NormalizePersonName(providerName)
    ensures FallbackKey(env, day, t, itemSold, amountDue, tip)
         == UltraKey(env, day, t, itemSold) + "|" + MoneyKey(amountDue) + "|" + MoneyKey(tip)
  {
    JoinTiers(UltraParts(env, day, t, itemSold), AmountParts(amountDue, tip), PersonParts(customerName, providerName));
  }

  /** Every part of a key is free of the separator, given a day that is. */
  lemma PartsBarFree(env: Eastern.Oracles, day: string, t: int, itemSold: string, amountDue: Number, tip: Number,
                     customerName: string, providerName: string)
    requires '|' !in day
    ensures BarFree(UltraParts(env, day, t, itemSold))
    ensures BarFree(UltraParts(env, day, t, itemSold) + AmountParts(amountDue, tip))
    ensures BarFree(UltraParts(env, day, t, itemSold) + AmountParts(amountDue, tip) + PersonParts(customerName, providerName))
  {
    MoneyKeyHasNoBar(amountDue);
    MoneyKeyHasNoBar(tip);
    ServiceHasNoBar(itemSold);
    PersonHasNoBar(customerName);
    PersonHasNoBar(providerName);
    BarFreeTiers(day, Eastern.TimeKey(env, t), NormalizeServiceName(itemSold), MoneyKey(amountDue), MoneyKey(tip),
                 NormalizePersonName(customerName), NormalizePersonName(providerName));
  }

  lemma BarFreeTiers(a: string, b: string, c: string, d: string, e: string, f: string, g: string)
    requires '|' !in a && '|' !in b && '|' !in c && '|' !in d && '|' !in e && '|' !in f && '|' !in g
    ensures BarFree([a, b, c]) && BarFree([a, b, c] + [d, e]) && BarFree([a, b, c] + [d, e] + [f, g])
  {
    BarFreeAppend([a, b, c], [d, e]);
    BarFreeAppend([a, b, c] + [d, e], [f, g]);
  }

  lemma BarFreeAppend(p: seq<string>, q: seq<string>)
    requires BarFree(p) && BarFree(q)
    ensures BarFree(p + q)
  {
    forall i | 0 <= i < |p + q| ensures '|' !in (p + q)[i] {
      if i >= |p| { assert (p + q)[i] == q[i - |p|]; }
    }
  }

  lemma ServiceHasNoBar(itemSold: string)
    ensures '|' !in NormalizeServiceName(itemSold)
  {
    var s := NormalizeServiceName(itemSold);
    assert forall i :: 0 <= i < |s| ==> s[i] != '|';
  }

  lemma PersonHasNoBar(name: string)
    ensures '|' !in NormalizePersonName(name)
  {
    var s := NormalizePersonName(name);
    assert forall i :: 0 <= i < |s| ==> s[i] != '|';
  }

  /** Equal strict keys for separator-free days have equal parts. */
  lemma MatchKeyInjective(env: Eastern.Oracles,
                          day1: string, t1: int, item1: string, amount1: Number, tip1: Number, cust1: string, prov1: string,
                          day2: string, t2: int, item2: string, amount2: Number, tip2: Number, cust2: string, prov2: string)
    requires '|' !in day1 && '|' !in day2
    requires MatchKey(env, day1, t1, item1, amount1, tip1, cust1, prov1) == MatchKey(env, day2, t2, item2, amount2, tip2, cust2, prov2)
    ensures UltraParts(env, day1, t1, item1) == UltraParts(env, day2, t2, item2)
    ensures AmountParts(amount1, tip1) == AmountParts(amount2, tip2)
    ensures PersonParts(cust1, prov1) == PersonParts(cust2, prov2)
  {
    hide MoneyKey, NormalizePersonName, NormalizeServiceName, Eastern.TimeKey, Join, BarFree;
    var p := UltraParts(env, day1, t1, item1) + AmountParts(amount1, tip1) + PersonParts(cust1, prov1);
    var q := UltraParts(env, day2, t2, item2) + AmountParts(amount2, tip2) + PersonParts(cust2, prov2);
    PartsBarFree(env, day1, t1, item1, amount1, tip1, cust1, prov1);
    PartsBarFree(env, day2, t2, item2, amount2, tip2, cust2, prov2);
    JoinInjective(p, q, '|');
    assert p[..3] == UltraParts(env, day1, t1, item1) && q[..3] == UltraParts(env, day2, t2, item2);
    assert p[3..5] == AmountParts(amount1, tip1) && q[3..5] == AmountParts(amount2, tip2);
    assert p[5..] == PersonParts(cust1, prov1) && q[5..] == PersonParts(cust2, prov2);
  }

  /** The number of separators tells the tiers apart: no key of one tier equals a key of another. */
  lemma TiersDistinct(env: Eastern.Oracles, day: string, t: int, itemSold: string, amountDue: Number, tip: Number,
                      customerName: string, providerName: string,
                      day2: string, t2: int, item2: string, amount2: Number, tip2: Number)
    requires '|' !in day && '|' !in day2
    ensures MatchKey(env, day, t, itemSold, amountDue, tip, customerName, providerName) != FallbackKey(env, day2, t2, item2, amount2, tip2)
    ensures MatchKey(env, day, t, itemSold, amountDue, tip, customerName, providerName) != UltraKey(env, day2, t2, item2)
    ensures FallbackKey(env, day, t, itemSold, amountDue, tip) != UltraKey(env, day2, t2, item2)
  {
    var s7 := UltraParts(env, day, t, itemSold) + AmountParts(amountDue, tip) + PersonParts(customerName, providerName);
    var f5 := UltraParts(env, day, t, itemSold) + AmountParts(amountDue, tip);
    var g5 := UltraParts(env, day2, t2, item2) + AmountParts(amount2, tip2);
    var u3 := UltraParts(env, day2, t2, item2);
    PartsBarFree(env, day, t, itemSold, amountDue, tip, customerName, providerName);
    PartsBarFree(env, day2, t2, item2, amount2, tip2, customerName, providerName);
    SplitJoin(s7, '|');
    SplitJoin(f5, '|');
    SplitJoin(g5, '|');
    SplitJoin(u3, '|');
    UltraKeyIsJoin(env, day2, t2, item2);
  }

  /** A separator-free part followed by the separator and a common tail is determined by the whole. */
  lemma BarPrefixInjective(a1: string, a2: string, tail: string)
    requires '|' !in a1 && '|' !in a2
    requires a1 + "|" + tail == a2 + "|" + tail
    ensures a1 == a2
  {
    var w1, w2 := a1 + "|" + tail, a2 + "|" + tail;
    assert a1 == w1[..|a1|] && a2 == w2[..|a2|];
  }

  /**
   * Keys of one instant and service that differ only in the amount agree
   * exactly when the amounts have the same money key.
   */
  lemma FallbackKeyAmounts(env: Eastern.Oracles, day: string, t: int, itemSold: string, a1: Number, a2: Number, tip: Number)
    ensures FallbackKey(env, day, t, itemSold, a1, tip) == FallbackKey(env, day, t, itemSold, a2, tip)
            <==> MoneyKey(a1) == MoneyKey(a2)
  {
    hide MatchKey, FallbackKey, UltraKey, MoneyKey, NormalizePersonName, NormalizeServiceName, Eastern.TimeKey, Join;
    var u := UltraKey(env, day, t, itemSold);
    KeyTiers(env, day, t, itemSold, a1, tip, "", "");
    KeyTiers(env, day, t, itemSold, a2, tip, "", "");
    MoneyKeyHasNoBar(a1);
    MoneyKeyHasNoBar(a2);
    var w1 := u + "|" + MoneyKey(a1) + "|" + MoneyKey(tip);
    var w2 := u + "|" + MoneyKey(a2) + "|" + MoneyKey(tip);
    if w1 == w2 {
      assert w1[|u| + 1..] == MoneyKey(a1) + "|" + MoneyKey(tip);
      assert w2[|u| + 1..] == MoneyKey(a2) + "|" + MoneyKey(tip);
      BarPrefixInjective(MoneyKey(a1), MoneyKey(a2), MoneyKey(tip));
    }
  }
}
