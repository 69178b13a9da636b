/**
 * JavaScript values as they reach this system: JSON payloads, query
 * parameters and command-line text.  Numbers are exact rationals (`real`);
 * the rounding error of IEEE doubles is not modelled.
 */
module Js {
  import opened Wrappers
  import opened Text

  /** A JavaScript number. */
  datatype Number = Finite(value: real) | NaN | Infinity(negative: bool)

  /** A JSON value, or `undefined` for an absent property. */
  datatype Value =
    | Undefined
    | Null
    | Bool(b: bool)
    | Num(n: Number)
    | Str(s: string)
    | Arr(items: seq<Value>)
    | Obj(fields: map<string, Value>)

  predicate IsNullish(v: Value) {
    v.Undefined? || v.Null?
  }

  /** `a ?? b`. */
  function Coalesce(a: Value, b: Value): Value {
    if IsNullish(a) then b else a
  }

  /** `v[key]` (absent properties and non-objects give `undefined`). */
  function Get(v: Value, key: string): Value {
    if v.Obj? && key in v.fields then v.fields[key] else Undefined
  }

  /** JavaScript truthiness. */
  predicate Truthy(v: Value) {
    match v
    case Undefined => false
    case Null => false
    case Bool(b) => b
    case Num(n) => n.Infinity? || (n.Finite? && n.value != 0.0)
    case Str(s) => s != ""
    case Arr(_) => true
    case Obj(_) => true
  }

  function Negate(n: Number): Number {
    match n
    case Finite(x) => Finite(-x)
    case NaN => NaN
    case Infinity(neg) => Infinity(!neg)
  }

  /** `a + b` on JavaScript numbers. */
  function Add(a: Number, b: Number): (r: Number)
    ensures a.Finite? && b.Finite? ==> r == Finite(a.value + b.value)
    ensures a.NaN? || b.NaN? ==> r.NaN?
  {
    match (a, b)
    case (Finite(x), Finite(y)) => Finite(x + y)
    case (Infinity(m), Infinity(n)) => if m == n then a else NaN
    case (Infinity(_), Finite(_)) => a
    case (Finite(_), Infinity(_)) => b
    case _ => NaN
  }

  /** `a - b` on JavaScript numbers. */
  function Sub(a: Number, b: Number): (r: Number)
    ensures a.Finite? && b.Finite? ==> r == Finite(a.value - b.value)
  {
    Add(a, Negate(b))
  }

  /** `x * 10^e`. */
  function Scale10(x: real, e: int): (r: real)
    ensures x >= 0.0 ==> r >= 0.0
    decreases if e < 0 then -e else e
  {
    if e == 0 then x
    else if e > 0 then Scale10(x * 10.0, e - 1)
    else Scale10(x / 10.0, e + 1)
  }

  /** `x * 10^k`, one factor of ten at a time. */
  function Shift10(x: real, k: nat): (r: real)
    ensures x >= 0.0 ==> r >= 0.0
  {
    if k == 0 then x else Shift10(x, k - 1) * 10.0
  }

  /** `x / 10^k`, one factor of ten at a time. */
  function Unshift10(x: real, k: nat): (r: real)
    ensures x >= 0.0 ==> r >= 0.0
  {
    if k == 0 then x else Unshift10(x, k - 1) / 10.0
  }

  /** The number `whole.frac` denotes. */
  function DecimalValue(whole: string, frac: string): real
    requires AllDigits(whole) && AllDigits(frac)
  {
    DigitsValue(whole) as real + Unshift10(DigitsValue(frac) as real, |frac|)
  }

  /** Value of `digits[.digits]` or `.digits` (at least one digit). */
  function MantissaValue(m: string): Option<real> {
    var dot := IndexOf(m, '.');
    var whole := m[..dot];
    var frac := if dot < |m| then m[dot + 1..] else "";
    if AllDigits(whole) && AllDigits(frac) && |whole| + |frac| >= 1 then
      Some(DecimalValue(whole, frac))
    else None
  }

  /** Value of an exponent `[+|-]digits`. */
  function ExponentValue(x: string): Option<int> {
    if x != [] && (x[0] == '+' || x[0] == '-') then
      var d := x[1..];
      if d != [] && AllDigits(d) then Some(if x[0] == '-' then -(DigitsValue(d) as int) else DigitsValue(d) as int)
      else None
    else if x != [] && AllDigits(x) then Some(DigitsValue(x))
    else None
  }

  /** An unsigned decimal literal with an optional exponent part. */
  function UnsignedDecimal(u: string): Option<real> {
    var e := if IndexOf(u, 'e') < |u| then IndexOf(u, 'e') else IndexOf(u, 'E');
    var mantissa := MantissaValue(u[..e]);
    if e == |u| then mantissa
    else
      match (mantissa, ExponentValue(u[e + 1..]))
      case (Some(m), Some(k)) => Some(Scale10(m, k))
      case _ => None
  }

  function UnsignedNumber(u: string): Number {
    if u == "Infinity" then Infinity(false)
    else
      match UnsignedDecimal(u)
      case Some(x) => Finite(x)
      case None => NaN
  }

  /** The base a `0x`, `0o` or `0b` prefix (either case) selects, or 0 without one. */
  function RadixOf(t: string): nat {
    if |t| >= 2 && t[0] == '0' then
      if t[1] == 'x' || t[1] == 'X' then 16
      else if t[1] == 'o' || t[1] == 'O' then 8
      else if t[1] == 'b' || t[1] == 'B' then 2
      else 0
    else 0
  }

  /** The value of one hexadecimal digit (either case), or -1 for any other character. */
  function HexDigitValue(c: char): (r: int)
    ensures -1 <= r < 16
  {
    if IsDigit(c) then c as int - '0' as int
    else if 'a' <= c <= 'f' then c as int - 'a' as int + 10
    else if 'A' <= c <= 'F' then c as int - 'A' as int + 10
    else -1
  }

  /** Every character is a digit of the base. */
  predicate AllRadixDigits(d: string, base: nat) {
    forall i :: 0 <= i < |d| ==> 0 <= HexDigitValue(d[i]) < base
  }

  /** The number the digits denote in the base. */
  function RadixValue(d: string, base: nat): nat
    requires AllRadixDigits(d, base)
  {
    if d == [] then 0 else RadixValue(d[..|d| - 1], base) * base + HexDigitValue(d[|d| - 1])
  }

  /** An unsigned `0x`/`0o`/`0b` literal: at least one digit of its base, else NaN. */
  function RadixNumber(t: string): Number
    requires RadixOf(t) != 0
  {
    var d := t[2..];
    if d != [] && AllRadixDigits(d, RadixOf(t)) then Finite(RadixValue(d, RadixOf(t)) as real) else NaN
  }

  /**
   * `Number(s)` for a string: white space around the text is ignored, the
   * empty string is 0, an unsigned `0x`, `0o` or `0b` literal is read in its
   * base, and anything else that is not a signed decimal literal or
   * `Infinity` is NaN (so a signed hexadecimal literal is NaN).
   */
  function ParseNumber(s: string): Number {
    var t := Trim(s);
    if t == [] then Finite(0.0)
    else if RadixOf(t) != 0 then RadixNumber(t)
    else if t[0] == '-' then Negate(UnsignedNumber(t[1..]))
    else if t[0] == '+' then UnsignedNumber(t[1..])
    else UnsignedNumber(t)
  }

  predicate IsIntegral(x: real) {
    x == x.Floor as real
  }

  /** `k` fraction digits write `x` exactly. */
  predicate ExactAt(x: real, k: nat) {
    IsIntegral(Shift10(x, k))
  }

  /** Fewest fraction digits (at most 20) that write `x` exactly. */
  function FractionDigits(x: real, k: nat): (r: nat)
    ensures k <= r && (k <= 20 ==> r <= 20)
    ensures r < 20 ==> ExactAt(x, r)
    decreases 20 - k
  {
    if k >= 20 || ExactAt(x, k) then k else FractionDigits(x, k + 1)
  }

  /** `scaled / 10^k` written in plain decimal notation with exactly `k` fraction digits. */
  function DecimalText(scaled: nat, k: nat): string {
    if k == 0 then NatToString(scaled)
    else
      var digits := PadStart(NatToString(scaled), k + 1, '0');
      digits[..|digits| - k] + "." + digits[|digits| - k..]
  }

  /** `String(x)` for a finite number, in plain decimal notation. */
  function NumberToString(x: real): string
    decreases if x < 0.0 then 1 else 0
  {
    if x < 0.0 then "-" + NumberToString(-x)
    else
      var k := FractionDigits(x, 0);
      DecimalText(Shift10(x, k).Floor, k)
  }

  /** Numbers with at most 20 fraction digits: every amount a spreadsheet cell holds. */
  predicate IsShortDecimal(x: real) {
    ExactAt(x, 20)
  }

  /** `String(v)`. */
  function ToStr(v: Value): string {
    match v
    case Undefined => "undefined"
    case Null => "null"
    case Bool(b) => if b then "true" else "false"
    case Num(n) =>
      (match n
       case Finite(x) => NumberToString(x)
       case NaN => "NaN"
       case Infinity(neg) => if neg then "-Infinity" else "Infinity")
    case Str(s) => s
    case Arr(items) => JoinItems(items)
    case Obj(_) => "[object Object]"
  }

  /** `Array.prototype.join(",")`: `null` and `undefined` elements print as "". */
  function JoinItems(items: seq<Value>): string
    decreases items
  {
    if items == [] then ""
    else
      var first := if IsNullish(items[0]) then "" else ToStr(items[0]);
      if |items| == 1 then first else first + "," + JoinItems(items[1..])
  }

  /** `Number(v)`. */
  function ToNumber(v: Value): Number {
    match v
    case Undefined => NaN
    case Null => Finite(0.0)
    case Bool(b) => Finite(if b then 1.0 else 0.0)
    case Num(n) => n
    case Str(s) => ParseNumber(s)
    case Arr(_) => ParseNumber(ToStr(v))
    case Obj(_) => NaN
  }

  /** `Math.round`: the nearest integer, halves rounded up. */
  function RoundHalfUp(x: real): (r: int)
    ensures x - 0.5 < r as real <= x + 0.5
  {
    (x + 0.5).Floor
  }

  /** `Math.round(x * 100)`: an amount in whole cents. */
  function Cents(x: real): int {
    RoundHalfUp(x * 100.0)
  }

  /** `(c / 100).toFixed(2)`. */
  function FormatCents(c: int): string {
    SignedDecimalText(c, 2)
  }

  /** `c / 10^k` in plain decimal notation with exactly `k` fraction digits. */
  function SignedDecimalText(c: int, k: nat): string {
    if c < 0 then "-" + DecimalText(-c, k) else DecimalText(c, k)
  }

  /** ToIntegerOrInfinity on a finite number: truncation toward zero. */
  function Trunc(x: real): (r: int)
    ensures x >= 0.0 ==> 0.0 <= r as real <= x < r as real + 1.0
    ensures x < 0.0 ==> x <= r as real <= 0.0 && r as real - 1.0 < x
  {
    if x >= 0.0 then x.Floor else -((-x).Floor)
  }

  // ---- Rendering numbers and reading them back -------------------------------

  lemma UnsignedDecimalPlain(u: string)
    requires 'e' !in u && 'E' !in u
    ensures UnsignedDecimal(u) == MantissaValue(u)
  {
    assert u[..|u|] == u;
  }

  lemma MantissaOfDigits(w: string)
    requires |w| >= 1 && AllDigits(w)
    ensures MantissaValue(w) == Some(DigitsValue(w) as real)
  {
    assert '.' !in w;
    IndexOfAbsent(w, '.');
    assert w[..|w|] == w;
    assert DecimalValue(w, "") == DigitsValue(w) as real;
  }

  lemma MantissaOfDotted(w: string, f: string)
    requires |w| >= 1 && AllDigits(w) && AllDigits(f)
    ensures MantissaValue(w + "." + f) == Some(DecimalValue(w, f))
  {
    var m := w + "." + f;
    assert '.' !in w;
    IndexOfAfter(w, '.', f);
    assert m[..|w|] == w && m[|w| + 1..] == f;
  }

  lemma DottedShape(w: string, f: string)
    requires |w| >= 1 && |f| >= 1 && AllDigits(w) && AllDigits(f)
    ensures var t := w + "." + f;
            IsDigit(t[0]) && IsDigit(t[|t| - 1]) && 'e' !in t && 'E' !in t
  {
    assert 'e' !in w && 'E' !in w && 'e' !in f && 'E' !in f;
  }

  lemma DecimalTextShape(scaled: nat, k: nat)
    ensures var t := DecimalText(scaled, k);
            t != [] && IsDigit(t[0]) && IsDigit(t[|t| - 1]) && 'e' !in t && 'E' !in t
  {
    if k > 0 {
      var w, f := PaddedSplit(scaled, k);
      DottedShape(w, f);
    } else {
      var n := NatToString(scaled);
      assert 'e' !in n && 'E' !in n;
    }
  }

  lemma {:induction false} UnshiftAdd(a: real, b: real, k: nat)
    ensures Unshift10(a + b, k) == Unshift10(a, k) + Unshift10(b, k)
  {
    if k > 0 { UnshiftAdd(a, b, k - 1); }
  }

  lemma {:induction false} UnshiftTimesTen(a: real, k: nat)
    ensures Unshift10(a * 10.0, k) == Unshift10(a, k) * 10.0
  {
    if k > 0 { UnshiftTimesTen(a, k - 1); }
  }

  lemma {:induction false} UnshiftShift(a: real, k: nat)
    ensures Unshift10(Shift10(a, k), k) == a
  {
    if k > 0 {
      UnshiftShift(a, k - 1);
      UnshiftTimesTen(Shift10(a, k - 1), k - 1);
    }
  }

  lemma {:induction false} IntShift(n: nat, k: nat)
    ensures (n * Pow10(k)) as real == Shift10(n as real, k)
  {
    if k > 0 {
      IntShift(n, k - 1);
      assert n * Pow10(k) == (n * Pow10(k - 1)) * 10;
    }
  }

  /** `w + f / 10^k` read as one number of `k` fraction digits. */
  lemma RealShift(w: nat, f: nat, k: nat)
    ensures w as real + Unshift10(f as real, k) == Unshift10((w * Pow10(k) + f) as real, k)
  {
    IntShift(w, k);
    UnshiftAdd(Shift10(w as real, k), f as real, k);
    UnshiftShift(w as real, k);
  }

  lemma SplitAt(digits: string, cut: nat)
    requires cut <= |digits|
    ensures digits == digits[..cut] + digits[cut..]
  {
  }

  lemma AllDigitsSplit(s: string, cut: nat)
    requires cut <= |s| && AllDigits(s)
    ensures AllDigits(s[..cut]) && AllDigits(s[cut..])
  {
  }

  /** The zero-padded digits of `scaled`, cut `k` places from the end. */
  lemma PaddedSplit(scaled: nat, k: nat) returns (w: string, f: string)
    requires k > 0
    ensures |w| >= 1 && |f| == k && AllDigits(w) && AllDigits(f)
    ensures DecimalText(scaled, k) == w + "." + f
    ensures DigitsValue(w) * Pow10(k) + DigitsValue(f) == scaled
  {
    hide PadStart, DigitsValue, AllDigits, Pow10;
    var n := NatToString(scaled);
    var digits := PadStart(n, k + 1, '0');
    ZeroPadValue(n, k + 1);
    var cut := |digits| - k;
    w, f := digits[..cut], digits[cut..];
    SplitAt(digits, cut);
    NatToStringValue(scaled);
    assert DigitsValue(w + f) == scaled;
    DigitsValueAppend(w, f);
    AllDigitsSplit(digits, cut);
  }

  lemma DottedValue(scaled: nat, k: nat)
    requires k > 0
    ensures MantissaValue(DecimalText(scaled, k)) == Some(Unshift10(scaled as real, k))
  {
    var w, f := PaddedSplit(scaled, k);
    MantissaOfDotted(w, f);
    RealShift(DigitsValue(w), DigitsValue(f), k);
  }

  /** The text DecimalText writes reads back as the number it stands for. */
  lemma DecimalTextValue(scaled: nat, k: nat)
    ensures UnsignedDecimal(DecimalText(scaled, k)) == Some(Unshift10(scaled as real, k))
  {
    DecimalTextShape(scaled, k);
    UnsignedDecimalPlain(DecimalText(scaled, k));
    if k == 0 {
      NatToStringValue(scaled);
      MantissaOfDigits(NatToString(scaled));
    } else {
      DottedValue(scaled, k);
    }
  }

  /** A text with a `0x`, `0o` or `0b` prefix is not a decimal literal. */
  lemma RadixNotDecimal(u: string)
    ensures RadixOf(u) == 0 || UnsignedDecimal(u).None?
  {
    hide DecimalValue, ExponentValue, Scale10;
    if RadixOf(u) != 0 {
      var e := if IndexOf(u, 'e') < |u| then IndexOf(u, 'e') else IndexOf(u, 'E');
      assert e >= 2;
      var m := u[..e];
      var dot := IndexOf(m, '.');
      assert dot >= 2;
      assert !IsDigit(m[..dot][1]);
      assert MantissaValue(m).None?;
    }
  }

  lemma ParseUnsignedText(t: string, x: real)
    requires t != [] && IsDigit(t[0]) && IsDigit(t[|t| - 1])
    requires UnsignedDecimal(t) == Some(x)
    ensures ParseNumber(t) == Finite(x)
    ensures ParseNumber("-" + t) == Finite(-x)
  {
    hide Trim, UnsignedDecimal, RadixNumber, AllRadixDigits, RadixValue, HexDigitValue, MantissaValue, ExponentValue;
    RadixNotDecimal(t);
    TrimUnchanged(t);
    assert UnsignedNumber(t) == Finite(x) by {
      assert t != "Infinity";
    }
    var s := "-" + t;
    TrimUnchanged(s);
    assert s[0] == '-' && s[1..] == t;
    assert RadixOf(s) == 0;
  }

  /** The base the letter after a leading `0` selects: `x` 16, `o` 8, `b` 2 (either case), else 0. */
  function RadixLetter(c: char): nat {
    if c == 'x' || c == 'X' then 16 else if c == 'o' || c == 'O' then 8 else if c == 'b' || c == 'B' then 2 else 0
  }

  /**
   * `Number("0x…")`, `Number("0o…")`, `Number("0b…")`: the digits after the
   * prefix are read in its base, and the text is NaN when there is no digit
   * or one outside the base.
   */
  lemma ParseRadixText(c: char, d: string)
    requires RadixLetter(c) != 0
    requires d == [] || !IsSpace(d[|d| - 1])
    ensures ParseNumber("0" + [c] + d)
            == if d != [] && AllRadixDigits(d, RadixLetter(c)) then Finite(RadixValue(d, RadixLetter(c)) as real) else NaN
  {
    RadixTextShape(c, d);
    hide Trim, UnsignedDecimal, UnsignedNumber, AllRadixDigits, RadixValue;
  }

  lemma RadixTextShape(c: char, d: string)
    requires RadixLetter(c) != 0
    requires d == [] || !IsSpace(d[|d| - 1])
    ensures Trim("0" + [c] + d) == "0" + [c] + d
    ensures RadixOf("0" + [c] + d) == RadixLetter(c) && ("0" + [c] + d)[2..] == d
  {
    var t := "0" + [c] + d;
    assert |t| == |d| + 2 && t[0] == '0' && t[1] == c && t[2..] == d;
    assert !IsSpace(t[|t| - 1]);
    TrimUnchanged(t);
  }

  /** A radix literal with a sign is NaN: `Number("-0x1A")` and `Number("+0x1A")` are not numbers. */
  lemma SignedRadixIsNaN(sign: char, c: char, d: string)
    requires sign == '-' || sign == '+'
    requires RadixLetter(c) != 0
    requires d == [] || !IsSpace(d[|d| - 1])
    ensures ParseNumber([sign] + "0" + [c] + d).NaN?
  {
    hide Trim, UnsignedDecimal, AllRadixDigits, RadixValue, RadixNumber, UnsignedNumber;
    var u := "0" + [c] + d;
    RadixUnsignedNaN(c, d);
    var t := [sign] + u;
    assert t[0] == sign && t[1..] == u && t[|t| - 1] == u[|u| - 1];
    TrimUnchanged(t);
    assert RadixOf(t) == 0;
    assert [sign] + "0" + [c] + d == t;
  }

  /** Behind a sign, a radix literal is read as a decimal one, which it is not. */
  lemma RadixUnsignedNaN(c: char, d: string)
    requires RadixLetter(c) != 0
    requires d == [] || !IsSpace(d[|d| - 1])
    ensures UnsignedNumber("0" + [c] + d).NaN?
  {
    hide Trim, UnsignedDecimal;
    var u := "0" + [c] + d;
    RadixTextShape(c, d);
    RadixNotDecimal(u);
    assert u != "Infinity" by {
      assert u[0] == '0';
    }
  }

  /** Two digits in a base. */
  lemma RadixTwoDigits(a: char, b: char, base: nat)
    requires AllRadixDigits([a, b], base)
    ensures RadixValue([a, b], base) == HexDigitValue(a) * base + HexDigitValue(b)
  {
    assert 0 <= HexDigitValue(a) < base by {
      assert [a, b][0] == a;
    }
    RadixOneDigit(a, base);
    assert [a, b][..1] == [a];
  }

  /** One digit in a base. */
  lemma RadixOneDigit(a: char, base: nat)
    requires AllRadixDigits([a], base)
    ensures RadixValue([a], base) == HexDigitValue(a)
  {
    assert [a][..0] == [];
  }

  /** `Number("0x1")` is 1. */
  lemma HexDigitExample()
    ensures ParseNumber("0x1") == Finite(1.0)
  {
    hide Trim, UnsignedDecimal, UnsignedNumber, RadixValue;
    ParseRadixText('x', "1");
    assert "0x1" == "0" + ['x'] + "1";
    assert "1" == ['1'];
    RadixOneDigit('1', 16);
  }

  /** `Number("0x1A")` is 26. */
  lemma HexExample()
    ensures ParseNumber("0x1A") == Finite(26.0)
  {
    hide Trim, UnsignedDecimal, UnsignedNumber, RadixValue;
    ParseRadixText('x', "1A");
    assert "0x1A" == "0" + ['x'] + "1A";
    assert "1A" == ['1', 'A'];
    RadixTwoDigits('1', 'A', 16);
  }

  /** `Number("0o17")` is 15. */
  lemma OctalExample()
    ensures ParseNumber("0o17") == Finite(15.0)
  {
    hide Trim, UnsignedDecimal, UnsignedNumber, RadixValue;
    ParseRadixText('o', "17");
    assert "0o17" == "0" + ['o'] + "17";
    assert "17" == ['1', '7'];
    RadixTwoDigits('1', '7', 8);
  }

  /** `Number("0b11")` is 3. */
  lemma BinaryExample()
    ensures ParseNumber("0b11") == Finite(3.0)
  {
    hide Trim, UnsignedDecimal, UnsignedNumber, RadixValue;
    ParseRadixText('b', "11");
    assert "0b11" == "0" + ['b'] + "11";
    assert "11" == ['1', '1'];
    RadixTwoDigits('1', '1', 2);
  }

  /** An unsigned literal denotes a number that is not negative. */
  lemma UnsignedNonNegative(u: string)
    requires UnsignedNumber(u).Finite?
    ensures UnsignedNumber(u).value >= 0.0
  {
    var e := if IndexOf(u, 'e') < |u| then IndexOf(u, 'e') else IndexOf(u, 'E');
    var m := u[..e];
    var dot := IndexOf(m, '.');
    var frac := if dot < |m| then m[dot + 1..] else "";
    if AllDigits(m[..dot]) && AllDigits(frac) {
      assert DecimalValue(m[..dot], frac) >= 0.0;
    }
  }

  /** A finite number read from text without a minus sign is not negative. */
  lemma ParseUnsigned(s: string)
    requires '-' !in s && ParseNumber(s).Finite?
    ensures ParseNumber(s).value >= 0.0
  {
    var t := Trim(s);
    TrimOmits(s, '-');
    if t != [] && RadixOf(t) == 0 {
      assert t[0] != '-';
      if t[0] == '+' {
        UnsignedNonNegative(t[1..]);
      } else {
        UnsignedNonNegative(t);
      }
    }
  }

  /** `Number` of a string of digits is the number the digits denote. */
  lemma ParseDigits(w: string)
    requires |w| >= 1 && AllDigits(w)
    ensures ParseNumber(w) == Finite(DigitsValue(w) as real)
  {
    MantissaOfDigits(w);
    assert 'e' !in w && 'E' !in w;
    UnsignedDecimalPlain(w);
    ParseUnsignedText(w, DigitsValue(w) as real);
  }

  lemma {:induction false} UnshiftNegated(x: real, k: nat)
    ensures Unshift10(-x, k) == -Unshift10(x, k)
  {
    if k > 0 { UnshiftNegated(x, k - 1); }
  }

  lemma ParseDecimalText(a: nat, k: nat)
    ensures ParseNumber(DecimalText(a, k)) == Finite(Unshift10(a as real, k))
    ensures ParseNumber("-" + DecimalText(a, k)) == Finite(-Unshift10(a as real, k))
  {
    DecimalTextShape(a, k);
    DecimalTextValue(a, k);
    ParseUnsignedText(DecimalText(a, k), Unshift10(a as real, k));
  }

  /** A signed integer written with `k` fraction digits reads back as itself over `10^k`. */
  lemma ParseSignedDecimal(c: int, k: nat)
    ensures ParseNumber(SignedDecimalText(c, k)) == Finite(Unshift10(c as real, k))
  {
    hide ParseNumber, DecimalText, Unshift10, UnsignedDecimal;
    if c < 0 {
      var a: nat := -c;
      UnshiftNegated(a as real, k);
      assert c as real == -(a as real);
      assert Unshift10(c as real, k) == -Unshift10(a as real, k);
      assert SignedDecimalText(c, k) == "-" + DecimalText(a, k);
      ParseDecimalText(a, k);
    } else {
      ParseDecimalText(c, k);
    }
  }

  /** `Number((c / 100).toFixed(2))` is `c / 100`: a money key reads back as its amount. */
  lemma ParseFormatCents(c: int)
    ensures ParseNumber(FormatCents(c)) == Finite(c as real / 100.0)
  {
    var k := 2;
    ParseSignedDecimal(c, k);
    assert Unshift10(c as real, 1) == c as real / 10.0;
  }

  lemma {:induction false} ShiftNegated(x: real, k: nat)
    ensures Shift10(-x, k) == -Shift10(x, k)
  {
    if k > 0 { ShiftNegated(x, k - 1); }
  }

  lemma ExactAtNegated(x: real, k: nat)
    requires ExactAt(x, k)
    ensures ExactAt(-x, k)
  {
    ShiftNegated(x, k);
    var n := Shift10(x, k).Floor;
    assert Shift10(-x, k) == (-n) as real;
  }

  /** A short decimal written by `String(x)` reads back as `x`. */
  lemma ParseNumberToString(x: real)
    requires IsShortDecimal(x)
    ensures ParseNumber(NumberToString(x)) == Finite(x)
  {
    var a := if x < 0.0 then -x else x;
    if x < 0.0 { ExactAtNegated(x, 20); }
    assert ExactAt(a, 20);
    var k := FractionDigits(a, 0);
    assert ExactAt(a, k);
    var scaled: nat := Shift10(a, k).Floor;
    assert scaled as real == Shift10(a, k);
    UnshiftShift(a, k);
    var t := DecimalText(scaled, k);
    DecimalTextShape(scaled, k);
    DecimalTextValue(scaled, k);
    ParseUnsignedText(t, a);
    if x < 0.0 {
      assert NumberToString(x) == "-" + t;
    } else {
      assert NumberToString(x) == t;
    }
  }

  /** An HTTP response: its status and JSON body. */
  datatype Reply = Reply(status: int, body: Value)

  function ErrorBody(message: string): Value {
    Obj(map["error" := Str(message)])
  }
}
