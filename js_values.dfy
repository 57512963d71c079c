/**
 * The part of JavaScript's value semantics that the chart scripts lean on when they read
 * CSV text: numbers that may be NaN, comparisons that are false on NaN, the unary `+`
 * coercion of a string, `parseInt`, `String.prototype.trim`, `toUpperCase`, and the
 * decimal text of an integer (template literals such as `${yearRange.start}`).
 */
module JsValues {

  import opened Wrappers

  /** A JavaScript number as the scripts meet it: NaN or a finite value. */
  datatype JsNum = NaN | Num(v: real)

  /** `a < b` on numbers: false as soon as either side is NaN. */
  predicate Less(a: JsNum, b: JsNum) {
    a.Num? && b.Num? && a.v < b.v
  }

  /** `a <= b` on numbers: false as soon as either side is NaN. */
  predicate AtMost(a: JsNum, b: JsNum) {
    a.Num? && b.Num? && a.v <= b.v
  }

  /** `a === b` on numbers: NaN equals nothing, not even itself. */
  predicate StrictEq(a: JsNum, b: JsNum) {
    a.Num? && b.Num? && a.v == b.v
  }

  /** `n || 0`: NaN and 0 are falsy, so both become 0. */
  function OrZero(n: JsNum): real {
    if n.Num? then n.v else 0.0
  }

  /** A number that is NaN or has no fractional part (what `parseInt` produces). */
  predicate Integral(n: JsNum) {
    n.NaN? || n.v == n.v.Floor as real
  }

  function Negate(n: JsNum): JsNum {
    if n.Num? then Num(-n.v) else NaN
  }

  // ---------------------------------------------------------------------------
  // Whitespace and case

  /** The white space and line terminators that `trim` and unary `+` strip. */
  predicate IsWhite(c: char) {
    || c == ' ' || c == '\t' || c == '\n' || c == '\r'
    || c == '\U{000B}' || c == '\U{000C}' || c == '\U{00A0}' || c == '\U{1680}'
    || ('\U{2000}' <= c <= '\U{200A}')
    || c == '\U{2028}' || c == '\U{2029}' || c == '\U{202F}' || c == '\U{205F}'
    || c == '\U{3000}' || c == '\U{FEFF}'
  }

  function TrimStart(s: string): (r: string)
    ensures |r| <= |s| && r == s[|s| - |r|..]
    ensures r == [] || !IsWhite(r[0])
  {
    if |s| > 0 && IsWhite(s[0]) then TrimStart(s[1..]) else s
  }

  function TrimEnd(s: string): (r: string)
    ensures |r| <= |s| && r == s[..|r|]
    ensures r == [] || !IsWhite(r[|r| - 1])
  {
    if |s| > 0 && IsWhite(s[|s| - 1]) then TrimEnd(s[..|s| - 1]) else s
  }

  /** `trimStart` drops white space only. */
  lemma {:induction false} TrimStartDropsWhite(s: string)
    ensures forall i | 0 <= i < |s| - |TrimStart(s)| :: IsWhite(s[i])
  {
    if |s| > 0 && IsWhite(s[0]) {
      TrimStartDropsWhite(s[1..]);
      assert forall i | 1 <= i < |s| :: s[i] == s[1..][i - 1];
    }
  }

  /** `trimEnd` drops white space only. */
  lemma {:induction false} TrimEndDropsWhite(s: string)
    ensures forall i | |TrimEnd(s)| <= i < |s| :: IsWhite(s[i])
  {
    if |s| > 0 && IsWhite(s[|s| - 1]) {
      TrimEndDropsWhite(s[..|s| - 1]);
    }
  }

  /** `s.trim()`. */
  function Trim(s: string): string {
    TrimEnd(TrimStart(s))
  }

  /** Every character `trim` keeps comes from the input. */
  lemma TrimKeepsCharacters(s: string)
    ensures forall i | 0 <= i < |Trim(s)| :: Trim(s)[i] in s
  {
    var t := TrimStart(s);
    forall i | 0 <= i < |Trim(s)| ensures Trim(s)[i] in s {
      assert Trim(s)[i] == t[i];
      assert t[i] == s[|s| - |t| + i];
    }
  }

  function UpperChar(c: char): char {
    if 'a' <= c <= 'z' then (c as int - 32) as char else c
  }

  /** `s.toUpperCase()` on the ASCII letters. */
  function ToUpper(s: string): (r: string)
    ensures |r| == |s|
    ensures forall i | 0 <= i < |s| :: r[i] == UpperChar(s[i])
  {
    if s == [] then [] else [UpperChar(s[0])] + ToUpper(s[1..])
  }

  // ---------------------------------------------------------------------------
  // Digits

  predicate IsDigit(c: char) {
    '0' <= c <= '9'
  }

  predicate AllDigits(s: string) {
    forall i | 0 <= i < |s| :: IsDigit(s[i])
  }

  function DigitValue(c: char): nat
    requires IsDigit(c)
  {
    c as int - '0' as int
  }

  /** The value of a run of decimal digits, most significant first. */
  function DigitsValue(s: string): nat
    requires AllDigits(s)
  {
    if s == [] then 0 else DigitsValue(s[..|s| - 1]) * 10 + DigitValue(s[|s| - 1])
  }

  function Pow10(n: nat): (r: nat)
    ensures r >= 1
  {
    if n == 0 then 1 else 10 * Pow10(n - 1)
  }

  /** Position of the first '.', or |s| when there is none. */
  function DotIndex(s: string): (k: nat)
    ensures k <= |s|
    ensures forall i | 0 <= i < k :: s[i] != '.'
    ensures k < |s| ==> s[k] == '.'
  {
    if s == [] || s[0] == '.' then 0 else 1 + DotIndex(s[1..])
  }

  /** An unsigned decimal literal `digits[.digits]` or `.digits`; anything else is NaN. */
  function UnsignedDecimal(s: string): JsNum {
    var k := DotIndex(s);
    var whole := s[..k];
    var frac := if k < |s| then s[k + 1..] else "";
    if AllDigits(whole) && AllDigits(frac) && (whole != "" || frac != "") then
      Num(DigitsValue(whole) as real + DigitsValue(frac) as real / Pow10(|frac|) as real)
    else
      NaN
  }

  /** With no digit there is no literal: the text reads as NaN. */
  lemma UnsignedDecimalOfDigitFree(s: string)
    requires forall i | 0 <= i < |s| :: !IsDigit(s[i])
    ensures UnsignedDecimal(s).NaN?
  {
    var k := DotIndex(s);
    var frac := if k < |s| then s[k + 1..] else "";
    assert s[..k] != "" ==> !IsDigit(s[..k][0]);
    assert frac != "" ==> !IsDigit(frac[0]);
  }

  /**
   * Unary `+` applied to a string: surrounding white space is ignored, an empty or blank
   * string is 0, an optionally signed decimal literal is its value, and anything else is NaN.
   */
  function ToNumber(s: string): JsNum {
    var t := Trim(s);
    if t == "" then Num(0.0)
    else if t[0] == '-' then Negate(UnsignedDecimal(t[1..]))
    else if t[0] == '+' then UnsignedDecimal(t[1..])
    else UnsignedDecimal(t)
  }

  /** The longest prefix of `s` made of digits. */
  function LeadingDigits(s: string): (d: string)
    ensures |d| <= |s| && d == s[..|d|] && AllDigits(d)
    ensures |d| < |s| ==> !IsDigit(s[|d|])
  {
    if s != [] && IsDigit(s[0]) then [s[0]] + LeadingDigits(s[1..]) else []
  }

  /**
   * `parseInt(s)` in base 10: leading white space and one sign are skipped, then the
   * longest run of digits is read and the rest ignored; no digits at all gives NaN.
   */
  function ParseInt(s: string): JsNum {
    var t := TrimStart(s);
    var negative := t != [] && t[0] == '-';
    var body := if t != [] && (t[0] == '-' || t[0] == '+') then t[1..] else t;
    var d := LeadingDigits(body);
    if d == [] then NaN
    else if negative then Num(-(DigitsValue(d) as real))
    else Num(DigitsValue(d) as real)
  }

  // ---------------------------------------------------------------------------
  // Decimal text of integers

  function DigitChar(n: nat): (c: char)
    requires n < 10
    ensures IsDigit(c) && DigitValue(c) == n
  {
    ('0' as int + n) as char
  }

  /** The decimal text of a natural number, without leading zeros. */
  function NatToString(n: nat): (s: string)
    ensures s != [] && AllDigits(s)
  {
    if n < 10 then [DigitChar(n)] else NatToString(n / 10) + [DigitChar(n % 10)]
  }

  /** `String(n)` for an integer `n`. */
  function IntToString(n: int): string {
    if n < 0 then "-" + NatToString(-n) else NatToString(n)
  }

  /** `String(n)` for a number that is NaN or integral (years read with `parseInt`). */
  function IntegralToString(n: JsNum): string
    requires Integral(n)
  {
    if n.NaN? then "NaN" else IntToString(n.v.Floor)
  }

  // ---------------------------------------------------------------------------
  // Dates

  /** A calendar date with a zero-based month, as `new Date(year, month, day)` takes it. */
  datatype Date = Date(year: int, month: int, day: int)

  /** Chronological order of dates (`a <= b` on their time values). */
  predicate DateAtMost(a: Date, b: Date) {
    || a.year < b.year
    || (a.year == b.year && (a.month < b.month || (a.month == b.month && a.day <= b.day)))
  }

  /** The first and last days a JavaScript time value can represent (20 April 271821 BCE
      and 13 September 275760). */
  const EarliestDate := Date(-271821, 3, 20)
  const LatestDate := Date(275760, 8, 13)

  /** ToIntegerOrInfinity: truncation toward zero. */
  function Trunc(v: real): int {
    if v >= 0.0 then v.Floor else -((-v).Floor)
  }

  /**
   * `new Date(y, month, day)` in local time: NaN gives an Invalid Date (None), the year is
   * truncated, 0..99 means 1900..1999, and a date outside the representable range is invalid.
   */
  function MakeDate(y: JsNum, month: int, day: int): Option<Date> {
    if y.NaN? then None
    else
      var t := Trunc(y.v);
      var d := Date(if 0 <= t <= 99 then 1900 + t else t, month, day);
      if DateAtMost(EarliestDate, d) && DateAtMost(d, LatestDate) then Some(d) else None
  }

  /** Days from 1 January 1970 to the given date (proleptic Gregorian calendar); as in
      MakeDay, a month outside 0..11 carries into the year. */
  function DaysFromEpoch(d: Date): int {
    var m := d.month % 12 + 1;
    var year := d.year + d.month / 12;
    var y := if m <= 2 then year - 1 else year;
    var era := y / 400;
    var yoe := y - era * 400;
    var mp := (m + 9) % 12;
    var doy := (153 * mp + 2) / 5 + d.day - 1;
    var doe := yoe * 365 + yoe / 4 - yoe / 100 + doy;
    era * 146097 + doe - 719468
  }

  /** The time value (milliseconds since the epoch) of midnight starting the date. */
  function TimeValue(d: Date): real {
    (DaysFromEpoch(d) * 86400000) as real
  }

  // ---------------------------------------------------------------------------
  // Round trips between the text of an integer and its parse

  lemma {:induction false} NatToStringValue(n: nat)
    ensures DigitsValue(NatToString(n)) == n
  {
    var s := NatToString(n);
    if n >= 10 {
      NatToStringValue(n / 10);
      assert s[..|s| - 1] == NatToString(n / 10);
    }
  }

  lemma NoDotInDigits(s: string)
    requires AllDigits(s)
    ensures DotIndex(s) == |s|
  {
  }

  lemma LeadingDigitsOfDigits(s: string)
    requires AllDigits(s)
    ensures LeadingDigits(s) == s
  {
  }

  /** A text that neither starts nor ends with white space is its own `trim`. */
  lemma TrimOfUnpadded(s: string)
    requires s != [] && !IsWhite(s[0]) && !IsWhite(s[|s| - 1])
    ensures Trim(s) == s
  {
    assert TrimStart(s) == s;
  }

  lemma UnsignedDecimalOfDigits(s: string)
    requires s != [] && AllDigits(s)
    ensures UnsignedDecimal(s) == Num(DigitsValue(s) as real)
  {
    NoDotInDigits(s);
    assert s[..|s|] == s;
  }

  lemma ToNumberOfDigits(d: string)
    requires d != [] && AllDigits(d)
    ensures ToNumber(d) == Num(DigitsValue(d) as real)
  {
    assert IsDigit(d[0]) && IsDigit(d[|d| - 1]);
    TrimOfUnpadded(d);
    UnsignedDecimalOfDigits(d);
  }

  /** Unary `+` on a minus sign followed by a text that does not end in white space. */
  lemma ToNumberMinus(d: string)
    requires d != [] && !IsWhite(d[|d| - 1])
    ensures ToNumber("-" + d) == Negate(UnsignedDecimal(d))
  {
    var s := "-" + d;
    assert s[|s| - 1] == d[|d| - 1];
    TrimOfUnpadded(s);
    assert s[1..] == d;
  }

  lemma ToNumberOfNegativeDigits(d: string)
    requires d != [] && AllDigits(d)
    ensures ToNumber("-" + d) == Num(-(DigitsValue(d) as real))
  {
    assert IsDigit(d[|d| - 1]);
    ToNumberMinus(d);
    UnsignedDecimalOfDigits(d);
  }

  /** Unary `+` of text without a digit is NaN, except that blank text is 0. */
  lemma ToNumberOfDigitFree(s: string)
    requires forall i | 0 <= i < |s| :: !IsDigit(s[i])
    ensures ToNumber(s) == if Trim(s) == "" then Num(0.0) else NaN
  {
    var t := Trim(s);
    TrimKeepsCharacters(s);
    if t != "" {
      var body := if t[0] == '-' || t[0] == '+' then t[1..] else t;
      forall i | 0 <= i < |body| ensures !IsDigit(body[i]) {
        assert body[i] in s;
      }
      UnsignedDecimalOfDigitFree(body);
    }
  }

  /** Unary `+` reads back every integer from its decimal text. */
  lemma ToNumberOfIntToString(n: int)
    ensures ToNumber(IntToString(n)) == Num(n as real)
  {
    var m := if n < 0 then -n else n;
    NatToStringValue(m);
    if n < 0 {
      ToNumberOfNegativeDigits(NatToString(m));
    } else {
      ToNumberOfDigits(NatToString(m));
    }
  }

  /** `parseInt` on a text that starts with neither white space nor a sign. */
  lemma ParseIntUnsigned(p: string, d: string)
    requires p != [] && !IsWhite(p[0]) && p[0] != '-' && p[0] != '+'
    requires d != [] && LeadingDigits(p) == d
    ensures ParseInt(p) == Num(DigitsValue(d) as real)
  {
    assert TrimStart(p) == p;
  }

  /** `parseInt` on a text that starts with a minus sign. */
  lemma ParseIntMinus(p: string, d: string)
    requires p != [] && p[0] == '-'
    requires d != [] && LeadingDigits(p[1..]) == d
    ensures ParseInt(p) == Num(-(DigitsValue(d) as real))
  {
    assert !IsWhite(p[0]);
    assert TrimStart(p) == p;
  }

  /** `parseInt` reads back every integer from its decimal text. */
  lemma ParseIntOfIntToString(n: int)
    ensures ParseInt(IntToString(n)) == Num(n as real)
  {
    ParseIntPrefix(n, "");
    assert IntToString(n) + "" == IntToString(n);
  }

  /** `parseInt` yields NaN or a whole number, so its result always has a decimal text. */
  lemma ParseIntIntegral(s: string)
    ensures Integral(ParseInt(s))
  {
    var t := TrimStart(s);
    var body := if t != [] && (t[0] == '-' || t[0] == '+') then t[1..] else t;
    var d := LeadingDigits(body);
    if d != [] {
      var x: int := DigitsValue(d);
      assert (x as real).Floor == x;
      assert (-(x as real)).Floor == -x;
    }
  }

  /** Printing a parsed year and parsing the text again gives the same number back. */
  lemma {:induction false} IntegralTextRoundTrip(n: JsNum)
    requires Integral(n) && n.Num?
    ensures ParseInt(IntegralToString(n)) == n
  {
    ParseIntOfIntToString(n.v.Floor);
  }

  lemma {:induction false} LeadingDigitsPrefix(d: string, rest: string)
    requires AllDigits(d)
    requires rest == [] || !IsDigit(rest[0])
    ensures LeadingDigits(d + rest) == d
  {
    if d != [] {
      LeadingDigitsPrefix(d[1..], rest);
      assert (d + rest)[1..] == d[1..] + rest;
    } else {
      assert d + rest == rest;
    }
  }

  lemma ParseIntOfDigitsPrefix(d: string, rest: string)
    requires d != [] && AllDigits(d)
    requires rest == [] || !IsDigit(rest[0])
    ensures ParseInt(d + rest) == Num(DigitsValue(d) as real)
  {
    LeadingDigitsPrefix(d, rest);
    var p := d + rest;
    assert p[0] == d[0] && IsDigit(d[0]);
    ParseIntUnsigned(p, d);
  }

  lemma ParseIntOfNegativeDigitsPrefix(d: string, rest: string)
    requires d != [] && AllDigits(d)
    requires rest == [] || !IsDigit(rest[0])
    ensures ParseInt("-" + d + rest) == Num(-(DigitsValue(d) as real))
  {
    LeadingDigitsPrefix(d, rest);
    var s := "-" + d + rest;
    assert s[1..] == d + rest;
    ParseIntMinus(s, d);
  }

  /** `parseInt` reads an integer's text back even with anything but a digit after it. */
  lemma ParseIntPrefix(n: int, rest: string)
    requires rest == [] || !IsDigit(rest[0])
    ensures ParseInt(IntToString(n) + rest) == Num(n as real)
  {
    if n < 0 {
      NatToStringValue(-n);
      ParseIntOfNegativeDigitsPrefix(NatToString(-n), rest);
    } else {
      NatToStringValue(n);
      ParseIntOfDigitsPrefix(NatToString(n), rest);
    }
  }
}
