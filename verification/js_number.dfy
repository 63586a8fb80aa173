/** JavaScript's conversions of form text to numbers and dates, as the frontend's validators use
    them: `Number(s)` (and hence `isNaN(s)`), `parseInt(s)` and `new Date(s)` for date-only text.
    Numbers are kept exactly, as a scaled integer and a power of ten. */
module JsNumber {
  import opened Wrappers
  import opened Text
  import Json
  import Calendar

  /** A number value: `NaN`, or `scaled / 10^scale`. */
  datatype Num = NaN | Dec(scaled: int, scale: nat)

  /** `Number.isInteger(x)`. */
  predicate IsInteger(x: Num) { x.Dec? && x.scaled % Pow10(x.scale) == 0 }

  predicate IsSignChar(c: char) { c == '+' || c == '-' }

  /** The text after an optional leading sign. */
  function Unsigned(t: string): (u: string)
    ensures |u| <= |t|
  {
    if |t| > 0 && IsSignChar(t[0]) then t[1..] else t
  }

  /** `-1` when the text starts with '-', `1` otherwise. */
  function SignOf(t: string): int {
    if |t| > 0 && t[0] == '-' then -1 else 1
  }

  /** The digits before the first '.', and the text after it (empty when there is no '.'). */
  function IntegerPart(u: string): string { u[..IndexOf(u, '.')] }

  function FractionPart(u: string): string {
    var k := IndexOf(u, '.');
    if k < |u| then u[k + 1..] else ""
  }

  /** A decimal literal without exponent: optional sign, digits with at most one '.', and at least
      one digit. */
  predicate DecimalLiteral(t: string) {
    var u := Unsigned(t);
    AllDigits(IntegerPart(u)) && AllDigits(FractionPart(u))
    && |IntegerPart(u)| + |FractionPart(u)| > 0
  }

  /** An optional sign and at least one digit. */
  predicate SignedDigits(t: string) {
    |Unsigned(t)| > 0 && AllDigits(Unsigned(t))
  }

  predicate IsExponentMark(c: char) { c == 'e' || c == 'E' }

  /** Position of the first 'e' or 'E', or the length when there is none. */
  function ExponentIndex(t: string): (k: nat)
    ensures k <= |t|
    ensures forall i :: 0 <= i < k ==> !IsExponentMark(t[i])
    ensures k < |t| ==> IsExponentMark(t[k])
  {
    if |t| == 0 then 0 else if IsExponentMark(t[0]) then 0 else 1 + ExponentIndex(t[1..])
  }

  predicate HasExponent(t: string) { ExponentIndex(t) < |t| }

  /** The text before the exponent mark, and the text after it (empty without a mark). */
  function Mantissa(t: string): string { t[..ExponentIndex(t)] }

  function ExponentText(t: string): string {
    var k := ExponentIndex(t);
    if k < |t| then t[k + 1..] else ""
  }

  /** The power of ten the exponent part scales by; zero without an exponent part. */
  function Exponent(t: string): int {
    var x := ExponentText(t);
    if AllDigits(Unsigned(x)) then SignOf(x) * DigitsValue(Unsigned(x)) else 0
  }

  /** `n / 10^frac * 10^e` as a number value. */
  function Scaled(n: int, frac: nat, e: int): (r: Num)
    ensures r.Dec? && (r.scaled < 0 <==> n < 0) && (r.scaled == 0 <==> n == 0)
  {
    if e >= 0 then
      Dec(n * Pow10(e), frac)
    else Dec(n, frac - e)
  }

  /** A numeric literal of `Number`'s string grammar other than `Infinity` and the prefixed
      binary, octal and hex forms: a decimal literal, then optionally an exponent part, a mark
      followed by a sign and digits. */
  predicate NumberLiteral(t: string) {
    DecimalLiteral(Mantissa(t)) && (HasExponent(t) ==> SignedDigits(ExponentText(t)))
  }

  /** `Number(s)` for a string: surrounding white space is ignored, blank text is zero, a numeric
      literal is its value (the mantissa's digits scaled by the exponent), anything else is
      `NaN`. */
  function ToNumber(s: string): (r: Num)
    ensures JsTrim(s) == "" ==> r == Dec(0, 0)
    ensures r.Dec? && JsTrim(s) != "" ==> NumberLiteral(JsTrim(s))
    ensures r.Dec? && r.scaled < 0 ==> JsTrim(s)[0] == '-'
  {
    var t := JsTrim(s);
    if t == "" then Dec(0, 0)
    else if NumberLiteral(t) then
      var m := Mantissa(t);
      var u := Unsigned(m);
      var e := Exponent(t);
      var n := SignOf(m) * DigitsValue(IntegerPart(u) + FractionPart(u));
      assert n < 0 ==> m[0] == '-' && t[0] == m[0];
      Scaled(n, |FractionPart(u)|, e)
    else NaN
  }

  /** `isNaN(s)` for a string. */
  predicate IsNaN(s: string) { ToNumber(s).NaN? }

  /** Length of the run of ASCII digits at the start of `u`. */
  function DigitRun(u: string): (n: nat)
    ensures n <= |u| && AllDigits(u[..n])
    ensures n < |u| ==> !IsDigit(u[n])
  {
    if |u| == 0 || !IsDigit(u[0]) then 0
    else
      var n := 1 + DigitRun(u[1..]);
      assert forall i :: 1 <= i < n ==> u[..n][i] == u[1..][..n - 1][i - 1];
      n
  }

  /** `parseInt(s)` in base 10: leading white space is skipped, then an optional sign and the
      longest run of digits; without a digit the result is `NaN`, modelled as `None`. */
  function ParseInt(s: string): (r: Option<int>)
    ensures r.Some? <==> DigitRun(Unsigned(StripStart(s, JsIsSpace))) > 0
  {
    var t := StripStart(s, JsIsSpace);
    var u := Unsigned(t);
    var n := DigitRun(u);
    if n == 0 then None else Some(SignOf(t) * DigitsValue(u[..n]))
  }

  lemma {:induction false} NoSpaceInDecimal(r: string)
    requires forall i :: 0 <= i < |r| ==> IsDigit(r[i]) || r[i] == '-'
    ensures StripStart(r, JsIsSpace) == r && JsTrim(r) == r
  {
    forall i | 0 <= i < |r|
      ensures !JsIsSpace(r[i])
    {
      NotSpace(r[i]);
    }
  }

  lemma NotSpace(c: char)
    requires IsDigit(c) || c == '-'
    ensures !JsIsSpace(c)
  {
  }

  /** An optional sign followed by digits and nothing else: its integer part is everything after
      the sign, and the digit run covers it. */
  lemma SignedDigitsParts(t: string)
    requires |Unsigned(t)| > 0 && AllDigits(Unsigned(t))
    ensures DecimalLiteral(t)
    ensures IntegerPart(Unsigned(t)) == Unsigned(t) && FractionPart(Unsigned(t)) == ""
    ensures DigitRun(Unsigned(t)) == |Unsigned(t)|
  {
    var u := Unsigned(t);
    assert forall i :: 0 <= i < |u| ==> u[i] != '.';
    assert IndexOf(u, '.') == |u|;
    assert u[..|u|] == u;
    DigitRunOfPrefix(u, |u|);
  }

  /** `Number` of text that is, after trimming, a sign and digits. */
  lemma NumberOfSignedDigits(s: string)
    requires SignedDigits(JsTrim(s))
    ensures ToNumber(s) == Dec(SignOf(JsTrim(s)) * DigitsValue(Unsigned(JsTrim(s))), 0)
  {
    var t := JsTrim(s);
    NoExponentInSignedDigits(t);
    assert Mantissa(t) == t;
    SignedDigitsParts(t);
    assert Unsigned(t) + "" == Unsigned(t);
  }

  /** A sign and digits hold no exponent mark. */
  lemma NoExponentInSignedDigits(t: string)
    requires SignedDigits(t)
    ensures ExponentIndex(t) == |t| && ExponentText(t) == "" && Exponent(t) == 0
  {
    var u := Unsigned(t);
    var off := if IsSignChar(t[0]) then 1 else 0;
    assert forall i :: off <= i < |t| ==> t[i] == u[i - off];
    assert forall i :: 0 <= i < |t| ==> !IsExponentMark(t[i]);
  }

  /** Text `Number` accepts whose mantissa is a sign and digits: its value is the mantissa's
      integer times ten to the exponent. */
  lemma NumberOfSignedMantissa(s: string)
    requires SignedDigits(Mantissa(JsTrim(s)))
    requires HasExponent(JsTrim(s)) ==> SignedDigits(ExponentText(JsTrim(s)))
    ensures JsTrim(s) != ""
    ensures var t := JsTrim(s);
      var n := SignOf(Mantissa(t)) * DigitsValue(Unsigned(Mantissa(t)));
      var e := Exponent(t);
      ToNumber(s) == Scaled(n, 0, e)
  {
    var t := JsTrim(s);
    var m := Mantissa(t);
    assert |m| <= |t|;
    SignedDigitsParts(m);
    assert Unsigned(m) + "" == Unsigned(m);
  }

  lemma IntTextShape(n: int)
    ensures Unsigned(Json.IntToText(n)) == NatToDecimal(if n < 0 then -n else n)
    ensures SignOf(Json.IntToText(n)) * DigitsValue(Unsigned(Json.IntToText(n))) == n
    ensures forall i :: 0 <= i < |Json.IntToText(n)| ==> IsDigit(Json.IntToText(n)[i]) || Json.IntToText(n)[i] == '-'
  {
    var r := Json.IntToText(n);
    if n < 0 {
      assert r[1..] == NatToDecimal(-n);
    }
  }

  /** `Number(String(n)) === n` and `parseInt(String(n)) === n` for every integer `n`. */
  lemma IntegerTextRoundTrip(n: int)
    ensures ToNumber(Json.IntToText(n)) == Dec(n, 0)
    ensures ParseInt(Json.IntToText(n)) == Some(n)
  {
    var r := Json.IntToText(n);
    IntTextShape(n);
    NoSpaceInDecimal(r);
    NumberOfSignedDigits(r);
    SignedDigitsParts(r);
  }

  /** Text `Number` accepts that has no '.' is, once trimmed, a sign and digits, and its value is
      that integer. */
  lemma NumberWithoutDot(s: string)
    requires JsTrim(s) != "" && '.' !in JsTrim(s) && !HasExponent(JsTrim(s)) && ToNumber(s).Dec?
    ensures |Unsigned(JsTrim(s))| > 0 && AllDigits(Unsigned(JsTrim(s)))
    ensures ToNumber(s) == Dec(SignOf(JsTrim(s)) * DigitsValue(Unsigned(JsTrim(s))), 0)
  {
    var t := JsTrim(s);
    assert Mantissa(t) == t[..|t|] == t;
    assert DecimalLiteral(t);
    var u := Unsigned(t);
    NoDotUnsigned(t);
    assert IntegerPart(u) == u[..|u|] == u;
    assert FractionPart(u) == "";
    NumberOfSignedDigits(s);
  }

  /** For text `Number` reads as an integer without a '.', `parseInt` gives the same integer. */
  lemma ParseIntAgreesWithNumber(s: string)
    requires JsTrim(s) != "" && '.' !in JsTrim(s) && !HasExponent(JsTrim(s)) && ToNumber(s).Dec?
    ensures ParseInt(s) == Some(ToNumber(s).scaled) && ToNumber(s).scale == 0
  {
    NumberWithoutDot(s);
    StripPrefixDigits(s);
  }

  lemma NoDotUnsigned(t: string)
    requires '.' !in t
    ensures IndexOf(Unsigned(t), '.') == |Unsigned(t)|
  {
    var u := Unsigned(t);
    assert forall i :: 0 <= i < |u| ==> u[i] in t;
  }

  /** `parseInt` reads the same sign and digits `Number` does, trailing white space aside. */
  lemma StripPrefixDigits(s: string)
    requires |Unsigned(JsTrim(s))| > 0 && AllDigits(Unsigned(JsTrim(s)))
    ensures ParseInt(s) == Some(SignOf(JsTrim(s)) * DigitsValue(Unsigned(JsTrim(s))))
  {
    var t := JsTrim(s);
    assert t[..|t|] == t;
    ParseIntOfTrimmedPrefix(s, |t|);
  }

  /** `parseInt` stops at an exponent mark: for text whose mantissa is a sign and digits it
      reads the mantissa's integer. */
  lemma ParseIntReadsMantissa(s: string)
    requires SignedDigits(Mantissa(JsTrim(s)))
    ensures ParseInt(s) == Some(SignOf(Mantissa(JsTrim(s))) * DigitsValue(Unsigned(Mantissa(JsTrim(s)))))
  {
    var t := JsTrim(s);
    var k := ExponentIndex(t);
    assert k < |t| ==> !IsDigit(t[k]);
    ParseIntOfTrimmedPrefix(s, k);
  }

  /** When the trimmed text starts with a sign and digits that are not followed by a further
      digit, `parseInt` reads exactly that prefix. */
  lemma ParseIntOfTrimmedPrefix(s: string, n: nat)
    requires n <= |JsTrim(s)| && SignedDigits(JsTrim(s)[..n])
    requires n < |JsTrim(s)| ==> !IsDigit(JsTrim(s)[n])
    ensures ParseInt(s) == Some(SignOf(JsTrim(s)[..n]) * DigitsValue(Unsigned(JsTrim(s)[..n])))
  {
    var t := JsTrim(s);
    var t0 := StripStart(s, JsIsSpace);
    assert n <= |t0| && t0[..n] == t[..n] && (n < |t0| ==> !IsDigit(t0[n])) by {
      TrimmedPrefixOfStart(s, n);
      if n < |t0| && n == |t| && IsDigit(t0[n]) {
        NotSpace(t0[n]);
      }
    }
    ReadsSignedPrefix(t0, n);
  }

  /** The text `trim` keeps and the text after leading white space agree on the first `n`
      characters; where the kept text ends, the other continues with white space. */
  lemma TrimmedPrefixOfStart(s: string, n: nat)
    requires n <= |JsTrim(s)|
    ensures n <= |StripStart(s, JsIsSpace)| && StripStart(s, JsIsSpace)[..n] == JsTrim(s)[..n]
    ensures n < |JsTrim(s)| ==> StripStart(s, JsIsSpace)[n] == JsTrim(s)[n]
    ensures n == |JsTrim(s)| < |StripStart(s, JsIsSpace)| ==> JsIsSpace(StripStart(s, JsIsSpace)[n])
  {
    var t0 := StripStart(s, JsIsSpace);
    var t := StripEnd(t0, JsIsSpace);
    assert t == t0[..|t|];
  }

  /** `parseInt`'s digit run on text that starts with a sign and digits followed by no digit
      is that prefix's digits. */
  lemma ReadsSignedPrefix(t0: string, n: nat)
    requires n <= |t0| && SignedDigits(t0[..n]) && (n < |t0| ==> !IsDigit(t0[n]))
    ensures DigitRun(Unsigned(t0)) == |Unsigned(t0[..n])|
    ensures Unsigned(t0)[..|Unsigned(t0[..n])|] == Unsigned(t0[..n])
    ensures SignOf(t0) == SignOf(t0[..n])
  {
    var p := t0[..n];
    var off := if IsSignChar(t0[0]) then 1 else 0;
    assert p[0] == t0[0];
    var u0 := Unsigned(t0);
    var up := Unsigned(p);
    assert up == t0[off..n];
    assert u0[..|up|] == up;
    if |up| < |u0| {
      assert u0[|up|] == t0[n];
    }
    DigitRunOfPrefix(u0, |up|);
  }

  /** The digit run of a text whose first `n` characters are digits and whose `n`-th is not. */
  lemma {:induction false} DigitRunOfPrefix(u: string, n: nat)
    requires n <= |u| && AllDigits(u[..n]) && (n < |u| ==> !IsDigit(u[n]))
    ensures DigitRun(u) == n
  {
    if n > 0 {
      assert u[0] == u[..n][0];
      assert u[1..][..n - 1] == u[..n][1..];
      DigitRunOfPrefix(u[1..], n - 1);
    }
  }

  /** `new Date(s)` for date-only text `YYYY-MM-DD` naming a real calendar day; any other text is
      an invalid date, modelled as `None`. */
  function DateOnly(s: string): (r: Option<Calendar.Date>)
    ensures r.Some? ==> Calendar.Valid(r.value) && 0 <= r.value.year <= 9999
  {
    if |s| == 10 && AllDigits(s[..4]) && s[4] == '-' && AllDigits(s[5..7]) && s[7] == '-'
       && AllDigits(s[8..])
    then
      assert DigitsValue(s[..4]) <= 9999 by { Calendar.DigitsBound(s[..4]); }
      var d := Calendar.Date(DigitsValue(s[..4]), DigitsValue(s[5..7]), DigitsValue(s[8..]));
      if Calendar.Valid(d) then Some(d) else None
    else None
  }

  /** `new Date(a) <= new Date(b)`: false as soon as either side is an invalid date. */
  predicate DateAtOrBefore(a: string, b: string) {
    DateOnly(a).Some? && DateOnly(b).Some?
    && Calendar.AtOrBefore(DateOnly(a).value, DateOnly(b).value)
  }
}
