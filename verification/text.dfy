/** String helpers shared by the backend (Python) and the frontend (JavaScript) models: whitespace
    stripping with each language's notion of whitespace, ASCII digits, decimal rendering with zero
    padding, ASCII lower-casing and substring search. */
module Text {

  /** Characters Python's `str.strip()` removes (the characters for which `str.isspace()` holds). */
  predicate PyIsSpace(c: char) {
    c == ' ' || ('\t' <= c <= '\r') || ('\U{1C}' <= c <= '\U{1F}') || c == '\U{85}'
    || c == '\U{A0}' || c == '\U{1680}' || ('\U{2000}' <= c <= '\U{200A}')
    || c == '\U{2028}' || c == '\U{2029}' || c == '\U{202F}' || c == '\U{205F}' || c == '\U{3000}'
  }

  /** Characters JavaScript's `String.prototype.trim()` removes (WhiteSpace and LineTerminator). */
  predicate JsIsSpace(c: char) {
    c == ' ' || ('\t' <= c <= '\r') || c == '\U{A0}' || c == '\U{FEFF}'
    || c == '\U{1680}' || ('\U{2000}' <= c <= '\U{200A}')
    || c == '\U{2028}' || c == '\U{2029}' || c == '\U{202F}' || c == '\U{205F}' || c == '\U{3000}'
  }

  function StripStart(s: string, isSpace: char -> bool): (r: string)
    ensures |r| <= |s| && r == s[|s| - |r|..]
    ensures |r| > 0 ==> !isSpace(r[0])
    ensures forall i :: 0 <= i < |s| - |r| ==> isSpace(s[i])
  {
    if |s| > 0 && isSpace(s[0]) then
      var r := StripStart(s[1..], isSpace);
      assert forall i :: 1 <= i < |s| - |r| ==> s[i] == s[1..][i - 1];
      r
    else s
  }

  function StripEnd(s: string, isSpace: char -> bool): (r: string)
    ensures |r| <= |s| && r == s[..|r|]
    ensures |r| > 0 ==> !isSpace(r[|r| - 1])
    ensures forall i :: |r| <= i < |s| ==> isSpace(s[i])
  {
    if |s| > 0 && isSpace(s[|s| - 1]) then
      var r := StripEnd(s[..|s| - 1], isSpace);
      assert forall i :: |r| <= i < |s| - 1 ==> s[i] == s[..|s| - 1][i];
      r
    else s
  }

  /** Removes leading and trailing characters satisfying `isSpace`. */
  function Strip(s: string, isSpace: char -> bool): (r: string)
    ensures |r| <= |s|
    ensures |r| > 0 ==> !isSpace(r[0]) && !isSpace(r[|r| - 1])
    ensures (forall i :: 0 <= i < |s| ==> !isSpace(s[i])) ==> r == s
  {
    StripEnd(StripStart(s, isSpace), isSpace)
  }

  /** Python `s.strip()`. */
  function PyStrip(s: string): string { Strip(s, PyIsSpace) }

  /** JavaScript `s.trim()`. */
  function JsTrim(s: string): string { Strip(s, JsIsSpace) }

  /** True when `s` is blank in JavaScript: made of white space only, so that `s.trim()` is empty
      (`JsBlankIsTrimEmpty`). */
  predicate JsBlank(s: string) {
    |s| == 0 || (JsIsSpace(s[0]) && JsBlank(s[1..]))
  }

  lemma {:induction false} JsBlankAllSpace(s: string)
    ensures JsBlank(s) <==> forall i :: 0 <= i < |s| ==> JsIsSpace(s[i])
  {
    if |s| > 0 {
      JsBlankAllSpace(s[1..]);
      assert forall i :: 1 <= i < |s| ==> s[i] == s[1..][i - 1];
    }
  }

  /** `s.trim()` is empty exactly when `s` is blank. */
  lemma JsBlankIsTrimEmpty(s: string)
    ensures JsBlank(s) <==> JsTrim(s) == ""
  {
    JsBlankAllSpace(s);
    var a := StripStart(s, JsIsSpace);
    if JsTrim(s) == "" {
      assert StripEnd(a, JsIsSpace) == "";
      assert a == "";
    } else {
      assert |a| > 0 && a[0] == s[|s| - |a|];
    }
  }

  lemma StripOfStripped(s: string, isSpace: char -> bool)
    ensures Strip(Strip(s, isSpace), isSpace) == Strip(s, isSpace)
  {
    var r := Strip(s, isSpace);
    if |r| > 0 {
      assert StripStart(r, isSpace) == r;
      assert StripEnd(r, isSpace) == r;
    }
  }

  /** Stripping removes only space characters: every character of the original is kept or is a
      space, and every kept character comes from the original. */
  lemma StripKeepsNonSpace(s: string, isSpace: char -> bool)
    ensures forall i :: 0 <= i < |s| ==> s[i] in Strip(s, isSpace) || isSpace(s[i])
    ensures forall c :: c in Strip(s, isSpace) ==> c in s
  {
    StripKeepsEach(s, isSpace);
    StripTakesFrom(s, isSpace);
  }

  lemma StripKeepsEach(s: string, isSpace: char -> bool)
    ensures forall i :: 0 <= i < |s| ==> s[i] in Strip(s, isSpace) || isSpace(s[i])
  {
    var a := StripStart(s, isSpace);
    var r := StripEnd(a, isSpace);
    var off := |s| - |a|;
    forall i | 0 <= i < |s| && !isSpace(s[i])
      ensures s[i] in r
    {
      assert off <= i;
      assert a[i - off] == s[i];
      assert i - off < |r|;
      assert r[i - off] == a[i - off];
    }
  }

  lemma StripTakesFrom(s: string, isSpace: char -> bool)
    ensures forall c :: c in Strip(s, isSpace) ==> c in s
  {
    var a := StripStart(s, isSpace);
    var r := StripEnd(a, isSpace);
    var off := |s| - |a|;
    forall c | c in r
      ensures c in s
    {
      var j :| 0 <= j < |r| && r[j] == c;
      assert r[j] == a[j];
      assert a[j] == s[off + j];
    }
  }

  predicate IsDigit(c: char) { '0' <= c <= '9' }

  predicate AllDigits(s: string) { forall i :: 0 <= i < |s| ==> IsDigit(s[i]) }

  /** JavaScript `s.replace(/\D/g, '')`: keeps the ASCII digits of `s`, in order. */
  function DigitsOnly(s: string): (r: string)
    ensures AllDigits(r) && |r| <= |s|
    ensures AllDigits(s) ==> r == s
  {
    if |s| == 0 then ""
    else (if IsDigit(s[0]) then [s[0]] else []) + DigitsOnly(s[1..])
  }

  lemma DigitsOnlyAppend(a: string, b: string)
    ensures DigitsOnly(a + b) == DigitsOnly(a) + DigitsOnly(b)
  {
    if |a| > 0 {
      assert (a + b)[1..] == a[1..] + b;
      DigitsOnlyAppend(a[1..], b);
    } else {
      assert a + b == b;
    }
  }

  function DigitValue(c: char): nat
    requires IsDigit(c)
  {
    (c as int - '0' as int) as nat
  }

  function DigitChar(d: nat): (c: char)
    requires d < 10
    ensures IsDigit(c) && DigitValue(c) == d
  {
    (d + '0' as int) as char
  }

  /** The number written by a string of ASCII digits (the empty string denotes 0). */
  function DigitsValue(s: string): nat
    requires AllDigits(s)
  {
    if |s| == 0 then 0 else DigitsValue(s[..|s| - 1]) * 10 + DigitValue(s[|s| - 1])
  }

  /** The shortest decimal rendering of `n` (`str(n)` in Python, `String(n)` in JavaScript). */
  function NatToDecimal(n: nat): (r: string)
    ensures AllDigits(r) && |r| >= 1
    ensures DigitsValue(r) == n
    ensures |r| > 1 ==> r[0] != '0'
  {
    if n < 10 then [DigitChar(n)]
    else
      var p := NatToDecimal(n / 10);
      var r := p + [DigitChar(n % 10)];
      assert r[..|r| - 1] == p;
      r
  }

  function Repeat(c: char, n: nat): (r: string)
    ensures |r| == n && forall i :: 0 <= i < n ==> r[i] == c
  {
    if n == 0 then "" else [c] + Repeat(c, n - 1)
  }

  lemma DigitsValueLeadingZeros(k: nat, s: string)
    requires AllDigits(s)
    ensures AllDigits(Repeat('0', k) + s)
    ensures DigitsValue(Repeat('0', k) + s) == DigitsValue(s)
    decreases |s|
  {
    var z := Repeat('0', k);
    if |s| == 0 {
      assert z + s == z;
      ZerosValue(k);
    } else {
      var t := z + s;
      assert t[..|t| - 1] == z + s[..|s| - 1];
      DigitsValueLeadingZeros(k, s[..|s| - 1]);
    }
  }

  lemma ZerosValue(k: nat)
    ensures DigitsValue(Repeat('0', k)) == 0
  {
    if k > 0 {
      var z := Repeat('0', k);
      assert z[..k - 1] == Repeat('0', k - 1);
      ZerosValue(k - 1);
    }
  }

  /** Python's `f"{n:0{width}d}"` for a non-negative `n`: the decimal digits of `n`, left-padded
      with zeros up to `width` characters (longer numbers are not truncated). */
  function ZeroPad(n: nat, width: nat): (r: string)
    ensures AllDigits(r)
    ensures |r| == if |NatToDecimal(n)| >= width then |NatToDecimal(n)| else width
    ensures DigitsValue(r) == n
  {
    var d := NatToDecimal(n);
    var r := if |d| >= width then d else Repeat('0', width - |d|) + d;
    DigitsValueLeadingZeros(if |d| >= width then 0 else width - |d|, d);
    assert |d| >= width ==> Repeat('0', 0) + d == d;
    r
  }

  function Pow10(k: nat): (p: nat)
    ensures p >= 1
  {
    if k == 0 then 1 else 10 * Pow10(k - 1)
  }

  /** A number below `10^w` has at most `w` digits. */
  lemma {:induction false} DecimalLength(n: nat, w: nat)
    requires 1 <= w && n < Pow10(w)
    ensures |NatToDecimal(n)| <= w
  {
    if n >= 10 {
      assert n / 10 < Pow10(w - 1);
      DecimalLength(n / 10, w - 1);
    }
  }

  /** ASCII lower-casing, as applied by Python `str.lower()` to ASCII letters. */
  function LowerChar(c: char): char {
    if 'A' <= c <= 'Z' then (c as int + 32) as char else c
  }

  function Lower(s: string): (r: string)
    ensures |r| == |s| && forall i :: 0 <= i < |s| ==> r[i] == LowerChar(s[i])
  {
    if |s| == 0 then "" else [LowerChar(s[0])] + Lower(s[1..])
  }

  /** JavaScript's `s.length`: UTF-16 code units, two for a character above U+FFFF. */
  function Utf16Length(s: string): (n: nat)
    ensures |s| <= n <= 2 * |s|
    ensures n == |s| <==> forall i :: 0 <= i < |s| ==> s[i] as int < 0x1_0000
  {
    if |s| == 0 then 0 else Utf16Width(s[0]) + Utf16Length(s[1..])
  }

  /** The UTF-16 code units one character takes. */
  function Utf16Width(c: char): nat { if c as int < 0x1_0000 then 1 else 2 }

  /** JavaScript's `s.substring(0, n)` on whole characters: the longest prefix of at most `n`
      code units. A cut through a surrogate pair leaves its first half in JavaScript, which a
      character here cannot hold; that half is dropped. */
  function Utf16Prefix(s: string, n: nat): (r: string)
    ensures |r| <= |s| && r == s[..|r|] && Utf16Length(r) <= n
    ensures Utf16Length(s) <= n ==> r == s
    ensures |r| < |s| ==> Utf16Length(r) + Utf16Width(s[|r|]) > n
  {
    if |s| == 0 then ""
    else if Utf16Width(s[0]) > n then ""
    else
      var rest := Utf16Prefix(s[1..], n - Utf16Width(s[0]));
      Utf16LengthCons(s[0], rest);
      assert s[1..][..|rest|] == s[1..|rest| + 1];
      [s[0]] + rest
  }

  lemma Utf16LengthCons(c: char, s: string)
    ensures Utf16Length([c] + s) == Utf16Width(c) + Utf16Length(s)
  {
    assert ([c] + s)[1..] == s;
  }

  /** On text without characters above U+FFFF, the prefix of at most `n` code units is the
      first `n` characters. */
  lemma Utf16PrefixOfBmp(s: string, n: nat)
    requires forall i :: 0 <= i < |s| ==> s[i] as int < 0x1_0000
    ensures Utf16Prefix(s, n) == Take(s, n)
  {
    var r := Utf16Prefix(s, n);
    assert forall i :: 0 <= i < |r| ==> r[i] == s[i];
    assert Utf16Length(r) == |r|;
    if |r| < |s| {
      assert Utf16Width(s[|r|]) == 1;
      assert r == s[..n];
    }
  }

  predicate StartsWith(s: string, prefix: string) {
    |prefix| <= |s| && s[..|prefix|] == prefix
  }

  /** Python `needle in hay` for strings: `needle` occurs as a contiguous substring. */
  predicate Contains(hay: string, needle: string)
    decreases |hay|
  {
    StartsWith(hay, needle) || (|hay| > 0 && Contains(hay[1..], needle))
  }

  /** The first `n` elements: JavaScript `s.substring(0, n)` for `n >= 0`, Python `xs[:n]`,
      SQL `LIMIT n`. */
  function Take<T>(xs: seq<T>, n: nat): (r: seq<T>)
    ensures |r| == if |xs| <= n then |xs| else n
    ensures r == xs[..|r|]
  {
    if |xs| <= n then xs else xs[..n]
  }

  /** Index of the first occurrence of `c` in `s`, or `|s|` when `c` does not occur. */
  function IndexOf(s: string, c: char): (k: nat)
    ensures k <= |s|
    ensures k < |s| ==> s[k] == c
    ensures forall i :: 0 <= i < k ==> s[i] != c
  {
    if |s| == 0 then 0 else if s[0] == c then 0 else 1 + IndexOf(s[1..], c)
  }
}
