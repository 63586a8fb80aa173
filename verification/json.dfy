/** Decoded JSON request bodies (`request.json`) and the Python conversions the handlers apply to
    their fields: truthiness, `isinstance(v, bool)`, `int(v)` and `float(v)`. */
module Json {
  import opened Wrappers
  import opened Text

  /** A decoded JSON value. Numbers are integers; fractional numbers are not modelled. */
  datatype Json = JNull | JBool(b: bool) | JNum(n: int) | JStr(s: string) | JArr(items: seq<Json>) | JObj(fields: map<string, Json>)

  /** A request body that decoded to a JSON object. */
  type Body = map<string, Json>

  /** Python truthiness of a decoded value: `None`, `False`, `0`, `""`, `[]` and `{}` are falsy. */
  predicate Truthy(v: Json) {
    match v
    case JNull => false
    case JBool(b) => b
    case JNum(n) => n != 0
    case JStr(s) => s != ""
    case JArr(xs) => xs != []
    case JObj(m) => m != map[]
  }

  /** `field in data and data[field]`. */
  predicate Given(body: Body, field: string) {
    field in body && Truthy(body[field])
  }

  /** The outcome of Python's `int(v)`: a number, or the exception it raises. */
  datatype IntParse = Parsed(n: int) | ValueError | TypeError

  predicate IsSign(c: char) { c == '+' || c == '-' }

  /** `int(s)` on a string: surrounding whitespace is ignored, then an optional sign and at least
      one ASCII digit. */
  function ParseIntText(s: string): (r: Option<int>)
    ensures r.Some? <==> var t := PyStrip(s);
      (|t| > 0 && AllDigits(t)) || (|t| > 1 && IsSign(t[0]) && AllDigits(t[1..]))
  {
    var t := PyStrip(s);
    if |t| > 0 && AllDigits(t) then Some(DigitsValue(t))
    else if |t| > 1 && IsSign(t[0]) && AllDigits(t[1..]) then
      Some(if t[0] == '-' then -(DigitsValue(t[1..]) as int) else DigitsValue(t[1..]))
    else None
  }

  /** Python `str(n)` for an integer. */
  function IntToText(n: int): (r: string)
    ensures |r| >= 1
  {
    if n < 0 then "-" + NatToDecimal(-n) else NatToDecimal(n)
  }

  /** `int(str(n)) == n`. */
  lemma ParseIntTextRoundTrip(n: int)
    ensures ParseIntText(IntToText(n)) == Some(n)
  {
    var r := IntToText(n);
    assert forall i :: 0 <= i < |r| ==> !PyIsSpace(r[i]);
    assert StripStart(r, PyIsSpace) == r;
    assert StripEnd(r, PyIsSpace) == r;
    if n < 0 {
      assert r[1..] == NatToDecimal(-n);
      assert !AllDigits(r);
    }
  }

  /** `int(v)`: booleans are integers in Python, strings are parsed, `None`, lists and objects
      raise `TypeError`. */
  function PyInt(v: Json): (r: IntParse)
    ensures r.Parsed? <==> v.JBool? || v.JNum? || (v.JStr? && ParseIntText(v.s).Some?)
    ensures r == ValueError <==> v.JStr? && ParseIntText(v.s).None?
    ensures v.JStr? && r.Parsed? ==> ParseIntText(v.s) == Some(r.n)
  {
    match v
    case JBool(b) => Parsed(if b then 1 else 0)
    case JNum(n) => Parsed(n)
    case JStr(s) => (match ParseIntText(s) case Some(n) => Parsed(n) case None => ValueError)
    case _ => TypeError
  }

  /** A decimal text `float(s)` accepts: after stripping, an optional sign, then digits with at most
      one `.` and at least one digit. */
  predicate DecimalText(s: string) {
    var t := PyStrip(s);
    var u := if |t| > 0 && IsSign(t[0]) then t[1..] else t;
    var k := IndexOf(u, '.');
    AllDigits(u[..k]) && (k == |u| || AllDigits(u[k + 1..])) && |DigitsOnly(u)| > 0
  }

  /** Whether `float(v)` returns rather than raising. */
  predicate PyFloatOk(v: Json) {
    v.JBool? || v.JNum? || (v.JStr? && DecimalText(v.s))
  }

  /** Every text `int` accepts, `float` accepts too. */
  lemma IntTextIsDecimal(s: string)
    requires ParseIntText(s).Some?
    ensures DecimalText(s)
  {
    var t := PyStrip(s);
    var u := if |t| > 0 && IsSign(t[0]) then t[1..] else t;
    assert AllDigits(u) && |u| > 0;
    var k := IndexOf(u, '.');
    assert forall i :: 0 <= i < |u| ==> u[i] != '.';
    assert u[..k] == u;
  }

  // ------------------------------------------------------------------------------------------
  // Values sent to PostgreSQL

  /** What a text column holds: `NULL` or a text. */
  datatype SqlText = SqlNull | SqlString(s: string)

  /** The value a text column receives when psycopg2 sends a body value: `None` becomes `NULL`, a
      string is stored as it is, numbers and booleans through PostgreSQL's assignment cast to
      text; an object (which psycopg2 cannot adapt) or a list (sent as an `ARRAY`) makes the
      statement fail, modelled as `None`. */
  function TextColumn(v: Json): (r: Option<SqlText>)
    ensures r.None? <==> v.JArr? || v.JObj?
    ensures r == Some(SqlNull) <==> v.JNull?
    ensures v.JStr? ==> r == Some(SqlString(v.s))
    ensures v.JNum? ==> r.Some? && r.value.SqlString? && ParseIntText(r.value.s) == Some(v.n)
    ensures v.JBool? ==> r.Some? && r.value.SqlString? && (r.value.s == "true" <==> v.b)
  {
    match v
    case JNull => Some(SqlNull)
    case JStr(s) => Some(SqlString(s))
    case JNum(n) => ParseIntTextRoundTrip(n); Some(SqlString(IntToText(n)))
    case JBool(b) => Some(SqlString(if b then "true" else "false"))
    case _ => None
  }

  // ------------------------------------------------------------------------------------------
  // Python's `str`

  /** `", ".join(parts)`. */
  function JoinComma(parts: seq<string>): (r: string)
    ensures (forall i :: 0 <= i < |parts| ==> '\'' !in parts[i]) ==> '\'' !in r
  {
    if |parts| == 0 then ""
    else if |parts| == 1 then parts[0]
    else parts[0] + ", " + JoinComma(parts[1..])
  }

  /** `repr(v)` when it holds no `'`. Every string's `repr` holds one (as its quote, or inside
      when it is quoted with `"`), and so does every non-empty object, whose keys are strings;
      for those the result is `None`. */
  function ReprNoQuote(v: Json): (r: Option<string>)
    ensures r.Some? ==> '\'' !in r.value
    ensures r.None? <==> (v.JStr? || (v.JObj? && v.fields != map[])
                          || (v.JArr? && exists i :: 0 <= i < |v.items| && ReprNoQuote(v.items[i]).None?))
  {
    match v
    case JNull => Some("None")
    case JBool(b) => Some(if b then "True" else "False")
    case JNum(n) => Some(IntToText(n))
    case JStr(_) => None
    case JObj(m) => if m == map[] then Some("{}") else None
    case JArr(items) =>
      if forall i :: 0 <= i < |items| ==> ReprNoQuote(items[i]).Some? then
        Some("[" + JoinComma(seq(|items|, i requires 0 <= i < |items| => ReprNoQuote(items[i]).value)) + "]")
      else None
  }

  /** Python's `str(v)`, or `None` when that text holds a `'`: a string is its own text, any
      other value its `repr`. */
  function PyStr(v: Json): (r: Option<string>)
    ensures r.Some? ==> '\'' !in r.value
    ensures v.JStr? ==> (r.Some? <==> '\'' !in v.s) && (r.Some? ==> r.value == v.s)
    ensures !v.JStr? ==> r == ReprNoQuote(v)
  {
    match v
    case JStr(s) => if '\'' in s then None else Some(s)
    case _ => ReprNoQuote(v)
  }

  /** The text of an integer reads back as that integer, and only quote-free strings render. */
  lemma PyStrOfScalars(n: int, s: string)
    ensures PyStr(JNum(n)).Some? && ParseIntText(PyStr(JNum(n)).value) == Some(n)
    ensures PyStr(JStr(s)) == (if '\'' in s then None else Some(s))
    ensures PyStr(JBool(true)) == Some("True") && PyStr(JNull) == Some("None")
  {
    ParseIntTextRoundTrip(n);
  }
}
