/** Calendar-month arithmetic of the reporting helpers: dates as year/month/day triples of the
    proleptic Gregorian calendar, `first_day`, `last_day` (computed the way the source does it,
    by stepping to day 28, adding four days and stepping back from the next month's first day),
    `month_label`, `last_completed_month`, `parse_month` and the month step of the ranged loops. */
module Calendar {
  import opened Wrappers
  import opened Text

  datatype Date = Date(year: int, month: int, day: int)

  predicate IsLeapYear(y: int) {
    y % 4 == 0 && (y % 100 != 0 || y % 400 == 0)
  }

  function DaysInMonth(y: int, m: int): (n: int)
    ensures 28 <= n <= 31
    ensures m == 2 ==> (n == 29 <==> IsLeapYear(y))
  {
    if m == 2 then (if IsLeapYear(y) then 29 else 28)
    else if m == 4 || m == 6 || m == 9 || m == 11 then 30
    else 31
  }

  predicate Valid(d: Date) {
    1 <= d.month <= 12 && 1 <= d.day <= DaysInMonth(d.year, d.month)
  }

  /** Python's date comparison `a < b`: lexicographic on (year, month, day). */
  predicate Before(a: Date, b: Date) {
    a.year < b.year
    || (a.year == b.year && (a.month < b.month || (a.month == b.month && a.day < b.day)))
  }

  predicate AtOrBefore(a: Date, b: Date) {
    a == b || Before(a, b)
  }

  /** `d.replace(day=k)`. */
  function WithDay(d: Date, k: int): (r: Date)
    requires Valid(d) && 1 <= k <= DaysInMonth(d.year, d.month)
    ensures Valid(r)
  {
    d.(day := k)
  }

  function FirstOfNextMonth(y: int, m: int): Date {
    if m < 12 then Date(y, m + 1, 1) else Date(y + 1, 1, 1)
  }

  /** `d + timedelta(days=1)`. */
  function NextDay(d: Date): (r: Date)
    requires Valid(d)
    ensures Valid(r)
  {
    if d.day < DaysInMonth(d.year, d.month) then d.(day := d.day + 1)
    else FirstOfNextMonth(d.year, d.month)
  }

  /** `d - timedelta(days=1)`. */
  function PrevDay(d: Date): (r: Date)
    requires Valid(d)
    ensures Valid(r)
  {
    if d.day > 1 then d.(day := d.day - 1)
    else if d.month > 1 then Date(d.year, d.month - 1, DaysInMonth(d.year, d.month - 1))
    else Date(d.year - 1, 12, 31)
  }

  /** `d + timedelta(days=n)` for `n >= 0`. */
  function AddDays(d: Date, n: nat): (r: Date)
    requires Valid(d)
    ensures Valid(r)
    decreases n
  {
    if n == 0 then d else AddDays(NextDay(d), n - 1)
  }

  /** Adding days that stay inside the month only moves the day. */
  lemma {:induction false} AddDaysWithinMonth(d: Date, n: nat)
    requires Valid(d) && d.day + n <= DaysInMonth(d.year, d.month)
    ensures AddDays(d, n) == d.(day := d.day + n)
    decreases n
  {
    if n > 0 {
      AddDaysWithinMonth(NextDay(d), n - 1);
    }
  }

  /** Adding days that leave the month passes through the first day of the next month. */
  lemma {:induction false} AddDaysCrossingMonth(d: Date, n: nat)
    requires Valid(d) && d.day + n > DaysInMonth(d.year, d.month)
    ensures AddDays(d, n) == AddDays(FirstOfNextMonth(d.year, d.month), n - (DaysInMonth(d.year, d.month) - d.day) - 1)
    decreases n
  {
    if d.day < DaysInMonth(d.year, d.month) {
      AddDaysCrossingMonth(NextDay(d), n - 1);
    }
  }

  /** `first_day(d)`: `d.replace(day=1)`. */
  function FirstDay(d: Date): (r: Date)
    requires Valid(d)
    ensures Valid(r)
  {
    WithDay(d, 1)
  }

  /** `last_day(d)`, computed as the source does: replace the day by 28, add four days (which
      always lands in the next month), replace the day by 1 and step back one day. */
  function LastDay(d: Date): (r: Date)
    requires Valid(d)
    ensures Valid(r)
    ensures r == Date(d.year, d.month, DaysInMonth(d.year, d.month))
  {
    var n := DaysInMonth(d.year, d.month);
    var d28 := WithDay(d, 28);
    AddDaysCrossingMonth(d28, 4);
    var next := FirstOfNextMonth(d.year, d.month);
    AddDaysWithinMonth(next, 31 - n);
    PrevDay(WithDay(AddDays(d28, 4), 1))
  }

  lemma FirstDayFacts(d: Date)
    requires Valid(d)
    ensures FirstDay(d).year == d.year && FirstDay(d).month == d.month && FirstDay(d).day == 1
    ensures FirstDay(FirstDay(d)) == FirstDay(d)
    ensures AtOrBefore(FirstDay(d), d)
  {
  }

  /** `last_day` depends only on the year and month, bounds the month from above, and its day is
      the month's length (29 in a leap February, 28 in any other February). */
  lemma LastDayFacts(d: Date, e: Date)
    requires Valid(d) && Valid(e) && d.year == e.year && d.month == e.month
    ensures LastDay(d) == LastDay(e)
    ensures AtOrBefore(FirstDay(d), d) && AtOrBefore(d, LastDay(d))
    ensures d.month == 2 ==> (LastDay(d).day == 29 <==> IsLeapYear(d.year))
    ensures d.month == 2 ==> (LastDay(d).day == 28 <==> !IsLeapYear(d.year))
  {
  }

  /** One day after `last_day(d)` is the first day of the next month; December rolls over into
      January of the next year. */
  lemma LastDayThenNextDay(d: Date)
    requires Valid(d)
    ensures NextDay(LastDay(d)).day == 1
    ensures d.month < 12 ==> NextDay(LastDay(d)) == Date(d.year, d.month + 1, 1)
    ensures d.month == 12 ==> NextDay(LastDay(d)) == Date(d.year + 1, 1, 1)
  {
  }

  /** `last_completed_month(today)`: the first day of the month before today's month. */
  function LastCompletedMonth(today: Date): (r: Date)
    requires Valid(today)
    ensures Valid(r) && r.day == 1
    ensures today.month > 1 ==> r == Date(today.year, today.month - 1, 1)
    ensures today.month == 1 ==> r == Date(today.year - 1, 12, 1)
    ensures Before(r, FirstDay(today))
  {
    var firstOfThisMonth := WithDay(today, 1);
    var lastMonthEnd := PrevDay(firstOfThisMonth);
    WithDay(lastMonthEnd, 1)
  }

  // ------------------------------------------------------------------------------------------
  // Month indices: the months of the calendar numbered consecutively.

  function MonthIndex(d: Date): int {
    d.year * 12 + (d.month - 1)
  }

  function MonthOfIndex(k: int): (r: Date)
    ensures Valid(r) && r.day == 1 && MonthIndex(r) == k
  {
    Date(k / 12, k % 12 + 1, 1)
  }

  lemma MonthIndexInjective(a: Date, b: Date)
    requires Valid(a) && Valid(b) && a.day == 1 && b.day == 1
    ensures MonthIndex(a) == MonthIndex(b) <==> a == b
    ensures MonthIndex(a) < MonthIndex(b) <==> Before(a, b)
    ensures a == MonthOfIndex(MonthIndex(a))
  {
  }

  /** The step of the ranged-report loops: `(d + timedelta(days=32)).replace(day=1)`. For the
      first day of a month it is the first day of the calendar successor month. */
  function NextMonthStart(d: Date): (r: Date)
    requires Valid(d) && d.day == 1
    ensures Valid(r) && r.day == 1
    ensures MonthIndex(r) == MonthIndex(d) + 1
    ensures r == FirstOfNextMonth(d.year, d.month)
  {
    var n := DaysInMonth(d.year, d.month);
    AddDaysCrossingMonth(d, 32);
    AddDaysWithinMonth(FirstOfNextMonth(d.year, d.month), 32 - n);
    WithDay(AddDays(d, 32), 1)
  }

  // ------------------------------------------------------------------------------------------
  // Labels and parsing.

  /** `month_label(d)`: `d.strftime("%Y-%m")`, the year as four digits and the month as two. */
  function MonthLabel(d: Date): (r: string)
    requires Valid(d) && 1 <= d.year <= 9999
    ensures |r| == 7 && r[4] == '-'
    ensures AllDigits(r[..4]) && AllDigits(r[5..])
    ensures DigitsValue(r[..4]) == d.year && DigitsValue(r[5..]) == d.month
  {
    var y := ZeroPad(d.year, 4);
    var m := ZeroPad(d.month, 2);
    PadWidth(d.year, 4);
    PadWidth(d.month, 2);
    JoinLabel(y, m);
    y + "-" + m
  }

  lemma PadWidth(n: nat, w: nat)
    requires 1 <= w <= 4 && n < Pow10(w)
    ensures |ZeroPad(n, w)| == w
  {
    DecimalLength(n, w);
  }

  lemma JoinLabel(y: string, m: string)
    requires |y| == 4 && |m| == 2
    ensures |y + "-" + m| == 7 && (y + "-" + m)[4] == '-'
    ensures (y + "-" + m)[..4] == y && (y + "-" + m)[5..] == m
  {
  }

  /** The month directive `%m` of `strptime`: `1[0-2]`, `0[1-9]` or `[1-9]`, matching the whole
      remaining text. */
  function MonthField(t: string): (r: Option<int>)
    ensures r.Some? ==> 1 <= r.value <= 12
    ensures r.Some? ==> AllDigits(t) && DigitsValue(t) == r.value
  {
    if |t| == 1 && '1' <= t[0] <= '9' then
      assert t[..0] == "";
      Some(DigitValue(t[0]))
    else if |t| == 2 && t[0] == '0' && '1' <= t[1] <= '9' then
      assert t[..1] == [t[0]] && [t[0]][..0] == "";
      assert DigitsValue(t[..1]) == 0;
      Some(DigitValue(t[1]))
    else if |t| == 2 && t[0] == '1' && '0' <= t[1] <= '2' then
      assert t[..1] == [t[0]] && [t[0]][..0] == "";
      Some(10 + DigitValue(t[1]))
    else None
  }

  /** `parse_month(s)`: `strptime(s.strip() + "-01", "%Y-%m-%d")`. The year is exactly four
      ASCII digits and may not be 0000; the month follows `MonthField`. Any other text is a
      `ValueError`, modelled as `None`. */
  function ParseMonth(raw: string): (r: Option<Date>)
    ensures r.Some? ==> Valid(r.value) && r.value.day == 1 && 1 <= r.value.year <= 9999
  {
    var s := PyStrip(raw);
    if |s| >= 6 && AllDigits(s[..4]) && s[4] == '-' && MonthField(s[5..]).Some?
       && DigitsValue(s[..4]) != 0
    then
      assert DigitsValue(s[..4]) <= 9999 by { DigitsBound(s[..4]); }
      Some(Date(DigitsValue(s[..4]), MonthField(s[5..]).value, 1))
    else None
  }

  lemma DigitsBound(s: string)
    requires AllDigits(s)
    ensures DigitsValue(s) < Pow10(|s|)
  {
    if |s| > 0 {
      DigitsBound(s[..|s| - 1]);
    }
  }

  lemma TwoDigitMonth(t: string)
    requires |t| == 2 && AllDigits(t) && 1 <= DigitsValue(t) <= 12
    ensures MonthField(t) == Some(DigitsValue(t))
  {
    assert t[..1] == [t[0]] && [t[0]][..0] == "";
    assert DigitsValue(t) == DigitValue(t[0]) * 10 + DigitValue(t[1]);
  }

  lemma NoSpaceIsStripped(l: string)
    requires forall i :: 0 <= i < |l| ==> IsDigit(l[i]) || l[i] == '-'
    ensures PyStrip(l) == l
  {
    assert forall i :: 0 <= i < |l| ==> !PyIsSpace(l[i]);
  }

  /** `parse_month(month_label(d)) == first_day(d)` for four-digit years. */
  lemma ParseMonthLabel(d: Date)
    requires Valid(d) && 1000 <= d.year <= 9999
    ensures ParseMonth(MonthLabel(d)) == Some(FirstDay(d))
  {
    var l := MonthLabel(d);
    assert forall i :: 0 <= i < |l| ==> IsDigit(l[i]) || l[i] == '-' by {
      forall i | 0 <= i < |l| ensures IsDigit(l[i]) || l[i] == '-' {
        if i < 4 { assert l[i] == l[..4][i]; } else if i > 4 { assert l[i] == l[5..][i - 5]; }
      }
    }
    NoSpaceIsStripped(l);
    TwoDigitMonth(l[5..]);
  }

  lemma StripStartSpacesPrefix(a: string, s: string, isSpace: char -> bool)
    requires forall i :: 0 <= i < |a| ==> isSpace(a[i])
    ensures StripStart(a + s, isSpace) == StripStart(s, isSpace)
  {
    if |a| > 0 {
      assert (a + s)[1..] == a[1..] + s;
      StripStartSpacesPrefix(a[1..], s, isSpace);
    } else {
      assert a + s == s;
    }
  }

  lemma StripEndSpacesSuffix(s: string, b: string, isSpace: char -> bool)
    requires forall i :: 0 <= i < |b| ==> isSpace(b[i])
    ensures StripEnd(s + b, isSpace) == StripEnd(s, isSpace)
  {
    if |b| > 0 {
      assert (s + b)[..|s + b| - 1] == s + b[..|b| - 1];
      StripEndSpacesSuffix(s, b[..|b| - 1], isSpace);
    } else {
      assert s + b == s;
    }
  }

  lemma StripStartSuffix(s: string, b: string, isSpace: char -> bool)
    requires forall i :: 0 <= i < |b| ==> isSpace(b[i])
    ensures StripStart(s + b, isSpace) == (if StripStart(s, isSpace) == "" then "" else StripStart(s, isSpace) + b)
  {
    if |s| == 0 {
      assert s + b == b;
      AllSpacesStripToEmpty(b, isSpace);
    } else if isSpace(s[0]) {
      assert (s + b)[1..] == s[1..] + b;
      StripStartSuffix(s[1..], b, isSpace);
    }
  }

  lemma AllSpacesStripToEmpty(b: string, isSpace: char -> bool)
    requires forall i :: 0 <= i < |b| ==> isSpace(b[i])
    ensures StripStart(b, isSpace) == ""
  {
    if |b| > 0 {
      AllSpacesStripToEmpty(b[1..], isSpace);
    }
  }

  lemma StripPadded(lead: string, s: string, trail: string, isSpace: char -> bool)
    requires forall i :: 0 <= i < |lead| ==> isSpace(lead[i])
    requires forall i :: 0 <= i < |trail| ==> isSpace(trail[i])
    ensures Strip(lead + s + trail, isSpace) == Strip(s, isSpace)
  {
    assert lead + s + trail == lead + (s + trail);
    StripStartSpacesPrefix(lead, s + trail, isSpace);
    StripStartSuffix(s, trail, isSpace);
    if StripStart(s, isSpace) != "" {
      StripEndSpacesSuffix(StripStart(s, isSpace), trail, isSpace);
    }
  }

  /** `parse_month` ignores whitespace around the month text. */
  lemma ParseMonthIgnoresPadding(lead: string, s: string, trail: string)
    requires forall i :: 0 <= i < |lead| ==> PyIsSpace(lead[i])
    requires forall i :: 0 <= i < |trail| ==> PyIsSpace(trail[i])
    ensures ParseMonth(lead + s + trail) == ParseMonth(s)
  {
    StripPadded(lead, s, trail, PyIsSpace);
  }
}
