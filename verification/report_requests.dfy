/** Request validation of the report endpoints and the month enumeration of the ranged
    endpoints. Query parameters are a map from name to value (`request.args`). */
module ReportRequests {
  import opened Wrappers
  import opened Text
  import opened Calendar
  import opened ReportStore

  type Args = map<string, string>

  /** `request.args.get(name)`. */
  function Arg(args: Args, name: string): Option<string> {
    if name in args then Some(args[name]) else None
  }

  /** Python `x or default` on an optional string: the empty string is falsy. */
  function OrElse(x: Option<string>, default: Option<string>): Option<string> {
    if x.Some? && x.value != "" then x else default
  }

  const AdminIdMaxLength: nat := 8

  /** `(request.args.get("admin_id") or "").strip()`. */
  function AdminArg(args: Args): string {
    PyStrip(OrElse(Arg(args, "admin_id"), Some("")).GetOr(""))
  }

  /** The admin check of the six generate endpoints: missing or blank → 400, longer than eight
      characters after stripping → 400. */
  function ValidateAdmin(args: Args): (r: Result<string>)
    ensures r.Err? ==> r.status == BadRequest
    ensures r.Ok? ==> 1 <= |r.value| <= AdminIdMaxLength
    ensures r.Ok? ==> !PyIsSpace(r.value[0]) && !PyIsSpace(r.value[|r.value| - 1])
    ensures r.Err? <==> (AdminArg(args) == "" || |AdminArg(args)| > AdminIdMaxLength)
    ensures "admin_id" !in args ==> r.Err?
  {
    var a := AdminArg(args);
    if a == "" then Err(BadRequest)
    else if |a| > AdminIdMaxLength then Err(BadRequest)
    else Ok(a)
  }

  /** Whitespace around `admin_id` does not change the outcome of the admin check. */
  lemma ValidateAdminIgnoresPadding(args: Args, lead: string, id: string, trail: string)
    requires forall i :: 0 <= i < |lead| ==> PyIsSpace(lead[i])
    requires forall i :: 0 <= i < |trail| ==> PyIsSpace(trail[i])
    requires id != ""
    ensures ValidateAdmin(args["admin_id" := lead + id + trail]) == ValidateAdmin(args["admin_id" := id])
  {
    var padded := lead + id + trail;
    assert |padded| >= |id| > 0;
    assert Arg(args["admin_id" := padded], "admin_id") == Some(padded);
    assert Arg(args["admin_id" := id], "admin_id") == Some(id);
    assert AdminArg(args["admin_id" := padded]) == PyStrip(padded);
    assert AdminArg(args["admin_id" := id]) == PyStrip(id);
    StripPadded(lead, id, trail, PyIsSpace);
  }

  /** The admin check of `list_reports`: only a blank id is refused; there is no length check. */
  function ValidateListAdmin(args: Args): (r: Result<string>)
    ensures r.Err? <==> AdminArg(args) == ""
    ensures r.Err? ==> r.status == BadRequest
    ensures r.Ok? ==> r.value == AdminArg(args)
  {
    var a := AdminArg(args);
    if a == "" then Err(BadRequest) else Ok(a)
  }

  lemma GenerateAdminAlsoLists(args: Args)
    requires ValidateAdmin(args).Ok?
    ensures ValidateListAdmin(args) == ValidateAdmin(args)
  {
  }

  /** A validated ranged request: the admin, the raw `start` and `end` texts and the parsed
      first-of-month dates, with `start <= end`. */
  datatype RangedRequest = RangedRequest(admin: string, startRaw: string, endRaw: string, start: Date, end: Date)

  predicate GoodRange(q: RangedRequest) {
    Valid(q.start) && Valid(q.end) && q.start.day == 1 && q.end.day == 1
    && 1 <= q.start.year <= 9999 && 1 <= q.end.year <= 9999
    && AtOrBefore(q.start, q.end)
  }

  /** The status a month that does not parse produces: the student endpoint calls `parse_month`
      outside any `try`, so the `ValueError` becomes a 500; the course and instructor endpoints
      catch it and answer 400. */
  function ParseFailureStatus(t: ReportType): (s: int)
    ensures t == StudentRanged ==> s == ServerError
    ensures t == CourseRanged || t == InstructorRanged ==> s == BadRequest
  {
    if t == StudentRanged then ServerError else BadRequest
  }

  /** Admin check, then `start` (missing or empty → 400), `end` defaulting to `start`, both
      parsed, then `end < start` → 400. */
  function ValidateRanged(args: Args, t: ReportType): (r: Result<RangedRequest>)
    ensures r.Ok? ==> GoodRange(r.value)
    ensures r.Ok? ==> ValidateAdmin(args) == Ok(r.value.admin)
    ensures r.Ok? ==> Arg(args, "start") == Some(r.value.startRaw) && r.value.startRaw != ""
    ensures r.Ok? ==> ParseMonth(r.value.startRaw) == Some(r.value.start)
    ensures r.Ok? ==> ParseMonth(r.value.endRaw) == Some(r.value.end)
    ensures r.Ok? && OrElse(Arg(args, "end"), None).None? ==> r.value.endRaw == r.value.startRaw
    ensures r.Ok? && OrElse(Arg(args, "end"), None).Some? ==> Some(r.value.endRaw) == Arg(args, "end")
    ensures ValidateAdmin(args).Err? ==> r == Err(BadRequest)
    ensures ValidateAdmin(args).Ok? && OrElse(Arg(args, "start"), None).None? ==> r == Err(BadRequest)
    ensures r.Err? ==> r.status == BadRequest || r.status == ParseFailureStatus(t)
  {
    match ValidateAdmin(args)
    case Err(s) => Err(s)
    case Ok(admin) =>
      var startRaw := Arg(args, "start");
      var endRaw := OrElse(Arg(args, "end"), startRaw);
      if startRaw.None? || startRaw.value == "" then Err(BadRequest)
      else
        var s := ParseMonth(startRaw.value);
        var e := ParseMonth(endRaw.value);
        if s.None? || e.None? then Err(ParseFailureStatus(t))
        else if Before(e.value, s.value) then Err(BadRequest)
        else Ok(RangedRequest(admin, startRaw.value, endRaw.value, s.value, e.value))
  }

  /** Only the parse failure depends on the endpoint; every other outcome is shared. */
  lemma ValidateRangedEndpoints(args: Args, t: ReportType, u: ReportType)
    ensures ValidateRanged(args, t).Ok? <==> ValidateRanged(args, u).Ok?
    ensures ValidateRanged(args, t).Ok? ==> ValidateRanged(args, t) == ValidateRanged(args, u)
    ensures ValidateRanged(args, t) != ValidateRanged(args, u) ==>
      ValidateRanged(args, t) == Err(ParseFailureStatus(t)) && ValidateRanged(args, u) == Err(ParseFailureStatus(u))
  {
    var startRaw := Arg(args, "start");
    if ValidateAdmin(args).Ok? && startRaw.Some? && startRaw.value != "" {
      var endRaw := OrElse(Arg(args, "end"), startRaw);
      if ParseMonth(startRaw.value).None? || ParseMonth(endRaw.value).None? {
        assert ValidateRanged(args, t) == Err(ParseFailureStatus(t));
        assert ValidateRanged(args, u) == Err(ParseFailureStatus(u));
      } else {
        assert ValidateRanged(args, t) == ValidateRanged(args, u);
      }
    } else {
      assert ValidateRanged(args, t) == ValidateRanged(args, u);
    }
  }

  /** An end month before the start month is refused with 400. */
  lemma EndBeforeStartRefused(args: Args, t: ReportType)
    requires ValidateAdmin(args).Ok?
    requires "start" in args && "end" in args && args["end"] != ""
    requires ParseMonth(args["start"]).Some? && ParseMonth(args["end"]).Some?
    requires Before(ParseMonth(args["end"]).value, ParseMonth(args["start"]).value)
    ensures ValidateRanged(args, t) == Err(BadRequest)
  {
  }

  // ------------------------------------------------------------------------------------------
  // Month enumeration

  /** The number of months from `start` to `end` inclusive, `12·(ey−sy)+(em−sm)+1`. */
  function MonthCount(start: Date, end: Date): int {
    12 * (end.year - start.year) + (end.month - start.month) + 1
  }

  /** Reference definition: the `n`-th month after `start`, for every `n` below the count. */
  function Months(start: Date, end: Date): (r: seq<Date>)
    ensures |r| == if MonthCount(start, end) < 0 then 0 else MonthCount(start, end)
    ensures forall i :: 0 <= i < |r| ==> Valid(r[i]) && r[i].day == 1 && MonthIndex(r[i]) == MonthIndex(start) + i
  {
    var n := if MonthCount(start, end) < 0 then 0 else MonthCount(start, end);
    var r := seq(n, i => MonthOfIndex(MonthIndex(start) + i));
    assert forall i :: 0 <= i < n ==> r[i] == MonthOfIndex(MonthIndex(start) + i);
    r
  }

  /** The `while cur <= end: months.append(cur); cur = (cur + timedelta(days=32)).replace(day=1)`
      loop. Ends in December 9999 make Python's date overflow on the final step; the flows
      refuse them before calling this. */
  method EnumerateMonths(start: Date, end: Date) returns (months: seq<Date>)
    requires Valid(start) && start.day == 1 && Valid(end) && end.day == 1
    ensures months == Months(start, end)
    ensures AtOrBefore(start, end) ==> |months| == MonthCount(start, end) && months[0] == start
    ensures Before(end, start) ==> months == []
    ensures forall i :: 0 <= i < |months| ==> AtOrBefore(start, months[i]) && AtOrBefore(months[i], end)
    ensures forall i :: 0 <= i < |months| - 1 ==> months[i + 1] == NextMonthStart(months[i])
  {
    MonthIndexInjective(start, end);
    months := [];
    var cur := start;
    while AtOrBefore(cur, end)
      invariant Valid(cur) && cur.day == 1
      invariant MonthIndex(cur) == MonthIndex(start) + |months|
      invariant MonthIndex(cur) <= MonthIndex(end) + 1 || months == []
      invariant forall i :: 0 <= i < |months| ==> months[i] == MonthOfIndex(MonthIndex(start) + i)
      decreases MonthIndex(end) - MonthIndex(cur) + 1
    {
      MonthIndexInjective(cur, end);
      months := months + [cur];
      MonthIndexInjective(cur, MonthOfIndex(MonthIndex(cur)));
      cur := NextMonthStart(cur);
    }
    MonthIndexInjective(cur, end);
    MonthsFacts(start, end);
  }

  lemma MonthsFacts(start: Date, end: Date)
    requires Valid(start) && start.day == 1 && Valid(end) && end.day == 1
    ensures var ms := Months(start, end);
      (forall i :: 0 <= i < |ms| ==> AtOrBefore(start, ms[i]) && AtOrBefore(ms[i], end))
      && (forall i :: 0 <= i < |ms| - 1 ==> ms[i + 1] == NextMonthStart(ms[i]))
      && (AtOrBefore(start, end) ==> |ms| == MonthCount(start, end) && ms[0] == start)
      && (Before(end, start) ==> ms == [])
  {
    var ms := Months(start, end);
    MonthIndexInjective(start, end);
    forall i | 0 <= i < |ms| ensures AtOrBefore(start, ms[i]) && AtOrBefore(ms[i], end) {
      MonthIndexInjective(start, ms[i]);
      MonthIndexInjective(ms[i], end);
    }
    forall i | 0 <= i < |ms| - 1 ensures ms[i + 1] == NextMonthStart(ms[i]) {
      MonthIndexInjective(ms[i + 1], NextMonthStart(ms[i]));
    }
    if AtOrBefore(start, end) {
      MonthIndexInjective(start, ms[0]);
    }
  }

  /** Enumerated months are pairwise distinct, so each month is processed once. */
  lemma MonthsDistinct(start: Date, end: Date)
    ensures var ms := Months(start, end);
      forall i, j :: 0 <= i < j < |ms| ==> ms[i] != ms[j]
  {
    var ms := Months(start, end);
    forall i, j | 0 <= i < j < |ms| ensures ms[i] != ms[j] {
      assert MonthIndex(ms[i]) != MonthIndex(ms[j]);
    }
  }

  /** Stepping from December 9999 leaves Python's date range (years 1 to 9999); every other month
      of that range has its successor inside it. */
  predicate StepOverflows(d: Date) {
    d.year == 9999 && d.month == 12
  }

  lemma StepStaysInRange(d: Date)
    requires Valid(d) && d.day == 1 && 1 <= d.year <= 9999
    ensures NextMonthStart(d).year <= 9999 <==> !StepOverflows(d)
  {
  }
}
