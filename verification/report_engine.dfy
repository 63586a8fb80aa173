/** The report endpoints as functions from (store, request) to an outcome: the store invariant
    every endpoint keeps, `list_reports`, the three general snapshots, and what the ranged
    endpoints (course, student and instructor, each in its own module) share.

    Inputs the handlers take from outside the database are parameters: `today` (for
    `date.today()`), `now` (the transaction's `CURRENT_TIMESTAMP`), `draws(k)` (the k-th id
    `new_report_id` returns within one request) and the SQL aggregates (`summary`, `compute`). */
module ReportEngine {
  import opened Wrappers
  import opened Calendar
  import opened ReportStore
  import opened ReportRequests

  predicate IsGeneral(t: ReportType) {
    t == StudentGeneral || t == CourseGeneral || t == InstructorGeneral
  }

  /** Only the two ranged endpoints with monthly children ever set a parent. */
  predicate MayHaveParent(t: ReportType) {
    t == StudentRanged || t == InstructorRanged
  }

  /** The store invariant every report endpoint keeps: the database constraints, parents only on
      student and instructor ranged reports, and a student ranged report is top-level exactly
      when its end date is a first of month (parents store the first day of the end month,
      monthly children store the month's last day). */
  predicate Inv(st: Store) {
    Wf(st)
    && (forall h :: h in st.headers && h.parent.Some? ==> MayHaveParent(h.key.rtype))
    && (forall h :: h in st.headers && h.key.rtype == StudentRanged ==> (h.parent.None? <==> h.key.end.day == 1))
  }

  lemma EmptyInv()
    ensures Inv(Empty())
  {
  }

  lemma InvGetOrCreate(st: Store, key: Triple, drawn: string, now: int)
    requires Inv(st) && GetOrCreate(st, key, drawn, now).Ok?
    requires key.rtype == StudentRanged ==> key.end.day == 1
    ensures Inv(GetOrCreate(st, key, drawn, now).value.store)
  {
    GetOrCreateFrame(st, key, drawn, now);
  }

  lemma InvUpsertChild(st: Store, key: Triple, drawn: string, parent: string, now: int)
    requires Inv(st) && UpsertChild(st, key, drawn, parent, now).Ok?
    requires MayHaveParent(key.rtype) && (key.rtype == StudentRanged ==> key.end.day != 1)
    ensures Inv(UpsertChild(st, key, drawn, parent, now).value.store)
  {
    UpsertChildFrame(st, key, drawn, parent, now);
  }

  lemma InvLinkMetrics(st: Store, admin: string, id: string, m: Metrics)
    requires Inv(st) && id in Ids(st)
    ensures Inv(Link(st, admin, id)) && Inv(InsertMetrics(st, id, m))
    ensures Inv(InsertMetrics(Link(st, admin, id), id, m))
  {
    LinkFacts(st, admin, id);
  }

  /** A report listed for an admin: linked to the admin and top-level. */
  predicate ListedFor(st: Store, admin: string, id: string) {
    IsRoot(st, id) && (admin, id) in st.links
  }

  /** `list_reports`: the admin check, then the linked top-level reports, newest first. */
  function ListReportsRequest(st: Store, args: Args): (r: Result<seq<Header>>)
    ensures r.Err? <==> ValidateListAdmin(args).Err?
    ensures r.Err? ==> r.status == BadRequest
    ensures r.Ok? ==> forall h :: h in r.value <==> h in st.headers && Listed(st, AdminArg(args), h)
    ensures r.Ok? ==> forall i, j :: 0 <= i < j < |r.value| ==> r.value[i].created >= r.value[j].created
  {
    match ValidateListAdmin(args)
    case Err(s) => Err(s)
    case Ok(admin) => Ok(ListReports(st, admin))
  }

  // ------------------------------------------------------------------------------------------
  // General reports

  /** `(start, end)` of a general report: from the earliest month (of registrations or of course
      creation), or today's month when there is none, to the last completed month. The student
      and instructor endpoints pass the pair through `sorted`; the course endpoint does not. */
  function GeneralRange(t: ReportType, earliest: Option<Date>, today: Date): (r: (Date, Date))
    requires Valid(today) && (earliest.Some? ==> Valid(earliest.value) && earliest.value.day == 1)
    ensures Valid(r.0) && Valid(r.1) && r.0.day == 1 && r.1.day == 1
    ensures t != CourseGeneral ==> AtOrBefore(r.0, r.1)
    ensures t != CourseGeneral ==>
      {r.0, r.1} == {earliest.GetOr(FirstDay(today)), LastCompletedMonth(today)}
    ensures t == CourseGeneral ==> r.0 == earliest.GetOr(FirstDay(today)) && r.1 == LastCompletedMonth(today)
  {
    var rawStart := earliest.GetOr(FirstDay(today));
    var rawEnd := LastCompletedMonth(today);
    if t == CourseGeneral || AtOrBefore(rawStart, rawEnd) then (rawStart, rawEnd)
    else (rawEnd, rawStart)
  }

  /** Without any course (or with every course created in the current month) the course general
      range starts after it ends, because that endpoint does not sort the pair. */
  lemma CourseGeneralRangeInverted(today: Date)
    requires Valid(today)
    ensures Before(GeneralRange(CourseGeneral, None, today).1, GeneralRange(CourseGeneral, None, today).0)
    ensures AtOrBefore(GeneralRange(StudentGeneral, None, today).0, GeneralRange(StudentGeneral, None, today).1)
  {
  }

  datatype GeneralOutcome = GeneralOutcome(store: Store, reportId: string, start: Date, end: Date)

  /** A general endpoint: admin check; range; get-or-create of the report for the range; link of
      the admin; metrics insert that keeps an existing row; re-selection of the report id. */
  function GeneralReport(st: Store, args: Args, t: ReportType, earliest: Option<Date>, today: Date,
                         drawn: string, now: int, summary: Metrics): (r: Result<GeneralOutcome>)
    requires Inv(st) && IsGeneral(t)
    requires Valid(today) && (earliest.Some? ==> Valid(earliest.value) && earliest.value.day == 1)
    ensures ValidateAdmin(args).Err? ==> r == Err(BadRequest)
    ensures r.Err? ==> r.status == BadRequest || r.status == ServerError
    ensures r.Ok? ==> var key := Triple(t, r.value.start, r.value.end);
      Inv(r.value.store)
      && (r.value.start, r.value.end) == GeneralRange(t, earliest, today)
      && Lookup(r.value.store, key) == Some(r.value.reportId)
      && (Lookup(st, key).Some? ==> r.value.reportId == Lookup(st, key).value)
      && (ValidateAdmin(args).value, r.value.reportId) in r.value.store.links
      && r.value.reportId in r.value.store.metrics
      && (forall k :: k in st.metrics ==> k in r.value.store.metrics && r.value.store.metrics[k] == st.metrics[k])
      && (r.value.reportId !in st.metrics ==> r.value.store.metrics[r.value.reportId] == summary)
  {
    match ValidateAdmin(args)
    case Err(s) => Err(s)
    case Ok(admin) =>
      var range := GeneralRange(t, earliest, today);
      var key := Triple(t, range.0, range.1);
      match GetOrCreate(st, key, drawn, now)
      case Err(s) => Err(s)
      case Ok(u) =>
        InvGetOrCreate(st, key, drawn, now);
        var st' := InsertMetrics(Link(u.store, admin, u.id), u.id, summary);
        LinkMetricsKeepsLookup(u.store, key, admin, u.id, summary);
        Ok(GeneralOutcome(st', Lookup(st', key).value, range.0, range.1))
  }

  /** Linking the admin and inserting the metrics of the report a key names keeps the invariant
      and the key's report. */
  lemma LinkMetricsKeepsLookup(st: Store, key: Triple, admin: string, id: string, m: Metrics)
    requires Inv(st) && Lookup(st, key) == Some(id)
    ensures var st' := InsertMetrics(Link(st, admin, id), id, m);
      Inv(st') && Lookup(st', key) == Some(id) && (admin, id) in st'.links && id in st'.metrics
  {
    IdOfLookup(st, key);
    InvLinkMetrics(st, admin, id, m);
  }


  /** A successful general report is listed for the requesting admin, and every report listed
      for anyone before stays listed. */
  lemma GeneralReportListed(st: Store, args: Args, t: ReportType, earliest: Option<Date>, today: Date,
                            drawn: string, now: int, summary: Metrics)
    requires Inv(st) && IsGeneral(t)
    requires Valid(today) && (earliest.Some? ==> Valid(earliest.value) && earliest.value.day == 1)
    ensures GeneralReport(st, args, t, earliest, today, drawn, now, summary).Ok? ==>
      var o := GeneralReport(st, args, t, earliest, today, drawn, now, summary).value;
      ListedFor(o.store, ValidateAdmin(args).value, o.reportId)
      && (forall a, id :: ListedFor(st, a, id) ==> ListedFor(o.store, a, id))
  {
    if GeneralReport(st, args, t, earliest, today, drawn, now, summary).Ok? {
      var admin := ValidateAdmin(args).value;
      var range := GeneralRange(t, earliest, today);
      var key := Triple(t, range.0, range.1);
      var u := GetOrCreate(st, key, drawn, now).value;
      GeneralLinkListed(st, key, drawn, now, admin, summary);
      var st' := InsertMetrics(Link(u.store, admin, u.id), u.id, summary);
      assert GeneralReport(st, args, t, earliest, today, drawn, now, summary).value
        == GeneralOutcome(st', Lookup(st', key).value, range.0, range.1);
    }
  }

  /** Linking the admin to the report a general endpoint gets or creates lists it for the admin,
      and keeps every earlier listing. */
  lemma GeneralLinkListed(st: Store, key: Triple, drawn: string, now: int, admin: string, summary: Metrics)
    requires Inv(st) && IsGeneral(key.rtype) && GetOrCreate(st, key, drawn, now).Ok?
    ensures var u := GetOrCreate(st, key, drawn, now).value;
      var st' := InsertMetrics(Link(u.store, admin, u.id), u.id, summary);
      Lookup(st', key) == Some(u.id)
      && ListedFor(st', admin, u.id) && forall a, id :: ListedFor(st, a, id) ==> ListedFor(st', a, id)
  {
    var u := GetOrCreate(st, key, drawn, now).value;
    GeneralKeyRoot(st, key, drawn, now);
    var st' := InsertMetrics(Link(u.store, admin, u.id), u.id, summary);
    assert st'.headers == u.store.headers && st'.links == u.store.links + {(admin, u.id)};
  }

  /** The report a general endpoint gets or creates is top-level, and so is every report that
      was top-level before. */
  lemma GeneralKeyRoot(st: Store, key: Triple, drawn: string, now: int)
    requires Inv(st) && IsGeneral(key.rtype) && GetOrCreate(st, key, drawn, now).Ok?
    ensures var u := GetOrCreate(st, key, drawn, now).value;
      IsRoot(u.store, u.id) && forall id :: IsRoot(st, id) ==> IsRoot(u.store, id)
  {
    GetOrCreateFrame(st, key, drawn, now);
    if Lookup(st, key).Some? {
      var i := KeyIndex(st.headers, key).value;
      assert st.headers[i] in st.headers;
      ParentAt(st, i);
    }
  }

  /** Repeating a general request on the same day returns the same report and changes nothing,
      whatever id the repetition draws and whatever its aggregates compute. */
  lemma GeneralReportTwice(st: Store, args: Args, t: ReportType, earliest: Option<Date>, today: Date,
                           drawn1: string, now1: int, summary1: Metrics,
                           drawn2: string, now2: int, summary2: Metrics)
    requires Inv(st) && IsGeneral(t)
    requires Valid(today) && (earliest.Some? ==> Valid(earliest.value) && earliest.value.day == 1)
    ensures GeneralReport(st, args, t, earliest, today, drawn1, now1, summary1).Ok? ==>
      var o := GeneralReport(st, args, t, earliest, today, drawn1, now1, summary1).value;
      GeneralReport(o.store, args, t, earliest, today, drawn2, now2, summary2) == Ok(o)
  {
    if GeneralReport(st, args, t, earliest, today, drawn1, now1, summary1).Ok? {
      var o := GeneralReport(st, args, t, earliest, today, drawn1, now1, summary1).value;
      var admin := ValidateAdmin(args).value;
      LinkFacts(o.store, admin, o.reportId);
      assert Link(o.store, admin, o.reportId) == o.store by {
        assert o.store.links + {(admin, o.reportId)} == o.store.links;
      }
    }
  }


  lemma IdOfLookup(st: Store, key: Triple)
    requires Lookup(st, key).Some?
    ensures Lookup(st, key).value in Ids(st)
  {
    var i := KeyIndex(st.headers, key).value;
    assert st.headers[i] in st.headers;
  }

  /** `st'` extends `st`: the constraints hold and every link, report and metrics row of `st` is
      still there, unchanged. */
  predicate Grows(st: Store, st': Store) {
    Wf(st') && st.links <= st'.links && Ids(st) <= Ids(st')
    && forall k :: k in st.metrics ==> k in st'.metrics && st'.metrics[k] == st.metrics[k]
  }

  lemma GrowsTransitive(a: Store, b: Store, c: Store)
    requires Grows(a, b) && Grows(b, c)
    ensures Grows(a, c)
  {
  }

  /** A property that holds of the head pair and pointwise of the tails holds pointwise. */
  lemma ConsAll<A, B>(xs: seq<A>, y: B, ys: seq<B>, p: (A, B) -> bool)
    requires |xs| == |ys| + 1 && p(xs[0], y)
    requires forall i :: 0 <= i < |ys| ==> p(xs[1..][i], ys[i])
    ensures forall i :: 0 <= i < |xs| ==> p(xs[i], ([y] + ys)[i])
  {
    forall i | 0 <= i < |xs| ensures p(xs[i], ([y] + ys)[i]) {
      if i > 0 {
        assert xs[i] == xs[1..][i - 1];
      }
    }
  }

  /** The upsert of a report followed by the admin link: a store that grows and lists the admin
      against the report. */
  lemma UpsertThenLink(st: Store, u: Upserted, key: Triple, admin: string)
    requires Wf(st) && Wf(u.store) && Lookup(u.store, key) == Some(u.id)
    requires u.store.metrics == st.metrics && u.store.links == st.links && Ids(u.store) == Ids(st) + {u.id}
    ensures Grows(st, Link(u.store, admin, u.id)) && Grows(u.store, Link(u.store, admin, u.id))
  {
    IdOfLookup(u.store, key);
    LinkFacts(u.store, admin, u.id);
  }

  /** `last_day(d)`, written with the month length so that the triples below do not unfold the
      day arithmetic of `LastDay`; `MonthEndIsLastDay` relates the two. */
  function MonthEnd(d: Date): (r: Date)
    requires Valid(d)
    ensures r.year == d.year && r.month == d.month && r.day >= 28
  {
    Date(d.year, d.month, DaysInMonth(d.year, d.month))
  }

  lemma MonthEndIsLastDay(d: Date)
    requires Valid(d)
    ensures MonthEnd(d) == LastDay(d)
  {
  }

  // ------------------------------------------------------------------------------------------
  // Shared by the ranged loops

  /** The triple of the monthly child for month `m` (`m` to `last_day(m)`). */
  function ChildKey(t: ReportType, m: Date): (k: Triple)
    requires Valid(m)
    ensures k.end.day >= 28 && k.start == m && k.rtype == t
  {
    Triple(t, m, MonthEnd(m))
  }

  predicate MonthsOk(months: seq<Date>) {
    forall i :: 0 <= i < |months| ==> Valid(months[i]) && months[i].day == 1
  }

  /** The store after a monthly loop and what it reported for each month, in order. */
  datatype LoopOut<S> = LoopOut(store: Store, stats: seq<S>)
}
