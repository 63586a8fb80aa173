/** The course ranged endpoint: only the parent report and the admin link are stored. */
module CourseReports {
  import opened Wrappers
  import opened Calendar
  import opened ReportStore
  import opened ReportRequests
  import opened ReportEngine

  datatype ParentOutcome = ParentOutcome(store: Store, parentId: string)

  /** The course ranged transaction on a validated request: get-or-create of the report for
      `(start, last_day(end))`, then the admin link. */
  function CourseRangedRun(st: Store, q: RangedRequest, drawn: string, now: int): (r: Result<ParentOutcome>)
    requires Inv(st) && GoodRange(q)
    ensures r.Err? <==> Lookup(st, Triple(CourseRanged, q.start, MonthEnd(q.end))).None? && drawn in Ids(st)
    ensures r.Err? ==> r.status == ServerError
    ensures r.Ok? ==>
      Grows(st, r.value.store)
      && Lookup(r.value.store, Triple(CourseRanged, q.start, MonthEnd(q.end))) == Some(r.value.parentId)
      && (q.admin, r.value.parentId) in r.value.store.links
      && r.value.store.metrics == st.metrics
  {
    var key := Triple(CourseRanged, q.start, MonthEnd(q.end));
    match GetOrCreate(st, key, drawn, now)
    case Err(s) => Err(s)
    case Ok(u) =>
      UpsertThenLink(st, u, key, q.admin);
      Ok(ParentOutcome(Link(u.store, q.admin, u.id), u.id))
  }

  /** The course ranged endpoint. `last_day` of December 9999 steps past Python's last date. */
  function CourseRangedReport(st: Store, args: Args, drawn: string, now: int): (r: Result<ParentOutcome>)
    requires Inv(st)
    ensures ValidateRanged(args, CourseRanged).Err? ==> r == Err(ValidateRanged(args, CourseRanged).status)
    ensures ValidateRanged(args, CourseRanged).Ok? && StepOverflows(ValidateRanged(args, CourseRanged).value.end) ==> r == Err(ServerError)
    ensures ValidateRanged(args, CourseRanged).Ok? && !StepOverflows(ValidateRanged(args, CourseRanged).value.end) ==>
      r == CourseRangedRun(st, ValidateRanged(args, CourseRanged).value, drawn, now)
  {
    match ValidateRanged(args, CourseRanged)
    case Err(s) => Err(s)
    case Ok(q) => if StepOverflows(q.end) then Err(ServerError) else CourseRangedRun(st, q, drawn, now)
  }

  /** A course ranged run keeps the store invariant and every listed report, and its report is
      listed for the admin; repeating it returns the same report and changes nothing. */
  lemma CourseRangedListedAndStable(st: Store, q: RangedRequest, drawn: string, now: int, drawn2: string, now2: int)
    requires Inv(st) && GoodRange(q) && CourseRangedRun(st, q, drawn, now).Ok?
    ensures var o := CourseRangedRun(st, q, drawn, now).value;
      Inv(o.store)
      && ListedFor(o.store, q.admin, o.parentId)
      && (forall a, id :: ListedFor(st, a, id) ==> ListedFor(o.store, a, id))
      && CourseRangedRun(o.store, q, drawn2, now2) == Ok(o)
  {
    var o := CourseRangedRun(st, q, drawn, now).value;
    var key := Triple(CourseRanged, q.start, MonthEnd(q.end));
    var u := GetOrCreate(st, key, drawn, now).value;
    InvGetOrCreate(st, key, drawn, now);
    GetOrCreateFrame(st, key, drawn, now);
    IdOfLookup(u.store, key);
    InvLinkMetrics(u.store, q.admin, u.id, Metrics([]));
    ExistingNonRankedIsRoot(st, key);
    assert Link(o.store, q.admin, o.parentId) == o.store by {
      assert o.store.links + {(q.admin, o.parentId)} == o.store.links;
    }
  }

  /** A report whose type never takes a parent is top-level. */
  lemma ExistingNonRankedIsRoot(st: Store, key: Triple)
    requires Inv(st) && !MayHaveParent(key.rtype)
    ensures Lookup(st, key).Some? ==> IsRoot(st, Lookup(st, key).value)
  {
    if Lookup(st, key).Some? {
      var i := KeyIndex(st.headers, key).value;
      assert st.headers[i] in st.headers;
      ParentAt(st, i);
    }
  }
}
