/** The instructor ranged endpoint: a parent report and one child per month, every month
    recomputed; as written, and corrected so that it never hides a top-level report. */
module InstructorReports {
  import opened Wrappers
  import opened Calendar
  import opened ReportStore
  import opened ReportRequests
  import opened ReportEngine

  /** One month of the instructor loop as written: the child for the month's triple is
      upserted with `ON CONFLICT DO UPDATE SET parent_report_id`, whatever that report was,
      then given a metrics row unless it has one. */
  function InstructorStep(st: Store, parent: string, m: Date, drawn: string, metrics: Metrics, now: int): (r: Result<Upserted>)
    requires Wf(st) && Valid(m) && m.day == 1
    ensures r.Err? <==> Lookup(st, ChildKey(InstructorRanged, m)).None? && drawn in Ids(st)
    ensures r.Err? ==> r.status == ServerError
    ensures r.Ok? ==>
      Grows(st, r.value.store) && r.value.store.links == st.links
      && Lookup(r.value.store, ChildKey(InstructorRanged, m)) == Some(r.value.id)
      && Parent(r.value.store, r.value.id) == Some(parent)
      && r.value.id in r.value.store.metrics
    ensures Lookup(st, ChildKey(InstructorRanged, m)).Some? ==> r.Ok? && r.value.id == Lookup(st, ChildKey(InstructorRanged, m)).value
  {
    var key := ChildKey(InstructorRanged, m);
    match UpsertChild(st, key, drawn, parent, now)
    case Err(s) => Err(s)
    case Ok(u) =>
      IdOfLookup(u.store, key);
      InsertMetricsFacts(u.store, u.id, metrics, metrics);
      Ok(Upserted(InsertMetrics(u.store, u.id, metrics), u.id))
  }

  /** The instructor loop: every month is computed; stored metrics are never read back and no
      admin link is made for the children. */
  function InstructorLoop(st: Store, parent: string, months: seq<Date>, next: nat, draws: nat -> string,
                          compute: Date -> Metrics, now: int): (r: Result<LoopOut<Metrics>>)
    requires Wf(st) && MonthsOk(months)
    ensures r.Err? ==> r.status == ServerError
    ensures r.Ok? ==> Grows(st, r.value.store) && r.value.store.links == st.links
    ensures r.Ok? ==> |r.value.stats| == |months| && forall i :: 0 <= i < |months| ==> r.value.stats[i] == compute(months[i])
    decreases |months|
  {
    if |months| == 0 then Ok(LoopOut(st, []))
    else
      match InstructorStep(st, parent, months[0], draws(next), compute(months[0]), now)
      case Err(s) => Err(s)
      case Ok(u) =>
        match InstructorLoop(u.store, parent, months[1..], next + 1, draws, compute, now)
        case Err(s) => Err(s)
        case Ok(rest) =>
          GrowsTransitive(st, u.store, rest.store);
          ConsAll(months, compute(months[0]), rest.stats, (m, x) => x == compute(m));
          Ok(LoopOut(rest.store, [compute(months[0])] + rest.stats))
  }

  datatype InstructorOutcome = InstructorOutcome(store: Store, parentId: string, stats: seq<Metrics>)

  /** The parent triple of an instructor ranged request: `(start, last_day(end))`. For a
      one-month range it is the child triple of that month. */
  function InstructorParentKey(q: RangedRequest): (k: Triple)
    requires GoodRange(q)
    ensures k.rtype == InstructorRanged && k.start == q.start
    ensures q.start == q.end ==> k == ChildKey(InstructorRanged, q.start)
  {
    Triple(InstructorRanged, q.start, MonthEnd(q.end))
  }

  /** The parent upsert of the instructor ranged transaction as written, then the admin link. */
  function InstructorParent(st: Store, q: RangedRequest, drawn: string, now: int): (r: Result<Upserted>)
    requires Wf(st) && GoodRange(q)
    ensures r.Err? <==> Lookup(st, InstructorParentKey(q)).None? && drawn in Ids(st)
    ensures r.Err? ==> r.status == ServerError
    ensures r.Ok? ==>
      Grows(st, r.value.store)
      && Lookup(r.value.store, InstructorParentKey(q)) == Some(r.value.id)
      && (q.admin, r.value.id) in r.value.store.links
  {
    var key := InstructorParentKey(q);
    match GetOrCreate(st, key, drawn, now)
    case Err(s) => Err(s)
    case Ok(u) =>
      UpsertThenLink(st, u, key, q.admin);
      Ok(Upserted(Link(u.store, q.admin, u.id), u.id))
  }

  /** The instructor ranged transaction as written: parent, admin link, then the loop. */
  function InstructorRangedRun(st: Store, q: RangedRequest, draws: nat -> string, compute: Date -> Metrics, now: int): (r: Result<InstructorOutcome>)
    requires Wf(st) && GoodRange(q)
    ensures r.Err? ==> r.status == ServerError
    ensures r.Ok? ==>
      Grows(st, r.value.store)
      && (q.admin, r.value.parentId) in r.value.store.links
      && |r.value.stats| == MonthCount(q.start, q.end)
      && (forall i :: 0 <= i < |r.value.stats| ==> r.value.stats[i] == compute(Months(q.start, q.end)[i]))
  {
    MonthsFacts(q.start, q.end);
    match InstructorParent(st, q, draws(0), now)
    case Err(s) => Err(s)
    case Ok(p) =>
      match InstructorLoop(p.store, p.id, Months(q.start, q.end), 1, draws, compute, now)
      case Err(s) => Err(s)
      case Ok(out) =>
        GrowsTransitive(st, p.store, out.store);
        Ok(InstructorOutcome(out.store, p.id, out.stats))
  }

  function InstructorRangedReport(st: Store, args: Args, draws: nat -> string, compute: Date -> Metrics, now: int): (r: Result<InstructorOutcome>)
    requires Wf(st)
    ensures ValidateRanged(args, InstructorRanged).Err? ==> r == Err(ValidateRanged(args, InstructorRanged).status)
    ensures ValidateRanged(args, InstructorRanged).Ok? && StepOverflows(ValidateRanged(args, InstructorRanged).value.end) ==> r == Err(ServerError)
    ensures ValidateRanged(args, InstructorRanged).Ok? && !StepOverflows(ValidateRanged(args, InstructorRanged).value.end) ==>
      r == InstructorRangedRun(st, ValidateRanged(args, InstructorRanged).value, draws, compute, now)
  {
    match ValidateRanged(args, InstructorRanged)
    case Err(s) => Err(s)
    case Ok(q) => if StepOverflows(q.end) then Err(ServerError) else InstructorRangedRun(st, q, draws, compute, now)
  }

  /** The discrepancy: a successful one-month instructor ranged run makes its parent report its
      own parent, so `list_reports` never shows it to the admin it was linked to. */
  lemma InstructorOneMonthSelfParent(st: Store, q: RangedRequest, draws: nat -> string, compute: Date -> Metrics, now: int)
    requires Wf(st) && GoodRange(q) && q.start == q.end
    ensures InstructorRangedRun(st, q, draws, compute, now).Ok? ==>
      var o := InstructorRangedRun(st, q, draws, compute, now).value;
      Parent(o.store, o.parentId) == Some(o.parentId) && !ListedFor(o.store, q.admin, o.parentId)
  {
    if InstructorRangedRun(st, q, draws, compute, now).Ok? {
      MonthsFacts(q.start, q.end);
      var months := Months(q.start, q.end);
      assert months == [q.start];
      var p := InstructorParent(st, q, draws(0), now).value;
      var c := InstructorStep(p.store, p.id, q.start, draws(1), compute(q.start), now).value;
      assert c.id == p.id;
      assert InstructorLoop(p.store, p.id, months, 1, draws, compute, now).value.store == c.store;
    }
  }

  /** The request that shows it: `start=2024-01` (no `end`) for admin `A1` on the empty store. */
  lemma InstructorOneMonthExample(draws: nat -> string, compute: Date -> Metrics, now: int)
    ensures var q := RangedRequest("A1", "2024-01", "2024-01", Date(2024, 1, 1), Date(2024, 1, 1));
      var r := InstructorRangedRun(Empty(), q, draws, compute, now);
      r.Ok? && Parent(r.value.store, r.value.parentId) == Some(r.value.parentId)
      && !ListedFor(r.value.store, "A1", r.value.parentId)
  {
    var q := RangedRequest("A1", "2024-01", "2024-01", Date(2024, 1, 1), Date(2024, 1, 1));
    MonthsFacts(q.start, q.end);
    var months := Months(q.start, q.end);
    assert months == [q.start];
    var p := InstructorParent(Empty(), q, draws(0), now).value;
    var c := InstructorStep(p.store, p.id, q.start, draws(1), compute(q.start), now).value;
    assert InstructorLoop(c.store, p.id, [], 2, draws, compute, now).Ok?;
    assert InstructorLoop(p.store, p.id, months, 1, draws, compute, now).Ok?;
    InstructorOneMonthSelfParent(Empty(), q, draws, compute, now);
  }

  /** A step of the instructor loop keeps the store invariant. */
  lemma InstructorStepInv(st: Store, parent: string, m: Date, drawn: string, metrics: Metrics, now: int)
    requires Inv(st) && Valid(m) && m.day == 1 && InstructorStep(st, parent, m, drawn, metrics, now).Ok?
    ensures Inv(InstructorStep(st, parent, m, drawn, metrics, now).value.store)
  {
    var key := ChildKey(InstructorRanged, m);
    var u := UpsertChild(st, key, drawn, parent, now).value;
    InvUpsertChild(st, key, drawn, parent, now);
    IdOfLookup(u.store, key);
    InvLinkMetrics(u.store, "", u.id, metrics);
  }

  lemma {:induction false} InstructorLoopInv(st: Store, parent: string, months: seq<Date>, next: nat, draws: nat -> string,
                                             compute: Date -> Metrics, now: int)
    requires Inv(st) && MonthsOk(months) && InstructorLoop(st, parent, months, next, draws, compute, now).Ok?
    ensures Inv(InstructorLoop(st, parent, months, next, draws, compute, now).value.store)
    decreases |months|
  {
    if |months| > 0 {
      var u := InstructorStep(st, parent, months[0], draws(next), compute(months[0]), now).value;
      InstructorStepInv(st, parent, months[0], draws(next), compute(months[0]), now);
      InstructorLoopInv(u.store, parent, months[1..], next + 1, draws, compute, now);
    }
  }

  /** The instructor ranged run keeps the store invariant, even where it hides its parent. */
  lemma InstructorRangedKeepsInv(st: Store, q: RangedRequest, draws: nat -> string, compute: Date -> Metrics, now: int)
    requires Inv(st) && GoodRange(q)
    ensures InstructorRangedRun(st, q, draws, compute, now).Ok? ==>
      Inv(InstructorRangedRun(st, q, draws, compute, now).value.store)
  {
    if InstructorRangedRun(st, q, draws, compute, now).Ok? {
      MonthsFacts(q.start, q.end);
      var key := InstructorParentKey(q);
      var u := GetOrCreate(st, key, draws(0), now).value;
      InvGetOrCreate(st, key, draws(0), now);
      IdOfLookup(u.store, key);
      InvLinkMetrics(u.store, q.admin, u.id, Metrics([]));
      var p := InstructorParent(st, q, draws(0), now).value;
      InstructorLoopInv(p.store, p.id, Months(q.start, q.end), 1, draws, compute, now);
    }
  }

  /** The corrected step: a top-level report holding the month's triple is left as it is. */
  function InstructorStepKeepRoots(st: Store, parent: string, m: Date, drawn: string, metrics: Metrics, now: int): (r: Result<Upserted>)
    requires Wf(st) && Valid(m) && m.day == 1
    ensures r.Err? <==> Lookup(st, ChildKey(InstructorRanged, m)).None? && drawn in Ids(st)
    ensures r.Ok? ==>
      Grows(st, r.value.store) && r.value.store.links == st.links
      && Lookup(r.value.store, ChildKey(InstructorRanged, m)) == Some(r.value.id)
      && r.value.id in r.value.store.metrics
      && (forall id :: IsRoot(st, id) ==> IsRoot(r.value.store, id))
      && (!IsRoot(st, r.value.id) ==> Parent(r.value.store, r.value.id) == Some(parent))
  {
    var key := ChildKey(InstructorRanged, m);
    match UpsertChildKeepRoots(st, key, drawn, parent, now)
    case Err(_) => Err(ServerError)
    case Ok(u) =>
      IdOfLookup(u.store, key);
      InsertMetricsFacts(u.store, u.id, metrics, metrics);
      Ok(Upserted(InsertMetrics(u.store, u.id, metrics), u.id))
  }

  function InstructorLoopKeepRoots(st: Store, parent: string, months: seq<Date>, next: nat, draws: nat -> string,
                                   compute: Date -> Metrics, now: int): (r: Result<LoopOut<Metrics>>)
    requires Wf(st) && MonthsOk(months)
    ensures r.Err? ==> r.status == ServerError
    ensures r.Ok? ==> Grows(st, r.value.store) && r.value.store.links == st.links
    ensures r.Ok? ==> forall id :: IsRoot(st, id) ==> IsRoot(r.value.store, id)
    ensures r.Ok? ==> |r.value.stats| == |months| && forall i :: 0 <= i < |months| ==> r.value.stats[i] == compute(months[i])
    decreases |months|
  {
    if |months| == 0 then Ok(LoopOut(st, []))
    else
      match InstructorStepKeepRoots(st, parent, months[0], draws(next), compute(months[0]), now)
      case Err(_) => Err(ServerError)
      case Ok(u) =>
        match InstructorLoopKeepRoots(u.store, parent, months[1..], next + 1, draws, compute, now)
        case Err(s) => Err(s)
        case Ok(rest) =>
          GrowsTransitive(st, u.store, rest.store);
          ConsAll(months, compute(months[0]), rest.stats, (m, x) => x == compute(m));
          Ok(LoopOut(rest.store, [compute(months[0])] + rest.stats))
  }

  /** The corrected parent upsert: an existing report with the parent triple is made top-level
      again; the admin link follows. */
  function InstructorParentCorrected(st: Store, q: RangedRequest, drawn: string, now: int): (r: Result<Upserted>)
    requires Wf(st) && GoodRange(q)
    ensures r.Err? <==> Lookup(st, InstructorParentKey(q)).None? && drawn in Ids(st)
    ensures r.Ok? ==>
      Grows(st, r.value.store)
      && Lookup(r.value.store, InstructorParentKey(q)) == Some(r.value.id)
      && ListedFor(r.value.store, q.admin, r.value.id)
      && (forall id :: IsRoot(st, id) ==> IsRoot(r.value.store, id))
  {
    var key := InstructorParentKey(q);
    match GetOrCreateRoot(st, key, drawn, now)
    case Err(_) => Err(ServerError)
    case Ok(u) =>
      UpsertThenLink(st, u, key, q.admin);
      Ok(Upserted(Link(u.store, q.admin, u.id), u.id))
  }

  /** The corrected instructor ranged transaction: the parent is made top-level on conflict and
      the monthly upserts never adopt a top-level report, so the parent is always listed. */
  function InstructorRangedRunCorrected(st: Store, q: RangedRequest, draws: nat -> string, compute: Date -> Metrics, now: int): (r: Result<InstructorOutcome>)
    requires Wf(st) && GoodRange(q)
    ensures r.Err? ==> r.status == ServerError
    ensures r.Ok? ==>
      Grows(st, r.value.store)
      && ListedFor(r.value.store, q.admin, r.value.parentId)
      && (forall a, id :: ListedFor(st, a, id) ==> ListedFor(r.value.store, a, id))
      && |r.value.stats| == MonthCount(q.start, q.end)
      && (forall i :: 0 <= i < |r.value.stats| ==> r.value.stats[i] == compute(Months(q.start, q.end)[i]))
  {
    MonthsFacts(q.start, q.end);
    match InstructorParentCorrected(st, q, draws(0), now)
    case Err(_) => Err(ServerError)
    case Ok(p) =>
      match InstructorLoopKeepRoots(p.store, p.id, Months(q.start, q.end), 1, draws, compute, now)
      case Err(s) => Err(s)
      case Ok(out) =>
        GrowsTransitive(st, p.store, out.store);
        Ok(InstructorOutcome(out.store, p.id, out.stats))
  }

  /** On the request that exposes the discrepancy the corrected run lists its parent. */
  lemma InstructorOneMonthCorrected(draws: nat -> string, compute: Date -> Metrics, now: int)
    ensures var q := RangedRequest("A1", "2024-01", "2024-01", Date(2024, 1, 1), Date(2024, 1, 1));
      var r := InstructorRangedRunCorrected(Empty(), q, draws, compute, now);
      r.Ok? && ListedFor(r.value.store, "A1", r.value.parentId)
  {
    var q := RangedRequest("A1", "2024-01", "2024-01", Date(2024, 1, 1), Date(2024, 1, 1));
    MonthsFacts(q.start, q.end);
    var months := Months(q.start, q.end);
    assert months == [q.start];
    var p := InstructorParentCorrected(Empty(), q, draws(0), now).value;
    var c := InstructorStepKeepRoots(p.store, p.id, q.start, draws(1), compute(q.start), now).value;
    assert InstructorLoopKeepRoots(c.store, p.id, [], 2, draws, compute, now).Ok?;
    assert InstructorLoopKeepRoots(p.store, p.id, months, 1, draws, compute, now).Ok?;
  }
}
