/** The student ranged endpoint: a parent report and one child per month, reusing the monthly
    children already cached under that parent. */
module StudentReports {
  import opened Wrappers
  import opened Calendar
  import opened ReportStore
  import opened ReportRequests
  import opened ReportEngine

  /** A row of the cache query: a student ranged report whose parent is `parent`, starting at
      `m`, that has a metrics row (`JOIN student_report`). */
  predicate CachedRow(st: Store, parent: string, m: Date, h: Header) {
    h.parent == Some(parent) && h.key.rtype == StudentRanged && h.key.start == m && h.id in st.metrics
  }

  function FirstCached(st: Store, hs: seq<Header>, parent: string, m: Date): (r: Option<Header>)
    ensures r.Some? ==> r.value in hs && CachedRow(st, parent, m, r.value)
    ensures r.None? ==> forall h :: h in hs ==> !CachedRow(st, parent, m, h)
  {
    if |hs| == 0 then None
    else if CachedRow(st, parent, m, hs[0]) then Some(hs[0])
    else FirstCached(st, hs[1..], parent, m)
  }

  /** The cache entry for month `m`: the dictionary keyed by `time_range_start` built from the
      cache query. When several rows share a month the query order decides; the model takes the
      first in store order. */
  function StudentCached(st: Store, parent: string, m: Date): (r: Option<Header>)
    ensures r.Some? ==> r.value in st.headers && CachedRow(st, parent, m, r.value)
    ensures r.None? <==> forall h :: h in st.headers ==> !CachedRow(st, parent, m, h)
  {
    FirstCached(st, st.headers, parent, m)
  }

  /** Month `m` has a cache entry under `parent`. */
  predicate Covered(st: Store, parent: string, m: Date) {
    StudentCached(st, parent, m).Some?
  }

  /** Every month cached in `a` under `parent` is cached in `b`. */
  ghost predicate CoverageGrows(a: Store, b: Store, parent: string) {
    forall m :: Covered(a, parent, m) ==> Covered(b, parent, m)
  }

  lemma CoverageTransitive(a: Store, b: Store, c: Store, parent: string)
    requires CoverageGrows(a, b, parent) && CoverageGrows(b, c, parent)
    ensures CoverageGrows(a, c, parent)
  {
  }

  datatype MonthStat = MonthStat(month: Date, reportId: string, metrics: Metrics)
  datatype StepOut = StepOut(store: Store, stat: MonthStat)

  /** One month of the student loop. A month in the cache contributes the stored row and writes
      nothing; any other month is computed, its child upserted (adopting an existing report of
      that triple), linked to the admin and given a metrics row unless it already has one. */
  function StudentStep(cache: Store, st: Store, admin: string, parent: string, m: Date,
                       drawn: string, compute: Date -> Metrics, now: int): (r: Result<StepOut>)
    requires Wf(st) && Valid(m) && m.day == 1
    ensures r.Err? ==> r.status == ServerError
    ensures r.Ok? ==> Grows(st, r.value.store) && r.value.stat.month == m
    ensures StudentCached(cache, parent, m).Some? ==>
      var h := StudentCached(cache, parent, m).value;
      r == Ok(StepOut(st, MonthStat(m, h.id, cache.metrics[h.id])))
    ensures r.Ok? && StudentCached(cache, parent, m).None? ==>
      r.value.stat.metrics == compute(m)
      && (admin, r.value.stat.reportId) in r.value.store.links
      && r.value.stat.reportId in r.value.store.metrics
      && Lookup(r.value.store, ChildKey(StudentRanged, m)) == Some(r.value.stat.reportId)
  {
    match StudentCached(cache, parent, m)
    case Some(h) => Ok(StepOut(st, MonthStat(m, h.id, cache.metrics[h.id])))
    case None =>
      var key := ChildKey(StudentRanged, m);
      match UpsertChild(st, key, drawn, parent, now)
      case Err(s) => Err(s)
      case Ok(u) =>
        UpsertThenLink(st, u, key, admin);
        InsertMetricsFacts(Link(u.store, admin, u.id), u.id, compute(m), compute(m));
        Ok(StepOut(InsertMetrics(Link(u.store, admin, u.id), u.id, compute(m)), MonthStat(m, u.id, compute(m))))
  }

  /** What the loop reports for month `m`: the stored row when the month is cached, otherwise
      the computed metrics, under a child linked to the admin that has a metrics row. */
  predicate StatOk(cache: Store, parent: string, admin: string, compute: Date -> Metrics, st: Store, m: Date, s: MonthStat) {
    s.month == m
    && match StudentCached(cache, parent, m)
       case Some(h) => s.reportId == h.id && s.metrics == cache.metrics[h.id]
       case None => s.metrics == compute(m) && (admin, s.reportId) in st.links && s.reportId in st.metrics
  }

  lemma StatOkGrows(cache: Store, parent: string, admin: string, compute: Date -> Metrics, st: Store, st': Store, m: Date, s: MonthStat)
    requires StatOk(cache, parent, admin, compute, st, m, s) && Grows(st, st')
    ensures StatOk(cache, parent, admin, compute, st', m, s)
  {
  }

  /** The loop over the enumerated months; `cache` is the state the cache query saw, before the
      loop. */
  function StudentLoop(cache: Store, st: Store, admin: string, parent: string, months: seq<Date>,
                       next: nat, draws: nat -> string, compute: Date -> Metrics, now: int): (r: Result<LoopOut<MonthStat>>)
    requires Wf(st) && MonthsOk(months)
    ensures r.Err? ==> r.status == ServerError
    ensures r.Ok? ==> Grows(st, r.value.store) && |r.value.stats| == |months|
    ensures r.Ok? ==> forall i :: 0 <= i < |months| ==>
      StatOk(cache, parent, admin, compute, r.value.store, months[i], r.value.stats[i])
    decreases |months|
  {
    if |months| == 0 then Ok(LoopOut(st, []))
    else
      match StudentStep(cache, st, admin, parent, months[0], draws(next), compute, now)
      case Err(s) => Err(s)
      case Ok(one) =>
        match StudentLoop(cache, one.store, admin, parent, months[1..], next + 1, draws, compute, now)
        case Err(s) => Err(s)
        case Ok(rest) =>
          GrowsTransitive(st, one.store, rest.store);
          StatOkGrows(cache, parent, admin, compute, one.store, rest.store, months[0], one.stat);
          ConsAll(months, one.stat, rest.stats, (m, s) => StatOk(cache, parent, admin, compute, rest.store, m, s));
          Ok(LoopOut(rest.store, [one.stat] + rest.stats))
  }

  /** A step only touches the triple of its month's child. */
  lemma StudentStepLookups(cache: Store, st: Store, admin: string, parent: string, m: Date,
                           drawn: string, compute: Date -> Metrics, now: int, k: Triple)
    requires Wf(st) && Valid(m) && m.day == 1 && StudentStep(cache, st, admin, parent, m, drawn, compute, now).Ok?
    requires k.end.day == 1
    ensures Lookup(StudentStep(cache, st, admin, parent, m, drawn, compute, now).value.store, k) == Lookup(st, k)
  {
    if StudentCached(cache, parent, m).None? {
      UpsertChildFrame(st, ChildKey(StudentRanged, m), drawn, parent, now);
    }
  }

  lemma {:induction false} StudentLoopLookups(cache: Store, st: Store, admin: string, parent: string, months: seq<Date>,
                                              next: nat, draws: nat -> string, compute: Date -> Metrics, now: int, k: Triple)
    requires Wf(st) && MonthsOk(months)
    requires StudentLoop(cache, st, admin, parent, months, next, draws, compute, now).Ok?
    requires k.end.day == 1
    ensures Lookup(StudentLoop(cache, st, admin, parent, months, next, draws, compute, now).value.store, k) == Lookup(st, k)
    decreases |months|
  {
    if |months| > 0 {
      var one := StudentStep(cache, st, admin, parent, months[0], draws(next), compute, now).value;
      StudentStepLookups(cache, st, admin, parent, months[0], draws(next), compute, now, k);
      StudentLoopLookups(cache, one.store, admin, parent, months[1..], next + 1, draws, compute, now, k);
    }
  }

  /** A step leaves its month cached and uncaches no month: the only header it can change
      carries its own month's triple. */
  lemma StudentStepCovers(cache: Store, st: Store, admin: string, parent: string, m: Date,
                          drawn: string, compute: Date -> Metrics, now: int)
    requires Wf(st) && Valid(m) && m.day == 1 && StudentStep(cache, st, admin, parent, m, drawn, compute, now).Ok?
    requires Covered(cache, parent, m) ==> Covered(st, parent, m)
    ensures var out := StudentStep(cache, st, admin, parent, m, drawn, compute, now).value.store;
      Covered(out, parent, m) && CoverageGrows(st, out, parent)
  {
    var out := StudentStep(cache, st, admin, parent, m, drawn, compute, now).value.store;
    if StudentCached(cache, parent, m).None? {
      var key := ChildKey(StudentRanged, m);
      var u := UpsertChild(st, key, drawn, parent, now).value;
      var i := KeyIndex(u.store.headers, key).value;
      ParentAt(u.store, i);
      assert CachedRow(out, parent, m, out.headers[i]);
      assert out.headers[i] in out.headers;
      forall x | Covered(st, parent, x) ensures Covered(out, parent, x) {
        var h := StudentCached(st, parent, x).value;
        if h.key != key {
          assert h in out.headers && CachedRow(out, parent, x, h);
        }
      }
    }
  }

  /** After the loop every enumerated month is cached for the parent and no month is uncached,
      provided the months the cache query saw are still cached when the loop starts. */
  lemma {:induction false} StudentLoopCovers(cache: Store, st: Store, admin: string, parent: string, months: seq<Date>,
                                             next: nat, draws: nat -> string, compute: Date -> Metrics, now: int)
    requires Wf(st) && MonthsOk(months)
    requires StudentLoop(cache, st, admin, parent, months, next, draws, compute, now).Ok?
    requires CoverageGrows(cache, st, parent)
    ensures var out := StudentLoop(cache, st, admin, parent, months, next, draws, compute, now).value.store;
      CoverageGrows(st, out, parent) && forall i :: 0 <= i < |months| ==> Covered(out, parent, months[i])
    decreases |months|
  {
    if |months| > 0 {
      var out := StudentLoop(cache, st, admin, parent, months, next, draws, compute, now).value.store;
      var one := StudentStep(cache, st, admin, parent, months[0], draws(next), compute, now).value;
      StudentStepCovers(cache, st, admin, parent, months[0], draws(next), compute, now);
      CoverageTransitive(cache, st, one.store, parent);
      var tail := months[1..];
      assert MonthsOk(tail);
      assert out == StudentLoop(cache, one.store, admin, parent, tail, next + 1, draws, compute, now).value.store;
      StudentLoopCovers(cache, one.store, admin, parent, tail, next + 1, draws, compute, now);
      CoverageTransitive(st, one.store, out, parent);
      CoveredHeadTail(out, parent, months);
    }
  }

  lemma CoveredHeadTail(st: Store, parent: string, months: seq<Date>)
    requires |months| > 0 && Covered(st, parent, months[0])
    requires forall i :: 0 <= i < |months| - 1 ==> Covered(st, parent, months[1..][i])
    ensures forall i :: 0 <= i < |months| ==> Covered(st, parent, months[i])
  {
    forall i | 0 < i < |months| ensures Covered(st, parent, months[i]) {
      assert months[i] == months[1..][i - 1];
    }
  }

  /** A loop over months all cached in its own starting state writes nothing. */
  lemma {:induction false} StudentLoopAllCached(st: Store, admin: string, parent: string, months: seq<Date>,
                                                next: nat, draws: nat -> string, compute: Date -> Metrics, now: int)
    requires Wf(st) && MonthsOk(months)
    requires forall i :: 0 <= i < |months| ==> Covered(st, parent, months[i])
    ensures StudentLoop(st, st, admin, parent, months, next, draws, compute, now).Ok?
    ensures StudentLoop(st, st, admin, parent, months, next, draws, compute, now).value.store == st
    decreases |months|
  {
    if |months| > 0 {
      StudentLoopAllCached(st, admin, parent, months[1..], next + 1, draws, compute, now);
    }
  }

  /** A student ranged triple ending on a day other than the first is never held by a top-level
      report. */
  lemma ChildTripleHoldsNoRoot(st: Store, key: Triple)
    requires Inv(st) && key.rtype == StudentRanged && key.end.day != 1
    ensures forall id :: IsRoot(st, id) ==> Lookup(st, key) != Some(id)
  {
    if Lookup(st, key).Some? {
      var i := KeyIndex(st.headers, key).value;
      assert st.headers[i] in st.headers;
      ParentAt(st, i);
    }
  }

  /** A step keeps the store invariant and every top-level report. */
  lemma StudentStepRoots(cache: Store, st: Store, admin: string, parent: string, m: Date,
                         drawn: string, compute: Date -> Metrics, now: int)
    requires Inv(st) && Valid(m) && m.day == 1 && StudentStep(cache, st, admin, parent, m, drawn, compute, now).Ok?
    ensures var out := StudentStep(cache, st, admin, parent, m, drawn, compute, now).value.store;
      Inv(out) && forall id :: IsRoot(st, id) ==> IsRoot(out, id)
  {
    if StudentCached(cache, parent, m).None? {
      var key := ChildKey(StudentRanged, m);
      var u := UpsertChild(st, key, drawn, parent, now).value;
      UpsertChildFrame(st, key, drawn, parent, now);
      InvUpsertChild(st, key, drawn, parent, now);
      ChildTripleHoldsNoRoot(st, key);
      IdOfLookup(u.store, key);
      InvLinkMetrics(u.store, admin, u.id, compute(m));
    }
  }

  lemma {:induction false} StudentLoopRoots(cache: Store, st: Store, admin: string, parent: string, months: seq<Date>,
                                            next: nat, draws: nat -> string, compute: Date -> Metrics, now: int)
    requires Inv(st) && MonthsOk(months)
    requires StudentLoop(cache, st, admin, parent, months, next, draws, compute, now).Ok?
    ensures var out := StudentLoop(cache, st, admin, parent, months, next, draws, compute, now).value;
      Inv(out.store) && forall id :: IsRoot(st, id) ==> IsRoot(out.store, id)
    decreases |months|
  {
    if |months| > 0 {
      var one := StudentStep(cache, st, admin, parent, months[0], draws(next), compute, now).value;
      StudentStepRoots(cache, st, admin, parent, months[0], draws(next), compute, now);
      StudentLoopRoots(cache, one.store, admin, parent, months[1..], next + 1, draws, compute, now);
    }
  }

  datatype StudentOutcome = StudentOutcome(store: Store, parentId: string, stats: seq<MonthStat>)

  /** The parent triple of a student ranged request: `(start, end)`, the first days of the start
      and end months. */
  function StudentParentKey(q: RangedRequest): (k: Triple)
    requires GoodRange(q)
    ensures k.rtype == StudentRanged && k.end.day == 1
  {
    Triple(StudentRanged, q.start, q.end)
  }

  /** The parent upsert of the student ranged transaction followed by the admin link. */
  function StudentParent(st: Store, q: RangedRequest, drawn: string, now: int): (r: Result<Upserted>)
    requires Wf(st) && GoodRange(q)
    ensures r.Err? <==> Lookup(st, StudentParentKey(q)).None? && drawn in Ids(st)
    ensures r.Err? ==> r.status == ServerError
    ensures r.Ok? ==>
      Grows(st, r.value.store) && r.value.store.headers == GetOrCreate(st, StudentParentKey(q), drawn, now).value.store.headers
      && Lookup(r.value.store, StudentParentKey(q)) == Some(r.value.id)
      && (q.admin, r.value.id) in r.value.store.links
    ensures Lookup(st, StudentParentKey(q)).Some? ==>
      r == Ok(Upserted(Link(st, q.admin, Lookup(st, StudentParentKey(q)).value), Lookup(st, StudentParentKey(q)).value))
  {
    var key := StudentParentKey(q);
    match GetOrCreate(st, key, drawn, now)
    case Err(s) => Err(s)
    case Ok(u) =>
      UpsertThenLink(st, u, key, q.admin);
      Ok(Upserted(Link(u.store, q.admin, u.id), u.id))
  }

  /** The parent is top-level (its end is a first of month), so it is listed for the admin, and
      the invariant and the reports listed before are kept. */
  lemma StudentParentListed(st: Store, q: RangedRequest, drawn: string, now: int)
    requires Inv(st) && GoodRange(q) && StudentParent(st, q, drawn, now).Ok?
    ensures var p := StudentParent(st, q, drawn, now).value;
      Inv(p.store) && ListedFor(p.store, q.admin, p.id)
      && (forall id :: IsRoot(st, id) ==> IsRoot(p.store, id))
  {
    var key := StudentParentKey(q);
    var u := GetOrCreate(st, key, drawn, now).value;
    InvGetOrCreate(st, key, drawn, now);
    GetOrCreateFrame(st, key, drawn, now);
    IdOfLookup(u.store, key);
    if Lookup(st, key).Some? {
      var i := KeyIndex(st.headers, key).value;
      assert st.headers[i] in st.headers;
      ParentAt(st, i);
    }
    InvLinkMetrics(u.store, q.admin, u.id, Metrics([]));
  }

  /** The student ranged transaction on a validated request: the parent and its admin link, the
      cache query (the state after them), then the loop. `draws(0)` is the parent's candidate id
      and `draws(i + 1)` the i-th month's. */
  function StudentRangedRun(st: Store, q: RangedRequest, draws: nat -> string, compute: Date -> Metrics, now: int): (r: Result<StudentOutcome>)
    requires Wf(st) && GoodRange(q)
    ensures r.Err? ==> r.status == ServerError
    ensures r.Ok? ==>
      Grows(st, r.value.store)
      && Lookup(r.value.store, StudentParentKey(q)) == Some(r.value.parentId)
      && (q.admin, r.value.parentId) in r.value.store.links
      && |r.value.stats| == MonthCount(q.start, q.end)
      && (forall i :: 0 <= i < |r.value.stats| ==> r.value.stats[i].month == Months(q.start, q.end)[i])
  {
    MonthsFacts(q.start, q.end);
    match StudentParent(st, q, draws(0), now)
    case Err(s) => Err(s)
    case Ok(p) =>
      match StudentLoop(p.store, p.store, q.admin, p.id, Months(q.start, q.end), 1, draws, compute, now)
      case Err(s) => Err(s)
      case Ok(out) =>
        StudentLoopLookups(p.store, p.store, q.admin, p.id, Months(q.start, q.end), 1, draws, compute, now, StudentParentKey(q));
        GrowsTransitive(st, p.store, out.store);
        Ok(StudentOutcome(out.store, p.id, out.stats))
  }

  /** The student ranged endpoint: validation (an unparsable month is a 500 here), the overflow
      of the month step after December 9999, then the transaction. */
  function StudentRangedReport(st: Store, args: Args, draws: nat -> string, compute: Date -> Metrics, now: int): (r: Result<StudentOutcome>)
    requires Wf(st)
    ensures ValidateRanged(args, StudentRanged).Err? ==> r == Err(ValidateRanged(args, StudentRanged).status)
    ensures ValidateRanged(args, StudentRanged).Ok? && StepOverflows(ValidateRanged(args, StudentRanged).value.end) ==> r == Err(ServerError)
    ensures ValidateRanged(args, StudentRanged).Ok? && !StepOverflows(ValidateRanged(args, StudentRanged).value.end) ==>
      r == StudentRangedRun(st, ValidateRanged(args, StudentRanged).value, draws, compute, now)
  {
    match ValidateRanged(args, StudentRanged)
    case Err(s) => Err(s)
    case Ok(q) => if StepOverflows(q.end) then Err(ServerError) else StudentRangedRun(st, q, draws, compute, now)
  }

  /** A student ranged run keeps the store invariant and every listed report, and lists its
      parent for the admin. */
  lemma StudentRangedListed(st: Store, q: RangedRequest, draws: nat -> string, compute: Date -> Metrics, now: int)
    requires Inv(st) && GoodRange(q)
    ensures StudentRangedRun(st, q, draws, compute, now).Ok? ==>
      var o := StudentRangedRun(st, q, draws, compute, now).value;
      Inv(o.store)
      && ListedFor(o.store, q.admin, o.parentId)
      && (forall a, id :: ListedFor(st, a, id) ==> ListedFor(o.store, a, id))
  {
    if StudentRangedRun(st, q, draws, compute, now).Ok? {
      MonthsFacts(q.start, q.end);
      var p := StudentParent(st, q, draws(0), now).value;
      StudentParentListed(st, q, draws(0), now);
      StudentLoopRoots(p.store, p.store, q.admin, p.id, Months(q.start, q.end), 1, draws, compute, now);
    }
  }

  /** After a student ranged run every month of the range is cached under its parent. */
  lemma StudentRangedCovered(st: Store, q: RangedRequest, draws: nat -> string, compute: Date -> Metrics, now: int)
    requires Wf(st) && GoodRange(q)
    ensures StudentRangedRun(st, q, draws, compute, now).Ok? ==>
      var o := StudentRangedRun(st, q, draws, compute, now).value;
      forall i :: 0 <= i < MonthCount(q.start, q.end) ==> Covered(o.store, o.parentId, Months(q.start, q.end)[i])
  {
    if StudentRangedRun(st, q, draws, compute, now).Ok? {
      MonthsFacts(q.start, q.end);
      var p := StudentParent(st, q, draws(0), now).value;
      StudentLoopCovers(p.store, p.store, q.admin, p.id, Months(q.start, q.end), 1, draws, compute, now);
    }
  }

  /** Repeating a successful student ranged run, with any ids drawn and any aggregates, returns
      the same parent and writes nothing: every month is answered from the cache. */
  lemma StudentRangedRunTwice(st: Store, q: RangedRequest, draws1: nat -> string, compute1: Date -> Metrics, now1: int,
                              draws2: nat -> string, compute2: Date -> Metrics, now2: int)
    requires Wf(st) && GoodRange(q)
    ensures StudentRangedRun(st, q, draws1, compute1, now1).Ok? ==>
      var o := StudentRangedRun(st, q, draws1, compute1, now1).value;
      StudentRangedRun(o.store, q, draws2, compute2, now2).Ok?
      && StudentRangedRun(o.store, q, draws2, compute2, now2).value.store == o.store
      && StudentRangedRun(o.store, q, draws2, compute2, now2).value.parentId == o.parentId
  {
    if StudentRangedRun(st, q, draws1, compute1, now1).Ok? {
      var o := StudentRangedRun(st, q, draws1, compute1, now1).value;
      StudentRangedCovered(st, q, draws1, compute1, now1);
      MonthsFacts(q.start, q.end);
      assert StudentParent(o.store, q, draws2(0), now2) == Ok(Upserted(o.store, o.parentId)) by {
        assert o.store.links + {(q.admin, o.parentId)} == o.store.links;
      }
      StudentLoopAllCached(o.store, q.admin, o.parentId, Months(q.start, q.end), 1, draws2, compute2, now2);
    }
  }

  /** The same for the endpoint: the same query parameters a second time change nothing. */
  lemma StudentRangedTwice(st: Store, args: Args, draws1: nat -> string, compute1: Date -> Metrics, now1: int,
                           draws2: nat -> string, compute2: Date -> Metrics, now2: int)
    requires Wf(st)
    ensures StudentRangedReport(st, args, draws1, compute1, now1).Ok? ==>
      var o := StudentRangedReport(st, args, draws1, compute1, now1).value;
      StudentRangedReport(o.store, args, draws2, compute2, now2).Ok?
      && StudentRangedReport(o.store, args, draws2, compute2, now2).value.store == o.store
      && StudentRangedReport(o.store, args, draws2, compute2, now2).value.parentId == o.parentId
  {
    if StudentRangedReport(st, args, draws1, compute1, now1).Ok? {
      var q := ValidateRanged(args, StudentRanged).value;
      assert !StepOverflows(q.end);
      var o := StudentRangedRun(st, q, draws1, compute1, now1).value;
      assert StudentRangedReport(st, args, draws1, compute1, now1).value == o;
      StudentRangedRunTwice(st, q, draws1, compute1, now1, draws2, compute2, now2);
      assert StudentRangedReport(o.store, args, draws2, compute2, now2) == StudentRangedRun(o.store, q, draws2, compute2, now2);
    }
  }
}
