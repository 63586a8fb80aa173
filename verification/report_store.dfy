/** The report cache as an abstract state: the `report` table (headers unique on
    `(report_type, time_range_start, time_range_end)`, each with an optional parent), the metrics
    tables keyed by `report_id`, and the `admin_report` link set. Each SQL statement of the report
    endpoints is one pure operation on this state. */
module ReportStore {
  import opened Wrappers
  import opened Calendar
  import opened Sorting

  datatype ReportType =
    | StudentGeneral | StudentRanged
    | CourseGeneral | CourseRanged
    | InstructorGeneral | InstructorRanged

  /** The prefix each endpoint passes to `new_report_id`. */
  function IdPrefix(t: ReportType): (p: string)
    ensures |p| == 2
  {
    match t
    case StudentGeneral => "SG"
    case StudentRanged => "SR"
    case CourseGeneral => "CG"
    case CourseRanged => "CR"
    case InstructorGeneral => "IG"
    case InstructorRanged => "IR"
  }

  lemma IdPrefixInjective(a: ReportType, b: ReportType)
    ensures IdPrefix(a) == IdPrefix(b) <==> a == b
  {
    if a != b {
      assert IdPrefix(a)[0] != IdPrefix(b)[0] || IdPrefix(a)[1] != IdPrefix(b)[1];
    }
  }

  /** The conflict target of every report upsert. */
  datatype Triple = Triple(rtype: ReportType, start: Date, end: Date)

  /** One row of `report`. `created` is the transaction's `CURRENT_TIMESTAMP`. */
  datatype Header = Header(id: string, key: Triple, parent: Option<string>, created: int)

  /** The column values of one metrics row; the SQL aggregates that produce them are not
      interpreted. */
  datatype Metrics = Metrics(values: seq<int>)

  datatype Store = Store(headers: seq<Header>, metrics: map<string, Metrics>, links: set<(string, string)>)

  /** The outcome of an upsert: the new state and the `report_id` the statement returned. */
  datatype Upserted = Upserted(store: Store, id: string)

  function Ids(st: Store): set<string> {
    set h | h in st.headers :: h.id
  }

  /** The database constraints: primary key on `report_id`, unique triple, and foreign keys from
      the metrics tables and `admin_report` to `report`. */
  predicate Wf(st: Store) {
    (forall i, j :: 0 <= i < j < |st.headers| ==>
       st.headers[i].id != st.headers[j].id && st.headers[i].key != st.headers[j].key)
    && (forall id :: id in st.metrics ==> id in Ids(st))
    && (forall l :: l in st.links ==> l.1 in Ids(st))
  }

  function Empty(): (st: Store)
    ensures Wf(st)
  {
    Store([], map[], {})
  }

  /** The position of the header carrying `key`, if any. */
  function KeyIndex(hs: seq<Header>, key: Triple): (r: Option<nat>)
    ensures r.Some? ==> r.value < |hs| && hs[r.value].key == key
    ensures r.None? ==> forall i :: 0 <= i < |hs| ==> hs[i].key != key
  {
    if |hs| == 0 then None
    else if hs[0].key == key then Some(0)
    else match KeyIndex(hs[1..], key)
      case None => None
      case Some(k) => Some(k + 1)
  }

  /** The position of the header with id `id`, if any. */
  function IdIndex(hs: seq<Header>, id: string): (r: Option<nat>)
    ensures r.Some? ==> r.value < |hs| && hs[r.value].id == id
    ensures r.None? ==> forall i :: 0 <= i < |hs| ==> hs[i].id != id
  {
    if |hs| == 0 then None
    else if hs[0].id == id then Some(0)
    else match IdIndex(hs[1..], id)
      case None => None
      case Some(k) => Some(k + 1)
  }

  /** The report id stored under `key` (`SELECT report_id ... WHERE report_type = ... AND
      time_range_start = ... AND time_range_end = ...`). */
  function Lookup(st: Store, key: Triple): Option<string> {
    match KeyIndex(st.headers, key)
    case None => None
    case Some(i) => Some(st.headers[i].id)
  }

  lemma IdsMembership(st: Store, id: string)
    ensures id in Ids(st) <==> IdIndex(st.headers, id).Some?
  {
    if id in Ids(st) {
      var h :| h in st.headers && h.id == id;
      var i :| 0 <= i < |st.headers| && st.headers[i] == h;
    }
  }

  /** Replacing one header by one with the same id and key keeps every constraint. */
  lemma ReplaceKeepsWf(st: Store, i: nat, h: Header)
    requires Wf(st) && i < |st.headers|
    requires h.id == st.headers[i].id && h.key == st.headers[i].key
    ensures Ids(st.(headers := st.headers[i := h])) == Ids(st)
    ensures Wf(st.(headers := st.headers[i := h]))
  {
    var hs := st.headers[i := h];
    forall id | id in Ids(st) ensures id in set g | g in hs :: g.id {
      var g :| g in st.headers && g.id == id;
      var k :| 0 <= k < |st.headers| && st.headers[k] == g;
      assert hs[k].id == id;
    }
    forall id | id in set g | g in hs :: g.id ensures id in Ids(st) {
      var g :| g in hs && g.id == id;
      var k :| 0 <= k < |hs| && hs[k] == g;
      assert st.headers[k].id == id;
    }
  }

  /** Appending a header with a drawn id and an unused key keeps every constraint. */
  lemma AppendKeepsWf(st: Store, h: Header)
    requires Wf(st) && h.id !in Ids(st) && KeyIndex(st.headers, h.key).None?
    ensures Ids(st.(headers := st.headers + [h])) == Ids(st) + {h.id}
    ensures Wf(st.(headers := st.headers + [h]))
  {
    var hs := st.headers + [h];
    forall i | 0 <= i < |st.headers| ensures hs[i].id != h.id {
      assert st.headers[i] in st.headers;
    }
    assert forall g :: g in hs <==> g in st.headers || g == h;
  }

  /** The `WITH ins AS (INSERT ... ON CONFLICT (triple) DO NOTHING RETURNING report_id), chosen AS
      (SELECT report_id FROM ins UNION ALL SELECT report_id FROM report WHERE <triple> LIMIT 1)`
      pattern: the existing report when the triple is taken, otherwise a new top-level report
      with the newly drawn id. A drawn id that collides with another report's primary key is a
      unique violation, which the handlers answer with 500. */
  function GetOrCreate(st: Store, key: Triple, drawn: string, now: int): (r: Result<Upserted>)
    requires Wf(st)
    ensures r.Err? <==> Lookup(st, key).None? && drawn in Ids(st)
    ensures r.Err? ==> r.status == ServerError
    ensures r.Ok? ==> Wf(r.value.store) && Lookup(r.value.store, key) == Some(r.value.id)
    ensures r.Ok? ==> r.value.store.metrics == st.metrics && r.value.store.links == st.links
    ensures r.Ok? ==> Ids(r.value.store) == Ids(st) + {r.value.id}
    ensures Lookup(st, key).Some? ==> r == Ok(Upserted(st, Lookup(st, key).value))
    ensures Lookup(st, key).None? && r.Ok? ==>
      r.value.id == drawn
      && r.value.store.headers == st.headers + [Header(drawn, key, None, now)]
  {
    match KeyIndex(st.headers, key)
    case Some(i) =>
      assert st.headers[i] in st.headers;
      Ok(Upserted(st, st.headers[i].id))
    case None =>
      if drawn in Ids(st) then Err(ServerError)
      else
        var h := Header(drawn, key, None, now);
        AppendKeepsWf(st, h);
        var st' := st.(headers := st.headers + [h]);
        assert st'.headers[|st.headers|] == h;
        KeyIndexAppend(st.headers, h, key);
        Ok(Upserted(st', drawn))
  }

  lemma KeyIndexAppend(hs: seq<Header>, h: Header, key: Triple)
    requires KeyIndex(hs, key).None? && h.key == key
    ensures KeyIndex(hs + [h], key) == Some(|hs|)
  {
    if |hs| > 0 {
      assert (hs + [h])[1..] == hs[1..] + [h];
      KeyIndexAppend(hs[1..], h, key);
    }
  }

  /** Running the same get-or-create twice returns the same id and the second run changes
      nothing, whatever id the second run draws. */
  lemma GetOrCreateTwice(st: Store, key: Triple, drawn1: string, drawn2: string, now1: int, now2: int)
    requires Wf(st) && GetOrCreate(st, key, drawn1, now1).Ok?
    ensures var first := GetOrCreate(st, key, drawn1, now1).value;
      GetOrCreate(first.store, key, drawn2, now2) == Ok(first)
  {
  }

  /** `INSERT INTO admin_report (admin_id, report_id) ... ON CONFLICT DO NOTHING`. */
  function Link(st: Store, admin: string, id: string): (r: Store)
    ensures r.headers == st.headers && r.metrics == st.metrics
    ensures r.links == st.links + {(admin, id)}
  {
    st.(links := st.links + {(admin, id)})
  }

  lemma LinkFacts(st: Store, admin: string, id: string)
    ensures Link(Link(st, admin, id), admin, id) == Link(st, admin, id)
    ensures |Link(st, admin, id).links| == |st.links| + (if (admin, id) in st.links then 0 else 1)
    ensures (Wf(st) && id in Ids(st)) ==> Wf(Link(st, admin, id))
  {
    if (admin, id) in st.links {
      assert st.links + {(admin, id)} == st.links;
    }
  }

  /** A metrics insert with `ON CONFLICT DO NOTHING`: an existing row is never overwritten. */
  function InsertMetrics(st: Store, id: string, m: Metrics): (r: Store)
    ensures r.headers == st.headers && r.links == st.links
    ensures r.metrics.Keys == st.metrics.Keys + {id}
    ensures forall k :: k in st.metrics ==> r.metrics[k] == st.metrics[k]
    ensures id !in st.metrics ==> r.metrics[id] == m
  {
    if id in st.metrics then st else st.(metrics := st.metrics[id := m])
  }

  lemma InsertMetricsFacts(st: Store, id: string, m: Metrics, m': Metrics)
    ensures InsertMetrics(InsertMetrics(st, id, m), id, m') == InsertMetrics(st, id, m)
    ensures (Wf(st) && id in Ids(st)) ==> Wf(InsertMetrics(st, id, m))
  {
  }

  /** The child upsert of the ranged loops: `INSERT ... ON CONFLICT (triple) DO UPDATE SET
      parent_report_id = EXCLUDED.parent_report_id`. An existing report with the triple is
      adopted by `parent` whatever its previous parent was; otherwise a new child is created. */
  function UpsertChild(st: Store, key: Triple, drawn: string, parent: string, now: int): (r: Result<Upserted>)
    requires Wf(st)
    ensures r.Err? <==> Lookup(st, key).None? && drawn in Ids(st)
    ensures r.Err? ==> r.status == ServerError
    ensures r.Ok? ==> Wf(r.value.store) && Lookup(r.value.store, key) == Some(r.value.id)
    ensures r.Ok? ==> r.value.store.metrics == st.metrics && r.value.store.links == st.links
    ensures r.Ok? ==> Parent(r.value.store, r.value.id) == Some(parent)
    ensures r.Ok? ==> Ids(r.value.store) == Ids(st) + {r.value.id}
    ensures Lookup(st, key).Some? ==> r.Ok? && r.value.id == Lookup(st, key).value
    ensures r.Ok? ==> forall h :: h in st.headers && h.key != key ==> h in r.value.store.headers
  {
    match KeyIndex(st.headers, key)
    case Some(i) =>
      var h := st.headers[i].(parent := Some(parent));
      ReplaceKeepsWf(st, i, h);
      var st' := st.(headers := st.headers[i := h]);
      ParentAt(st', i);
      KeyIndexSameKeys(st.headers, st'.headers, key);
      NotKeyPreserved(st.headers, i, h);
      Ok(Upserted(st', h.id))
    case None =>
      if drawn in Ids(st) then Err(ServerError)
      else
        var h := Header(drawn, key, Some(parent), now);
        AppendKeepsWf(st, h);
        var st' := st.(headers := st.headers + [h]);
        ParentAt(st', |st.headers|);
        KeyIndexAppend(st.headers, h, key);
        Ok(Upserted(st', drawn))
  }

  lemma KeyIndexAppendOther(hs: seq<Header>, h: Header, key: Triple)
    requires h.key != key
    ensures KeyIndex(hs + [h], key) == KeyIndex(hs, key)
  {
    if |hs| > 0 {
      assert (hs + [h])[1..] == hs[1..] + [h];
      KeyIndexAppendOther(hs[1..], h, key);
    }
  }

  /** What a successful child upsert leaves alone: the reports stored under other triples, and
      every top-level report except one holding the upserted triple. */
  lemma UpsertChildFrame(st: Store, key: Triple, drawn: string, parent: string, now: int)
    requires Wf(st) && UpsertChild(st, key, drawn, parent, now).Ok?
    ensures var u := UpsertChild(st, key, drawn, parent, now).value;
      (forall k :: k != key ==> Lookup(u.store, k) == Lookup(st, k))
      && (forall h :: h in u.store.headers ==>
            (h in st.headers && h.key != key) || (h.key == key && h.id == u.id && h.parent == Some(parent)))
      && (forall id :: IsRoot(st, id) && Lookup(st, key) != Some(id) ==> IsRoot(u.store, id))
  {
    var u := UpsertChild(st, key, drawn, parent, now).value;
    var hs := st.headers;
    match KeyIndex(hs, key)
    case Some(i) =>
      var h := hs[i].(parent := Some(parent));
      assert u.store.headers == hs[i := h];
      forall k | k != key ensures Lookup(u.store, k) == Lookup(st, k) {
        KeyIndexSameKeys(hs, u.store.headers, k);
      }
      forall g | g in u.store.headers
        ensures (g in hs && g.key != key) || (g.key == key && g.id == u.id && g.parent == Some(parent))
      {
        var j :| 0 <= j < |u.store.headers| && u.store.headers[j] == g;
        if j != i {
          assert g == hs[j];
        }
      }
      forall id | IsRoot(st, id) && Lookup(st, key) != Some(id) ensures IsRoot(u.store, id) {
        IdsMembership(st, id);
        var k := IdIndex(hs, id).value;
        ParentAt(st, k);
        assert k != i;
        assert u.store.headers[k] == hs[k];
        ParentAt(u.store, k);
      }
    case None =>
      var h := Header(drawn, key, Some(parent), now);
      assert u.store.headers == hs + [h];
      forall k | k != key ensures Lookup(u.store, k) == Lookup(st, k) {
        KeyIndexAppendOther(hs, h, k);
        if KeyIndex(hs, k).Some? {
          assert u.store.headers[KeyIndex(hs, k).value] == hs[KeyIndex(hs, k).value];
        }
      }
      forall id | IsRoot(st, id) && Lookup(st, key) != Some(id) ensures IsRoot(u.store, id) {
        IdsMembership(st, id);
        var k := IdIndex(hs, id).value;
        ParentAt(st, k);
        assert u.store.headers[k] == hs[k];
        ParentAt(u.store, k);
      }
  }

  /** What a successful get-or-create leaves alone: the reports stored under other triples and
      every top-level report; a report it creates is itself top-level. */
  lemma GetOrCreateFrame(st: Store, key: Triple, drawn: string, now: int)
    requires Wf(st) && GetOrCreate(st, key, drawn, now).Ok?
    ensures var u := GetOrCreate(st, key, drawn, now).value;
      (forall k :: k != key ==> Lookup(u.store, k) == Lookup(st, k))
      && (forall h :: h in u.store.headers ==> h in st.headers || (h.key == key && h.id == u.id && h.parent.None?))
      && (forall id :: IsRoot(st, id) ==> IsRoot(u.store, id))
      && (Lookup(st, key).None? ==> IsRoot(u.store, u.id))
  {
    var u := GetOrCreate(st, key, drawn, now).value;
    var hs := st.headers;
    if KeyIndex(hs, key).None? {
      var h := Header(drawn, key, None, now);
      forall k | k != key ensures Lookup(u.store, k) == Lookup(st, k) {
        KeyIndexAppendOther(hs, h, k);
        if KeyIndex(hs, k).Some? {
          assert u.store.headers[KeyIndex(hs, k).value] == hs[KeyIndex(hs, k).value];
        }
      }
      RootsKeptByAppend(st, h);
      ParentAt(u.store, |hs|);
    }
  }

  lemma NotKeyPreserved(hs: seq<Header>, i: nat, h: Header)
    requires i < |hs| && h.key == hs[i].key
    ensures forall g :: g in hs && g.key != h.key ==> g in hs[i := h]
  {
    forall g | g in hs && g.key != h.key ensures g in hs[i := h] {
      var k :| 0 <= k < |hs| && hs[k] == g;
      assert hs[i := h][k] == g;
    }
  }

  lemma KeyIndexSameKeys(hs: seq<Header>, gs: seq<Header>, key: Triple)
    requires |hs| == |gs| && forall i :: 0 <= i < |hs| ==> hs[i].key == gs[i].key
    ensures KeyIndex(hs, key) == KeyIndex(gs, key)
  {
    if |hs| > 0 {
      KeyIndexSameKeys(hs[1..], gs[1..], key);
    }
  }

  /** The parent recorded for report `id`, `None` when the report is top-level or absent. */
  function Parent(st: Store, id: string): Option<string> {
    match IdIndex(st.headers, id)
    case None => None
    case Some(i) => st.headers[i].parent
  }

  lemma ParentAt(st: Store, i: nat)
    requires Wf(st) && i < |st.headers|
    ensures IdIndex(st.headers, st.headers[i].id) == Some(i)
    ensures Parent(st, st.headers[i].id) == st.headers[i].parent
  {
    assert IdIndex(st.headers, st.headers[i].id).Some?;
  }

  /** A report is top-level when it exists and has no parent. */
  predicate IsRoot(st: Store, id: string) {
    id in Ids(st) && Parent(st, id).None?
  }

  // ------------------------------------------------------------------------------------------
  // Corrected upserts (see the instructor ranged flow): top-level reports are never adopted.

  /** The parent get-or-create of the corrected instructor ranged flow: an existing report with
      the triple is made top-level again (`ON CONFLICT DO UPDATE SET parent_report_id = NULL`). */
  function GetOrCreateRoot(st: Store, key: Triple, drawn: string, now: int): (r: Result<Upserted>)
    requires Wf(st)
    ensures r.Err? <==> Lookup(st, key).None? && drawn in Ids(st)
    ensures r.Ok? ==> Wf(r.value.store) && Lookup(r.value.store, key) == Some(r.value.id)
    ensures r.Ok? ==> IsRoot(r.value.store, r.value.id)
    ensures r.Ok? ==> r.value.store.metrics == st.metrics && r.value.store.links == st.links
    ensures r.Ok? ==> Ids(r.value.store) == Ids(st) + {r.value.id}
    ensures r.Ok? ==> forall id :: IsRoot(st, id) ==> IsRoot(r.value.store, id)
  {
    match KeyIndex(st.headers, key)
    case Some(i) =>
      var h := st.headers[i].(parent := None);
      ReplaceKeepsWf(st, i, h);
      var st' := st.(headers := st.headers[i := h]);
      ParentAt(st', i);
      KeyIndexSameKeys(st.headers, st'.headers, key);
      RootsKeptByReplace(st, i, h);
      Ok(Upserted(st', h.id))
    case None =>
      if drawn in Ids(st) then Err(ServerError)
      else
        var h := Header(drawn, key, None, now);
        AppendKeepsWf(st, h);
        var st' := st.(headers := st.headers + [h]);
        ParentAt(st', |st.headers|);
        KeyIndexAppend(st.headers, h, key);
        RootsKeptByAppend(st, h);
        Ok(Upserted(st', drawn))
  }

  /** The child upsert of the corrected instructor ranged flow: like `UpsertChild`, except that a
      top-level report holding the triple keeps having no parent; its id is still returned. */
  function UpsertChildKeepRoots(st: Store, key: Triple, drawn: string, parent: string, now: int): (r: Result<Upserted>)
    requires Wf(st)
    ensures r.Err? <==> Lookup(st, key).None? && drawn in Ids(st)
    ensures r.Ok? ==> Wf(r.value.store) && Lookup(r.value.store, key) == Some(r.value.id)
    ensures r.Ok? ==> r.value.store.metrics == st.metrics && r.value.store.links == st.links
    ensures r.Ok? ==> Ids(r.value.store) == Ids(st) + {r.value.id}
    ensures r.Ok? ==> forall id :: IsRoot(st, id) ==> IsRoot(r.value.store, id)
    ensures r.Ok? && !IsRoot(st, r.value.id) ==> Parent(r.value.store, r.value.id) == Some(parent)
  {
    match KeyIndex(st.headers, key)
    case Some(i) =>
      if st.headers[i].parent.None? then
        ParentAt(st, i);
        Ok(Upserted(st, st.headers[i].id))
      else
        var h := st.headers[i].(parent := Some(parent));
        ReplaceKeepsWf(st, i, h);
        var st' := st.(headers := st.headers[i := h]);
        ParentAt(st, i);
        ParentAt(st', i);
        KeyIndexSameKeys(st.headers, st'.headers, key);
        RootsKeptByReplace(st, i, h);
        Ok(Upserted(st', h.id))
    case None =>
      if drawn in Ids(st) then Err(ServerError)
      else
        var h := Header(drawn, key, Some(parent), now);
        AppendKeepsWf(st, h);
        var st' := st.(headers := st.headers + [h]);
        ParentAt(st', |st.headers|);
        KeyIndexAppend(st.headers, h, key);
        RootsKeptByAppend(st, h);
        Ok(Upserted(st', drawn))
  }

  lemma RootsKeptByReplace(st: Store, i: nat, h: Header)
    requires Wf(st) && i < |st.headers|
    requires h.id == st.headers[i].id && h.key == st.headers[i].key
    requires st.headers[i].parent.Some? || h.parent.None?
    ensures forall id :: IsRoot(st, id) ==> IsRoot(st.(headers := st.headers[i := h]), id)
  {
    var st' := st.(headers := st.headers[i := h]);
    ReplaceKeepsWf(st, i, h);
    forall id | IsRoot(st, id) ensures IsRoot(st', id) {
      IdsMembership(st, id);
      var k := IdIndex(st.headers, id).value;
      ParentAt(st, k);
      ParentAt(st', k);
    }
  }

  lemma RootsKeptByAppend(st: Store, h: Header)
    requires Wf(st) && h.id !in Ids(st) && KeyIndex(st.headers, h.key).None?
    ensures forall id :: IsRoot(st, id) ==> IsRoot(st.(headers := st.headers + [h]), id)
  {
    var st' := st.(headers := st.headers + [h]);
    AppendKeepsWf(st, h);
    forall id | IsRoot(st, id) ensures IsRoot(st', id) {
      IdsMembership(st, id);
      var k := IdIndex(st.headers, id).value;
      ParentAt(st, k);
      assert st'.headers[k] == st.headers[k];
      ParentAt(st', k);
    }
  }

  // ------------------------------------------------------------------------------------------
  // list_reports

  /** A report `list_reports` shows to `admin`: linked to the admin and without a parent. */
  predicate Listed(st: Store, admin: string, h: Header) {
    h.parent.None? && (admin, h.id) in st.links
  }

  function ListedHeaders(st: Store, admin: string, hs: seq<Header>): (r: seq<Header>)
    ensures forall h :: h in r <==> h in hs && Listed(st, admin, h)
    ensures |r| <= |hs|
  {
    if |hs| == 0 then []
    else (if Listed(st, admin, hs[0]) then [hs[0]] else []) + ListedHeaders(st, admin, hs[1..])
  }

  /** `ORDER BY creation_date DESC`. */
  function NewestFirst(): (leq: (Header, Header) -> bool)
    ensures TotalPreorder(leq)
    ensures forall a, b :: leq(a, b) <==> a.created >= b.created
  {
    (a: Header, b: Header) => a.created >= b.created
  }

  /** `list_reports(admin)`: the reports linked to `admin` that have no parent, newest first.
      Rows with equal timestamps may come in any order; the model keeps store order among them. */
  function ListReports(st: Store, admin: string): (r: seq<Header>)
    ensures forall h :: h in r <==> h in st.headers && Listed(st, admin, h)
    ensures forall i, j :: 0 <= i < j < |r| ==> r[i].created >= r[j].created
    ensures multiset(r) == multiset(ListedHeaders(st, admin, st.headers))
  {
    var xs := ListedHeaders(st, admin, st.headers);
    var r := SortBy(xs, NewestFirst());
    assert forall h :: h in r <==> h in multiset(r);
    assert forall h :: h in xs <==> h in multiset(xs);
    r
  }

  /** A report is listed for `admin` exactly when it is a linked top-level report. */
  lemma ListedIffLinkedRoot(st: Store, admin: string, id: string)
    requires Wf(st)
    ensures (exists h :: h in ListReports(st, admin) && h.id == id) <==> (IsRoot(st, id) && (admin, id) in st.links)
  {
    if IsRoot(st, id) && (admin, id) in st.links {
      IdsMembership(st, id);
      var k := IdIndex(st.headers, id).value;
      ParentAt(st, k);
      assert st.headers[k] in ListReports(st, admin);
    }
    if h :| h in ListReports(st, admin) && h.id == id {
      var k :| 0 <= k < |st.headers| && st.headers[k] == h;
      ParentAt(st, k);
    }
  }
}
