/** The course syllabus (`get_course_syllabus` in `course_overview.py`): the rows of the
    section ⟕ content join, grouped into one entry per section in the order the sections first
    occur, each with its contents and a count of them by type. The rows are the query's result, a
    parameter of the model. */
module CourseOverview {
  import opened Wrappers
  import opened Json
  import opened Db

  /** One row of the join; the content columns are null when the section has no content. */
  datatype Row = Row(
    secId: string, secTitle: Json, secDesc: Json, secTime: int, secOrder: int,
    contentId: Option<string>, contentTitle: Json, contentTime: int, contentType: Option<string>)

  datatype Item = Item(contentId: string, title: Json, time: int, contentType: Option<string>)

  /** The `content_summary` dict: counts of task, document and visual material contents. */
  datatype Summary = Summary(task: nat, document: nat, visual: nat)

  datatype Entry = Entry(secId: string, title: Json, description: Json, time: int, order: int, contents: seq<Item>, summary: Summary)

  /** `if content_id:` — a null or empty content id adds nothing. */
  predicate HasItem(row: Row) {
    row.contentId.Some? && row.contentId.value != ""
  }

  function ItemOf(row: Row): Item
    requires HasItem(row)
  {
    Item(row.contentId.value, row.contentTitle, row.contentTime, row.contentType)
  }

  /** `content_summary[content_type] += 1` when the type is one of the three keys. */
  function Tally(s: Summary, t: Option<string>): Summary {
    if t == Some("task") then s.(task := s.task + 1)
    else if t == Some("document") then s.(document := s.document + 1)
    else if t == Some("visual_material") then s.(visual := s.visual + 1)
    else s
  }

  function NewEntry(row: Row): Entry {
    Entry(row.secId, row.secTitle, row.secDesc, row.secTime, row.secOrder, [], Summary(0, 0, 0))
  }

  function AddItem(e: Entry, row: Row): Entry {
    if HasItem(row) then e.(contents := e.contents + [ItemOf(row)], summary := Tally(e.summary, row.contentType))
    else e
  }

  function FindSection(es: seq<Entry>, secId: string): (k: Option<nat>)
    ensures k.Some? ==> k.value < |es| && es[k.value].secId == secId
    ensures k.None? ==> forall i :: 0 <= i < |es| ==> es[i].secId != secId
  {
    if |es| == 0 then None
    else if es[|es| - 1].secId == secId then Some(|es| - 1)
    else FindSection(es[..|es| - 1], secId)
  }

  /** One iteration of the `for row in rows` loop over the ordered dict. */
  function Step(es: seq<Entry>, row: Row): seq<Entry> {
    match FindSection(es, row.secId)
    case Some(k) => es[k := AddItem(es[k], row)]
    case None => es + [AddItem(NewEntry(row), row)]
  }

  /** The loop over all rows. */
  function Group(rows: seq<Row>): seq<Entry> {
    if |rows| == 0 then [] else Step(Group(rows[..|rows| - 1]), rows[|rows| - 1])
  }

  // ------------------------------------------------------------------------------------------
  // Reference definitions

  function RowIds(rows: seq<Row>): (r: seq<string>)
    ensures |r| == |rows| && forall i :: 0 <= i < |rows| ==> r[i] == rows[i].secId
  {
    seq(|rows|, i requires 0 <= i < |rows| => rows[i].secId)
  }

  function EntryIds(es: seq<Entry>): (r: seq<string>)
    ensures |r| == |es| && forall i :: 0 <= i < |es| ==> r[i] == es[i].secId
  {
    seq(|es|, i requires 0 <= i < |es| => es[i].secId)
  }

  /** The first row of a section. */
  function FirstRow(rows: seq<Row>, secId: string): Row
    requires secId in RowIds(rows)
  {
    var init := rows[..|rows| - 1];
    if secId in RowIds(init) then FirstRow(init, secId)
    else rows[|rows| - 1]
  }

  /** The section's contents: the content of each of its rows that has one, in row order. */
  function ItemsOf(rows: seq<Row>, secId: string): seq<Item> {
    if |rows| == 0 then []
    else
      var last := rows[|rows| - 1];
      ItemsOf(rows[..|rows| - 1], secId) + (if last.secId == secId && HasItem(last) then [ItemOf(last)] else [])
  }

  function SummaryOf(items: seq<Item>): Summary {
    if |items| == 0 then Summary(0, 0, 0) else Tally(SummaryOf(items[..|items| - 1]), items[|items| - 1].contentType)
  }

  /** Everything the grouping promises about one entry: header fields from the section's first
      row, all of its contents in order, and the summary of those contents. */
  predicate EntryMatches(rows: seq<Row>, e: Entry)
    requires e.secId in RowIds(rows)
  {
    var first := FirstRow(rows, e.secId);
    e.title == first.secTitle && e.description == first.secDesc && e.time == first.secTime && e.order == first.secOrder
    && e.contents == ItemsOf(rows, e.secId) && e.summary == SummaryOf(e.contents)
  }

  predicate Grouped(rows: seq<Row>, es: seq<Entry>) {
    EntryIds(es) == FirstOccurrences(RowIds(rows))
    && (forall i :: 0 <= i < |es| ==> es[i].secId in RowIds(rows) && EntryMatches(rows, es[i]))
  }

  lemma ItemsOfOther(rows: seq<Row>, row: Row, secId: string)
    requires row.secId != secId || !HasItem(row)
    ensures ItemsOf(rows + [row], secId) == ItemsOf(rows, secId)
  {
    assert (rows + [row])[..|rows|] == rows;
  }

  lemma FirstRowExtend(rows: seq<Row>, row: Row, secId: string)
    requires secId in RowIds(rows)
    ensures secId in RowIds(rows + [row]) && FirstRow(rows + [row], secId) == FirstRow(rows, secId)
  {
    var rows' := rows + [row];
    assert rows'[..|rows'| - 1] == rows;
    assert RowIds(rows') == RowIds(rows) + [row.secId];
  }

  /** The grouping loop builds exactly the reference grouping. */
  lemma {:induction false} GroupIsGrouped(rows: seq<Row>)
    ensures Grouped(rows, Group(rows))
  {
    if |rows| > 0 {
      var init := rows[..|rows| - 1];
      var row := rows[|rows| - 1];
      GroupIsGrouped(init);
      SplitLast(rows);
      StepKeepsGrouped(init, row, Group(init));
    }
  }

  /** A row of another section leaves an entry's promises intact. */
  lemma EntryKeep(rows: seq<Row>, row: Row, e: Entry)
    requires e.secId in RowIds(rows) && EntryMatches(rows, e) && e.secId != row.secId
    ensures e.secId in RowIds(rows + [row]) && EntryMatches(rows + [row], e)
  {
    FirstRowExtend(rows, row, e.secId);
    ItemsOfOther(rows, row, e.secId);
  }

  /** A further row of the entry's own section appends its content, if any. */
  lemma EntryHit(rows: seq<Row>, row: Row, e: Entry)
    requires e.secId == row.secId && e.secId in RowIds(rows) && EntryMatches(rows, e)
    ensures e.secId in RowIds(rows + [row]) && EntryMatches(rows + [row], AddItem(e, row))
  {
    var rows' := rows + [row];
    assert rows'[..|rows'| - 1] == rows;
    FirstRowExtend(rows, row, e.secId);
    if HasItem(row) {
      var c := e.contents + [ItemOf(row)];
      assert c[..|c| - 1] == e.contents;
    }
  }

  /** The first row of a section opens its entry. */
  lemma EntryNew(rows: seq<Row>, row: Row)
    requires row.secId !in RowIds(rows)
    ensures row.secId in RowIds(rows + [row]) && EntryMatches(rows + [row], AddItem(NewEntry(row), row))
  {
    FirstRowNew(rows, row);
    ItemsOfNew(rows, row);
    if HasItem(row) {
      assert [ItemOf(row)][..0] == [];
    }
  }

  lemma FirstRowNew(rows: seq<Row>, row: Row)
    requires row.secId !in RowIds(rows)
    ensures row.secId in RowIds(rows + [row]) && FirstRow(rows + [row], row.secId) == row
  {
    var rows' := rows + [row];
    assert rows'[..|rows'| - 1] == rows;
    assert RowIds(rows') == RowIds(rows) + [row.secId];
  }

  lemma ItemsOfNew(rows: seq<Row>, row: Row)
    requires row.secId !in RowIds(rows)
    ensures ItemsOf(rows + [row], row.secId) == if HasItem(row) then [ItemOf(row)] else []
  {
    var rows' := rows + [row];
    assert rows'[..|rows'| - 1] == rows;
    ItemsOfAbsent(rows, row.secId);
  }

  lemma StepIds(rows: seq<Row>, row: Row, es: seq<Entry>)
    requires EntryIds(es) == FirstOccurrences(RowIds(rows))
    ensures EntryIds(Step(es, row)) == FirstOccurrences(RowIds(rows + [row]))
  {
    var rows' := rows + [row];
    assert RowIds(rows') == RowIds(rows) + [row.secId];
    assert RowIds(rows')[..|rows|] == RowIds(rows);
    FirstOccurrencesMembers(RowIds(rows));
    match FindSection(es, row.secId)
    case Some(k) =>
      assert row.secId in EntryIds(es);
      assert EntryIds(Step(es, row)) == EntryIds(es);
    case None =>
      assert row.secId !in EntryIds(es);
      assert EntryIds(Step(es, row)) == EntryIds(es) + [row.secId];
  }

  lemma StepKeepsGrouped(rows: seq<Row>, row: Row, es: seq<Entry>)
    requires Grouped(rows, es)
    ensures Grouped(rows + [row], Step(es, row))
  {
    var es' := Step(es, row);
    StepIds(rows, row, es);
    FirstOccurrencesDistinct(RowIds(rows));
    FirstOccurrencesMembers(RowIds(rows));
    match FindSection(es, row.secId)
    case Some(k) =>
      forall i | 0 <= i < |es'| ensures es'[i].secId in RowIds(rows + [row]) && EntryMatches(rows + [row], es'[i]) {
        if i == k {
          EntryHit(rows, row, es[k]);
        } else {
          assert EntryIds(es)[i] != EntryIds(es)[k];
          EntryKeep(rows, row, es[i]);
        }
      }
    case None =>
      assert row.secId !in EntryIds(es);
      forall i | 0 <= i < |es'| ensures es'[i].secId in RowIds(rows + [row]) && EntryMatches(rows + [row], es'[i]) {
        if i < |es| {
          EntryKeep(rows, row, es[i]);
        } else {
          EntryNew(rows, row);
        }
      }
  }

  lemma ItemsOfAbsent(rows: seq<Row>, secId: string)
    requires secId !in RowIds(rows)
    ensures ItemsOf(rows, secId) == []
  {
    if |rows| > 0 {
      assert RowIds(rows[..|rows| - 1]) == RowIds(rows)[..|rows| - 1];
      ItemsOfAbsent(rows[..|rows| - 1], secId);
    }
  }

  function SummaryTotal(s: Summary): nat { s.task + s.document + s.visual }

  predicate KnownType(t: Option<string>) {
    t == Some("task") || t == Some("document") || t == Some("visual_material")
  }

  /** The summary counts at most every content, and exactly every content when all types are
      known. */
  lemma {:induction false} SummaryBound(items: seq<Item>)
    ensures SummaryTotal(SummaryOf(items)) <= |items|
    ensures (forall i :: 0 <= i < |items| ==> KnownType(items[i].contentType)) ==> SummaryTotal(SummaryOf(items)) == |items|
  {
    if |items| > 0 {
      SummaryBound(items[..|items| - 1]);
    }
  }

  /** `GET /api/course-overview/<course_id>/syllabus`: a missing course and a course that is not
      accepted both answer 404; otherwise the grouped rows. */
  function Syllabus(db: Db, courseId: string, rows: seq<Row>): (r: Result<seq<Entry>>)
    ensures r.Err? <==> CourseStatus(db, courseId) != Some("accepted")
    ensures r.Err? ==> r.status == NotFound
    ensures r.Ok? ==> Grouped(rows, r.value)
  {
    if courseId !in db.courses then Err(NotFound)
    else if db.courses[courseId].status != "accepted" then Err(NotFound)
    else
      GroupIsGrouped(rows);
      Ok(Group(rows))
  }

  /** Sections are listed once each. */
  lemma SyllabusSectionsDistinct(db: Db, courseId: string, rows: seq<Row>)
    ensures var r := Syllabus(db, courseId, rows);
      r.Ok? ==> Distinct(EntryIds(r.value)) && |r.value| <= |rows|
  {
    FirstOccurrencesDistinct(RowIds(rows));
    FirstOccurrencesLength(RowIds(rows));
  }
}
