/** Course authoring (`create_course.py`): creating a course, adding a section to it and adding a
    content item to a section. Identifiers are sequential: a prefix and the row count plus one,
    zero-padded. */
module CourseCreation {
  import opened Wrappers
  import opened Text
  import opened Calendar
  import opened Json
  import opened Db

  // ------------------------------------------------------------------------------------------
  // Sequential identifiers

  /** `f"{prefix}{n:0{width}d}"`. */
  function SequentialId(prefix: string, n: nat, width: nat): (r: string)
    ensures StartsWith(r, prefix) && AllDigits(r[|prefix|..])
    ensures n < Pow10(width) && width >= 1 ==> |r| == |prefix| + width
    ensures |r| >= |prefix| + width
  {
    var d := ZeroPad(n, width);
    var r := prefix + d;
    assert r[..|prefix|] == prefix && r[|prefix|..] == d;
    assert n < Pow10(width) && width >= 1 ==> |NatToDecimal(n)| <= width by {
      if n < Pow10(width) && width >= 1 {
        DecimalLength(n, width);
      }
    }
    r
  }

  /** Reads the number back out of a sequential identifier. */
  function ParseSequentialId(prefix: string, width: nat, id: string): (r: Option<nat>)
    ensures r.Some? ==> StartsWith(id, prefix)
  {
    if StartsWith(id, prefix) && |id| >= |prefix| + width && AllDigits(id[|prefix|..]) then Some(DigitsValue(id[|prefix|..]))
    else None
  }

  lemma SequentialIdRoundTrip(prefix: string, n: nat, width: nat)
    ensures ParseSequentialId(prefix, width, SequentialId(prefix, n, width)) == Some(n)
  {
    var r := SequentialId(prefix, n, width);
    assert r[|prefix|..] == ZeroPad(n, width);
  }

  /** Distinct counts give distinct identifiers. */
  lemma SequentialIdInjective(prefix: string, a: nat, b: nat, width: nat)
    requires SequentialId(prefix, a, width) == SequentialId(prefix, b, width)
    ensures a == b
  {
    SequentialIdRoundTrip(prefix, a, width);
    SequentialIdRoundTrip(prefix, b, width);
  }

  function CourseId(n: nat): string { SequentialId("C", n, 7) }
  function SectionId(n: nat): string { SequentialId("S", n, 7) }
  function ContentId(n: nat): string { SequentialId("CT", n, 6) }

  lemma IdLengths(n: nat)
    requires 1 <= n < 1000000
    ensures |CourseId(n)| == 8 && |SectionId(n)| == 8 && |ContentId(n)| == 8
  {
    assert Pow10(6) == 1000000;
    assert Pow10(7) == 10000000;
  }

  // ------------------------------------------------------------------------------------------
  // Converting body values for the insert

  /** The integer PostgreSQL compares an integer column with: numbers, and strings its integer
      input accepts. */
  function SqlInt(v: Json): (r: Option<int>)
    ensures r.Some? ==> PyInt(v) == Parsed(r.value)
  {
    match v
    case JNum(n) => Some(n)
    case JStr(s) => ParseIntText(s)
    case _ => None
  }

  // ------------------------------------------------------------------------------------------
  // Creating a course

  /** Every required field is present and truthy. */
  predicate HasCourseFields(body: Body) {
    Given(body, "title") && Given(body, "description") && Given(body, "category") && Given(body, "price")
    && Given(body, "qna_link") && Given(body, "difficulty_level") && Given(body, "instructor_id")
  }

  datatype Created = Created(db: Db, id: string)

  /** A conversion that gives a text; a truthy field never gives `NULL`. */
  predicate IsText(c: Option<SqlText>) { c.Some? && c.value.SqlString? }

  /** The course row the insert writes, when every conversion succeeds. */
  function NewCourse(body: Body, id: string, today: Date): (r: Option<Course>)
    requires HasCourseFields(body)
    ensures r.Some? <==> (PyInt(body["price"]).Parsed? && PyInt(body["difficulty_level"]).Parsed?
                          && IsText(TextColumn(body["title"])) && IsText(TextColumn(body["description"]))
                          && IsText(TextColumn(body["category"])) && IsText(TextColumn(body["qna_link"]))
                          && IsText(TextColumn(body["instructor_id"])))
    ensures r.Some? ==> r.value.id == id && StoresBody(body, r.value)
  {
    var price := PyInt(body["price"]);
    var level := PyInt(body["difficulty_level"]);
    var title := TextColumn(body["title"]);
    var description := TextColumn(body["description"]);
    var category := TextColumn(body["category"]);
    var qna := TextColumn(body["qna_link"]);
    var creator := TextColumn(body["instructor_id"]);
    if price.Parsed? && level.Parsed? && IsText(title) && IsText(description) && IsText(category) && IsText(qna) && IsText(creator) then
      Some(Course(id, title.value.s, description.value.s, category.value.s, price.n, today, today, "draft", 0,
                  qna.value.s, level.n, creator.value.s, None))
    else None
  }

  /** The row holds the body's fields as the insert converts them: texts as `TextColumn` gives
      them, price and difficulty through `int()`. */
  predicate StoresBody(body: Body, c: Course) {
    HasCourseFields(body)
    && TextColumn(body["title"]) == Some(SqlString(c.title))
    && TextColumn(body["description"]) == Some(SqlString(c.description))
    && TextColumn(body["category"]) == Some(SqlString(c.category))
    && TextColumn(body["qna_link"]) == Some(SqlString(c.qnaLink))
    && TextColumn(body["instructor_id"]) == Some(SqlString(c.creatorId))
    && PyInt(body["price"]) == Parsed(c.price) && PyInt(body["difficulty_level"]) == Parsed(c.difficulty)
  }

  /** `POST /api/course`: missing or falsy fields → 400; the id is "C" and the course count plus
      one in seven digits; a failed conversion or an id already taken → 500. */
  function CreateCourse(db: Db, body: Body, today: Date): (r: Result<Created>)
    ensures !HasCourseFields(body) ==> r == Err(BadRequest)
    ensures r.Err? ==> r.status == BadRequest || r.status == ServerError
    ensures r.Ok? <==> (HasCourseFields(body) && NewCourse(body, CourseId(|db.courses| + 1), today).Some?
                        && CourseId(|db.courses| + 1) !in db.courses)
    ensures r.Ok? ==> r.value.id == CourseId(|db.courses| + 1) && r.value.id !in db.courses
    ensures r.Ok? ==> r.value.db.courses.Keys == db.courses.Keys + {r.value.id}
    ensures r.Ok? ==> r.value.db.courses[r.value.id].id == r.value.id && StoresBody(body, r.value.db.courses[r.value.id])
    ensures r.Ok? ==> r.value.db.(courses := db.courses) == db
    ensures r.Ok? ==> var c := r.value.db.courses[r.value.id];
      c.status == "draft" && c.enrollmentCount == 0 && c.approverId == None && c.created == today && c.lastUpdate == today
    ensures r.Ok? ==> forall id :: id in db.courses ==> r.value.db.courses[id] == db.courses[id]
  {
    if !HasCourseFields(body) then Err(BadRequest)
    else
      var id := CourseId(|db.courses| + 1);
      match NewCourse(body, id, today)
      case None => Err(ServerError)
      case Some(c) =>
        if id in db.courses then Err(ServerError)
        else Ok(Created(db.(courses := db.courses[id := c]), id))
  }

  /** The form's usual request: non-empty strings and non-zero numbers create exactly the course
      row they describe, in draft with no enrolments. */
  lemma CreateCourseFromForm(db: Db, title: string, description: string, category: string, qna: string,
                             instructor: string, price: int, level: int, today: Date)
    requires title != "" && description != "" && category != "" && qna != "" && instructor != ""
    requires price != 0 && level != 0
    requires CourseId(|db.courses| + 1) !in db.courses
    ensures var body := map["title" := JStr(title), "description" := JStr(description), "category" := JStr(category),
                            "price" := JNum(price), "qna_link" := JStr(qna), "difficulty_level" := JNum(level),
                            "instructor_id" := JStr(instructor)];
            var id := CourseId(|db.courses| + 1);
            CreateCourse(db, body, today)
            == Ok(Created(db.(courses := db.courses[id := Course(id, title, description, category, price, today, today,
                                                                 "draft", 0, qna, level, instructor, None)]), id))
  {
    var body := map["title" := JStr(title), "description" := JStr(description), "category" := JStr(category),
                    "price" := JNum(price), "qna_link" := JStr(qna), "difficulty_level" := JNum(level),
                    "instructor_id" := JStr(instructor)];
    assert HasCourseFields(body) by {
      assert body["title"] == JStr(title) && body["description"] == JStr(description);
      assert body["category"] == JStr(category) && body["price"] == JNum(price) && body["qna_link"] == JStr(qna);
      assert body["difficulty_level"] == JNum(level) && body["instructor_id"] == JStr(instructor);
    }
    var id := CourseId(|db.courses| + 1);
    assert NewCourse(body, id, today)
        == Some(Course(id, title, description, category, price, today, today, "draft", 0, qna, level, instructor, None));
  }

  /** Required fields are checked by truthiness: a price or difficulty of 0 counts as missing. */
  lemma ZeroPriceIsMissing(db: Db, body: Body, today: Date)
    requires "price" in body && body["price"] == JNum(0)
    ensures CreateCourse(db, body, today) == Err(BadRequest)
  {
  }

  /** Course ids are "C0000001" up to "C" and the number of courses: the state every
      `CreateCourse` leaves behind when it starts from it. */
  predicate SequentialCourses(db: Db) {
    forall id :: id in db.courses ==>
      ParseSequentialId("C", 7, id).Some? && 1 <= ParseSequentialId("C", 7, id).value <= |db.courses|
  }

  /** From sequential ids the generated id is always fresh, so creation never collides, and the
      ids stay sequential. */
  lemma CreateCourseKeepsSequential(db: Db, body: Body, today: Date)
    requires SequentialCourses(db)
    requires HasCourseFields(body)
    requires NewCourse(body, CourseId(|db.courses| + 1), today).Some?
    ensures CreateCourse(db, body, today).Ok?
    ensures SequentialCourses(CreateCourse(db, body, today).value.db)
  {
    var n := |db.courses| + 1;
    var id := CourseId(n);
    SequentialIdRoundTrip("C", n, 7);
    assert id !in db.courses;
    var db' := CreateCourse(db, body, today).value.db;
    assert db'.courses == db.courses[id := NewCourse(body, id, today).value];
    assert |db'.courses| == n;
  }

  // ------------------------------------------------------------------------------------------
  // Adding a section

  /** Section fields are only required to be present, not truthy. */
  predicate HasSectionKeys(body: Body) {
    "title" in body && "description" in body && "order_number" in body && "allocated_time" in body
  }

  function SectionsOf(db: Db, courseId: string): nat {
    Count(db.sections, (s: Section) => s.courseId == courseId)
  }

  predicate HasOrder(db: Db, courseId: string, order: int) {
    exists i :: 0 <= i < |db.sections| && db.sections[i].courseId == courseId && db.sections[i].orderNumber == order
  }

  /** `UPDATE course SET last_update_date = CURRENT_DATE WHERE course_id = %s`. */
  function Touch(db: Db, courseId: string, today: Date): (db': Db)
    ensures db'.courses.Keys == db.courses.Keys
    ensures courseId in db.courses ==> db'.courses[courseId] == db.courses[courseId].(lastUpdate := today)
    ensures forall id :: id in db.courses && id != courseId ==> db'.courses[id] == db.courses[id]
    ensures db'.(courses := db.courses) == db
  {
    if courseId in db.courses then db.(courses := db.courses[courseId := db.courses[courseId].(lastUpdate := today)])
    else db
  }

  /** `POST /api/course/<course_id>/section`: missing keys → 400, unknown course → 404, an order
      number the course already uses → 400; the section id is "S" and the course's section count
      plus one in seven digits. */
  function AddSection(db: Db, courseId: string, body: Body, today: Date): (r: Result<Created>)
    ensures !HasSectionKeys(body) ==> r == Err(BadRequest)
    ensures HasSectionKeys(body) && courseId !in db.courses ==> r == Err(NotFound)
    ensures r.Err? ==> r.status in {BadRequest, NotFound, ServerError}
    ensures r.Ok? <==> (HasSectionKeys(body) && courseId in db.courses && SqlInt(body["order_number"]).Some?
                        && !HasOrder(db, courseId, SqlInt(body["order_number"]).value) && PyInt(body["allocated_time"]).Parsed?
                        && TextColumn(body["title"]).Some? && TextColumn(body["description"]).Some?)
    ensures r.Ok? ==> courseId in db.courses && r.value.id == SectionId(SectionsOf(db, courseId) + 1)
    ensures r.Ok? ==> |r.value.db.sections| == |db.sections| + 1 && r.value.db.sections[..|db.sections|] == db.sections
    ensures r.Ok? ==> var s := r.value.db.sections[|db.sections|];
      s.courseId == courseId && s.secId == r.value.id && !HasOrder(db, courseId, s.orderNumber)
      && SqlInt(body["order_number"]) == Some(s.orderNumber)
      && Some(s.title) == TextColumn(body["title"]) && Some(s.description) == TextColumn(body["description"])
    ensures (HasSectionKeys(body) && courseId in db.courses && SqlInt(body["order_number"]).Some?
      && !HasOrder(db, courseId, SqlInt(body["order_number"]).value) && PyInt(body["allocated_time"]).Parsed?
      && (TextColumn(body["title"]).None? || TextColumn(body["description"]).None?)) ==> r == Err(ServerError)
    ensures r.Ok? ==> courseId in r.value.db.courses && r.value.db.courses[courseId].lastUpdate == today
  {
    if !HasSectionKeys(body) then Err(BadRequest)
    else
      if courseId !in db.courses then Err(NotFound)
      else
        var secId := SectionId(SectionsOf(db, courseId) + 1);
        match SqlInt(body["order_number"])
        case None => Err(ServerError)
        case Some(order) =>
          if HasOrder(db, courseId, order) then Err(BadRequest)
          else
            match PyInt(body["allocated_time"])
            case Parsed(time) =>
              if TextColumn(body["title"]).None? || TextColumn(body["description"]).None? then Err(ServerError)
              else
                var s := Section(courseId, secId, TextColumn(body["title"]).value, TextColumn(body["description"]).value, order, time);
                Ok(Created(Touch(db.(sections := db.sections + [s]), courseId, today), secId))
            case _ => Err(ServerError)
  }

  /** No course has two sections with the same order number. */
  predicate UniqueOrders(db: Db) {
    forall i, j :: 0 <= i < j < |db.sections| && db.sections[i].courseId == db.sections[j].courseId
      ==> db.sections[i].orderNumber != db.sections[j].orderNumber
  }

  lemma AddSectionKeepsUniqueOrders(db: Db, courseId: string, body: Body, today: Date)
    requires UniqueOrders(db)
    requires AddSection(db, courseId, body, today).Ok?
    ensures UniqueOrders(AddSection(db, courseId, body, today).value.db)
  {
    var db' := AddSection(db, courseId, body, today).value.db;
    var n := |db.sections|;
    forall i, j | 0 <= i < j < |db'.sections| && db'.sections[i].courseId == db'.sections[j].courseId
      ensures db'.sections[i].orderNumber != db'.sections[j].orderNumber
    {
      if j == n {
        assert db'.sections[i] == db.sections[i];
      } else {
        assert db'.sections[i] == db.sections[i] && db'.sections[j] == db.sections[j];
      }
    }
  }

  /** An order number the course already uses is refused with 400. */
  lemma AddSectionDuplicateOrder(db: Db, courseId: string, body: Body, today: Date, i: nat)
    requires HasSectionKeys(body) && courseId in db.courses
    requires i < |db.sections| && db.sections[i].courseId == courseId
    requires SqlInt(body["order_number"]) == Some(db.sections[i].orderNumber)
    ensures AddSection(db, courseId, body, today) == Err(BadRequest)
  {
    assert HasOrder(db, courseId, db.sections[i].orderNumber);
  }

  // ------------------------------------------------------------------------------------------
  // Adding content

  predicate HasContentKeys(body: Body) {
    "title" in body && "allocated_time" in body && "content_type" in body
  }

  predicate ContentTypeOk(v: Json) {
    v == JStr("task") || v == JStr("document") || v == JStr("visual_material")
  }

  function ContentsOf(db: Db, courseId: string, secId: string): nat {
    Count(db.contents, (c: Content) => c.courseId == courseId && c.secId == secId)
  }

  /** `POST /api/course/<course_id>/section/<sec_id>/content`: missing keys → 400, a content type
      outside task/document/visual_material → 400, both before the section lookup (404); the id
      is "CT" and the section's content count plus one in six digits. */
  function AddContent(db: Db, courseId: string, secId: string, body: Body, today: Date): (r: Result<Created>)
    ensures !HasContentKeys(body) ==> r == Err(BadRequest)
    ensures HasContentKeys(body) && !ContentTypeOk(body["content_type"]) ==> r == Err(BadRequest)
    ensures HasContentKeys(body) && ContentTypeOk(body["content_type"]) && !HasSection(db, courseId, secId) ==> r == Err(NotFound)
    ensures r.Err? ==> r.status in {BadRequest, NotFound, ServerError}
    ensures r.Ok? <==> (HasContentKeys(body) && ContentTypeOk(body["content_type"]) && HasSection(db, courseId, secId)
                        && PyInt(body["allocated_time"]).Parsed? && TextColumn(body["title"]).Some?)
    ensures r.Ok? ==> HasSection(db, courseId, secId) && ContentTypeOk(body["content_type"])
    ensures r.Ok? ==> r.value.id == ContentId(ContentsOf(db, courseId, secId) + 1)
    ensures r.Ok? ==> |r.value.db.contents| == |db.contents| + 1 && r.value.db.contents[..|db.contents|] == db.contents
    ensures r.Ok? ==> var c := r.value.db.contents[|db.contents|];
      c.courseId == courseId && c.secId == secId && c.contentId == r.value.id && JStr(c.contentType) == body["content_type"]
      && Some(c.title) == TextColumn(body["title"])
    ensures (HasContentKeys(body) && ContentTypeOk(body["content_type"]) && HasSection(db, courseId, secId)
      && PyInt(body["allocated_time"]).Parsed? && TextColumn(body["title"]).None?) ==> r == Err(ServerError)
  {
    if !HasContentKeys(body) then Err(BadRequest)
    else
      if !ContentTypeOk(body["content_type"]) then Err(BadRequest)
      else if !HasSection(db, courseId, secId) then Err(NotFound)
      else
        var contentId := ContentId(ContentsOf(db, courseId, secId) + 1);
        match PyInt(body["allocated_time"])
        case Parsed(time) =>
          (match TextColumn(body["title"])
           case None => Err(ServerError)
           case Some(title) =>
             var c := Content(courseId, secId, contentId, title, time, body["content_type"].s);
             Ok(Created(Touch(db.(contents := db.contents + [c]), courseId, today), contentId)))
        case _ => Err(ServerError)
  }

  /** Each added content item counts towards the section's next id: the count grows by one, so
      the next item of the section gets a different id. */
  lemma AddContentCountsUp(db: Db, courseId: string, secId: string, body: Body, today: Date)
    requires AddContent(db, courseId, secId, body, today).Ok?
    ensures var r := AddContent(db, courseId, secId, body, today).value;
      ContentsOf(r.db, courseId, secId) == ContentsOf(db, courseId, secId) + 1
      && ContentId(ContentsOf(r.db, courseId, secId) + 1) != r.id
  {
    var r := AddContent(db, courseId, secId, body, today).value;
    var c := r.db.contents[|db.contents|];
    assert r.db.contents == db.contents + [c];
    CountAppend(db.contents, [c], (c: Content) => c.courseId == courseId && c.secId == secId);
    var n := ContentsOf(db, courseId, secId);
    SequentialIdRoundTrip("CT", n + 1, 6);
    SequentialIdRoundTrip("CT", n + 2, 6);
  }

  /** Adding a section changes only the section table and the course's `last_update_date`. */
  lemma AddSectionFrame(db: Db, courseId: string, body: Body, today: Date)
    requires AddSection(db, courseId, body, today).Ok?
    ensures var db' := AddSection(db, courseId, body, today).value.db;
      db'.(sections := db.sections, courses := db.courses) == db
      && db'.courses == db.courses[courseId := db.courses[courseId].(lastUpdate := today)]
  {
    var order := SqlInt(body["order_number"]).value;
    var time := PyInt(body["allocated_time"]).n;
    var s := Section(courseId, SectionId(SectionsOf(db, courseId) + 1), TextColumn(body["title"]).value, TextColumn(body["description"]).value, order, time);
    assert AddSection(db, courseId, body, today).value.db == Touch(db.(sections := db.sections + [s]), courseId, today);
  }

  /** Adding a content item changes only the content table and the course's
      `last_update_date`. */
  lemma AddContentFrame(db: Db, courseId: string, secId: string, body: Body, today: Date)
    requires AddContent(db, courseId, secId, body, today).Ok?
    ensures var db' := AddContent(db, courseId, secId, body, today).value.db;
      db'.(contents := db.contents, courses := db.courses) == db
      && (courseId in db.courses ==> db'.courses == db.courses[courseId := db.courses[courseId].(lastUpdate := today)])
      && (courseId !in db.courses ==> db'.courses == db.courses)
  {
    var time := PyInt(body["allocated_time"]).n;
    var c := Content(courseId, secId, ContentId(ContentsOf(db, courseId, secId) + 1), TextColumn(body["title"]).value, time, body["content_type"].s);
    assert AddContent(db, courseId, secId, body, today).value.db == Touch(db.(contents := db.contents + [c]), courseId, today);
  }
}
