/** Financial aid (`financial_aid.py`): a student applies once per course, and instructors record
    one decision each per application. */
module FinancialAid {
  import opened Wrappers
  import opened Json
  import opened Db

  /** Why an application is refused; the reasons share status codes, so they are kept apart to
      state the order of the checks. */
  datatype AidRefusal = MissingField | CourseMissing | StudentMissing | AlreadyApplied | AlreadyEnrolled | BadIncome | BadStatement

  function RefusalStatus(e: AidRefusal): int {
    match e
    case MissingField => BadRequest
    case CourseMissing => NotFound
    case StudentMissing => NotFound
    case AlreadyApplied => Conflict
    case AlreadyEnrolled => Conflict
    case BadIncome => ServerError
    case BadStatement => ServerError
  }

  datatype AidOutcome = Applied(db: Db) | Refused(reason: AidRefusal)

  predicate HasApplication(db: Db, courseId: string, studentId: string) {
    exists i :: 0 <= i < |db.aidApplications| && db.aidApplications[i].courseId == courseId
      && db.aidApplications[i].studentId == studentId
  }

  /** `POST /api/financial_aid/<course_id>/<student_id>`: the new state on success (201). */
  function Apply(db: Db, courseId: string, studentId: string, body: Body): (r: AidOutcome)
    ensures !("income" in body && "statement" in body) ==> r == Refused(MissingField)
    ensures r.Applied? <==> ("income" in body && "statement" in body && courseId in db.courses
      && studentId in db.students && !HasApplication(db, courseId, studentId)
      && (courseId, studentId) !in db.enrolls && PyFloatOk(body["income"]) && TextColumn(body["statement"]).Some?)
    ensures ("income" in body && "statement" in body && courseId in db.courses
      && studentId in db.students && !HasApplication(db, courseId, studentId)
      && (courseId, studentId) !in db.enrolls && PyFloatOk(body["income"]) && TextColumn(body["statement"]).None?)
      ==> r == Refused(BadStatement)
    ensures r.Applied? ==> r.db.aidApplications == db.aidApplications + [AidApplication(courseId, studentId, body["income"], TextColumn(body["statement"]).value)]
    ensures r.Applied? ==> r.db.(aidApplications := db.aidApplications) == db
  {
    if !("income" in body && "statement" in body) then Refused(MissingField)
    else if courseId !in db.courses then Refused(CourseMissing)
    else if studentId !in db.students then Refused(StudentMissing)
    else if HasApplication(db, courseId, studentId) then Refused(AlreadyApplied)
    else if (courseId, studentId) in db.enrolls then Refused(AlreadyEnrolled)
    else if !PyFloatOk(body["income"]) then Refused(BadIncome)
    else match TextColumn(body["statement"])
      case None => Refused(BadStatement)
      case Some(statement) => Applied(db.(aidApplications := db.aidApplications + [AidApplication(courseId, studentId, body["income"], statement)]))
  }

  /** The duplicate check comes before the enrolment check: an enrolled student who has already
      applied is told so, not that they are enrolled. */
  lemma DuplicateBeforeEnrolled(db: Db, courseId: string, studentId: string, body: Body)
    requires "income" in body && "statement" in body && courseId in db.courses && studentId in db.students
    requires HasApplication(db, courseId, studentId) && (courseId, studentId) in db.enrolls
    ensures Apply(db, courseId, studentId, body) == Refused(AlreadyApplied)
  {
  }

  predicate UniqueApplications(db: Db) {
    forall i, j :: 0 <= i < j < |db.aidApplications| ==>
      (db.aidApplications[i].courseId, db.aidApplications[i].studentId) != (db.aidApplications[j].courseId, db.aidApplications[j].studentId)
  }

  /** Applying keeps at most one application per (course, student), and a second application is
      refused as a duplicate. */
  lemma ApplyKeepsUnique(db: Db, courseId: string, studentId: string, body: Body, body2: Body)
    requires UniqueApplications(db)
    requires Apply(db, courseId, studentId, body).Applied?
    requires "income" in body2 && "statement" in body2
    ensures UniqueApplications(Apply(db, courseId, studentId, body).db)
    ensures Apply(Apply(db, courseId, studentId, body).db, courseId, studentId, body2) == Refused(AlreadyApplied)
  {
    var db' := Apply(db, courseId, studentId, body).db;
    var n := |db.aidApplications|;
    forall i, j | 0 <= i < j < |db'.aidApplications|
      ensures (db'.aidApplications[i].courseId, db'.aidApplications[i].studentId) != (db'.aidApplications[j].courseId, db'.aidApplications[j].studentId)
    {
      assert db'.aidApplications[i] == db.aidApplications[i];
      if j < n {
        assert db'.aidApplications[j] == db.aidApplications[j];
      }
    }
    assert db'.aidApplications[n].courseId == courseId && db'.aidApplications[n].studentId == studentId;
    assert HasApplication(db', courseId, studentId);
  }

  // ------------------------------------------------------------------------------------------
  // Evaluation

  /** Index of the evaluation row for a (course, student, instructor), if any. */
  function EvaluationIndex(es: seq<AidEvaluation>, courseId: string, studentId: string, instructorId: string): (k: Option<nat>)
    ensures k.Some? ==> (k.value < |es| && es[k.value].courseId == courseId && es[k.value].studentId == studentId
      && es[k.value].instructorId == instructorId)
    ensures k.None? ==> forall i :: 0 <= i < |es| ==>
      !(es[i].courseId == courseId && es[i].studentId == studentId && es[i].instructorId == instructorId)
  {
    if |es| == 0 then None
    else if es[0].courseId == courseId && es[0].studentId == studentId && es[0].instructorId == instructorId then Some(0)
    else match EvaluationIndex(es[1..], courseId, studentId, instructorId)
      case None => None
      case Some(k) => Some(k + 1)
  }

  /** Two evaluation rows for the same (course, student, instructor). */
  predicate SameKey(a: AidEvaluation, b: AidEvaluation) {
    a.courseId == b.courseId && a.studentId == b.studentId && a.instructorId == b.instructorId
  }

  /** `INSERT … ON CONFLICT (course_id, student_id, instructor_id) DO UPDATE SET is_accepted`. */
  function UpsertEvaluation(es: seq<AidEvaluation>, e: AidEvaluation): (r: seq<AidEvaluation>)
    ensures EvaluationIndex(es, e.courseId, e.studentId, e.instructorId).Some? ==> |r| == |es|
    ensures EvaluationIndex(es, e.courseId, e.studentId, e.instructorId).None? ==> r == es + [e]
    ensures e in r
    ensures forall i :: 0 <= i < |es| && !SameKey(es[i], e) ==> i < |r| && r[i] == es[i]
  {
    match EvaluationIndex(es, e.courseId, e.studentId, e.instructorId)
    case Some(k) =>
      assert forall i :: 0 <= i < |es| && i != k ==> es[k := e][i] == es[i];
      assert es[k := e][k] == e;
      es[k := e]
    case None => es + [e]
  }

  /** `POST /api/financial_aid/evaluate/<course_id>/<student_id>/<instructor_id>`: the new state
      on success (201). */
  function Evaluate(db: Db, courseId: string, studentId: string, instructorId: string, body: Body): (r: Result<Db>)
    ensures r.Ok? <==> ("is_accepted" in body && body["is_accepted"].JBool? && courseId in db.courses
      && studentId in db.students && instructorId in db.instructors && HasApplication(db, courseId, studentId))
    ensures !("is_accepted" in body && body["is_accepted"].JBool?) ==> r == Err(BadRequest)
    ensures r.Err? ==> r.status in {BadRequest, NotFound}
    ensures r.Ok? ==>
      r.value.aidEvaluations == UpsertEvaluation(db.aidEvaluations, AidEvaluation(courseId, studentId, instructorId, body["is_accepted"].b))
    ensures r.Ok? ==> r.value.(aidEvaluations := db.aidEvaluations) == db
  {
    if "is_accepted" !in body then Err(BadRequest)
    else if !body["is_accepted"].JBool? then Err(BadRequest)
    else if courseId !in db.courses then Err(NotFound)
    else if studentId !in db.students then Err(NotFound)
    else if instructorId !in db.instructors then Err(NotFound)
    else if !HasApplication(db, courseId, studentId) then Err(NotFound)
    else
      var e := AidEvaluation(courseId, studentId, instructorId, body["is_accepted"].b);
      Ok(db.(aidEvaluations := UpsertEvaluation(db.aidEvaluations, e)))
  }

  predicate UniqueEvaluations(es: seq<AidEvaluation>) {
    forall i, j :: 0 <= i < j < |es| ==>
      (es[i].courseId, es[i].studentId, es[i].instructorId) != (es[j].courseId, es[j].studentId, es[j].instructorId)
  }

  /** The upsert keeps one row per (course, student, instructor), and that row holds the latest
      decision. */
  lemma UpsertEvaluationUnique(es: seq<AidEvaluation>, e: AidEvaluation)
    requires UniqueEvaluations(es)
    ensures UniqueEvaluations(UpsertEvaluation(es, e))
    ensures var r := UpsertEvaluation(es, e);
      forall i :: 0 <= i < |r| && SameKey(r[i], e) ==> r[i] == e
  {
    var r := UpsertEvaluation(es, e);
    var k := EvaluationIndex(es, e.courseId, e.studentId, e.instructorId);
    if k.Some? {
      assert forall i :: 0 <= i < |r| && i != k.value ==> r[i] == es[i];
    }
  }

  /** Evaluating the same application twice leaves as many rows as evaluating it once, holding
      the second decision. */
  lemma ReevaluationOverwrites(db: Db, courseId: string, studentId: string, instructorId: string, body: Body, body2: Body)
    requires UniqueEvaluations(db.aidEvaluations)
    requires Evaluate(db, courseId, studentId, instructorId, body).Ok?
    requires "is_accepted" in body2 && body2["is_accepted"].JBool?
    ensures var db1 := Evaluate(db, courseId, studentId, instructorId, body).value;
      var r2 := Evaluate(db1, courseId, studentId, instructorId, body2);
      r2.Ok? && |r2.value.aidEvaluations| == |db1.aidEvaluations|
      && AidEvaluation(courseId, studentId, instructorId, body2["is_accepted"].b) in r2.value.aidEvaluations
      && AidEvaluation(courseId, studentId, instructorId, !body2["is_accepted"].b) !in r2.value.aidEvaluations
  {
    var db1 := Evaluate(db, courseId, studentId, instructorId, body).value;
    var e1 := AidEvaluation(courseId, studentId, instructorId, body["is_accepted"].b);
    var e2 := AidEvaluation(courseId, studentId, instructorId, body2["is_accepted"].b);
    UpsertEvaluationUnique(db.aidEvaluations, e1);
    assert e1 in db1.aidEvaluations;
    assert EvaluationIndex(db1.aidEvaluations, courseId, studentId, instructorId).Some?;
    UpsertEvaluationUnique(db1.aidEvaluations, e2);
  }
}
