/** The admin's course decision (`evaluate_course`) and the status lifecycle it belongs to: a
    course is created as "draft", submitted as "pending", then accepted or rejected once. */
module CourseAdmin {
  import opened Wrappers
  import opened Json
  import opened Db

  /** The status changes the platform makes: draft to pending on submission, pending to accepted
      or rejected on an admin's decision. */
  predicate LifecycleStep(from: string, to: string) {
    (from == "draft" && to == "pending") || (from == "pending" && (to == "accepted" || to == "rejected"))
  }

  /** A decided course never changes status again. */
  predicate Decided(status: string) {
    status == "accepted" || status == "rejected"
  }

  /** The body check that happens before the database is consulted: `is_accepted` present and a
      JSON boolean. */
  function AcceptedFlag(body: Body): (r: Result<bool>)
    ensures r.Ok? <==> "is_accepted" in body && body["is_accepted"].JBool?
    ensures r.Ok? ==> body["is_accepted"] == JBool(r.value)
    ensures r.Err? ==> r.status == BadRequest
  {
    if "is_accepted" !in body then Err(BadRequest)
    else if !body["is_accepted"].JBool? then Err(BadRequest)
    else Ok(body["is_accepted"].b)
  }

  /** `PUT /api/admin/evaluate_course/<course_id>/<admin_id>`: the new state on success (200). */
  function EvaluateCourse(db: Db, courseId: string, adminId: string, body: Body): (r: Result<Db>)
    ensures r.Ok? <==> AcceptedFlag(body).Ok? && CourseStatus(db, courseId) == Some("pending")
    ensures AcceptedFlag(body).Err? ==> r == Err(BadRequest)
    ensures AcceptedFlag(body).Ok? && courseId !in db.courses ==> r == Err(NotFound)
    ensures courseId in db.courses && db.courses[courseId].status != "pending" ==> r == Err(BadRequest)
    ensures r.Ok? ==> courseId in r.value.courses && LifecycleStep(db.courses[courseId].status, r.value.courses[courseId].status)
    ensures r.Ok? ==> Decided(r.value.courses[courseId].status)
    ensures r.Ok? ==> r.value.courses[courseId].status == (if body["is_accepted"].b then "accepted" else "rejected")
  {
    match AcceptedFlag(body)
    case Err(s) => Err(s)
    case Ok(accepted) =>
      if courseId !in db.courses then Err(NotFound)
      else
        var c := db.courses[courseId];
        if c.status != "pending" then Err(BadRequest)
        else
          var newStatus := if accepted then "accepted" else "rejected";
          Ok(db.(courses := db.courses[courseId := c.(status := newStatus, approverId := Some(adminId))]))
  }

  /** A decision rewrites only the status and approver of that one course; every other course and
      every other table is left alone. */
  lemma EvaluateCourseFrame(db: Db, courseId: string, adminId: string, body: Body)
    requires EvaluateCourse(db, courseId, adminId, body).Ok?
    ensures var db' := EvaluateCourse(db, courseId, adminId, body).value;
      db'.courses.Keys == db.courses.Keys
      && db'.courses[courseId].approverId == Some(adminId)
      && db'.courses[courseId].(status := db.courses[courseId].status, approverId := db.courses[courseId].approverId) == db.courses[courseId]
      && (forall id :: id in db.courses && id != courseId ==> db'.courses[id] == db.courses[id])
      && db'.(courses := db.courses) == db
  {
  }

  /** A malformed body is refused with 400 whatever the database holds. */
  lemma EvaluateCourseBodyFirst(db1: Db, db2: Db, courseId: string, adminId: string, body: Body)
    requires AcceptedFlag(body).Err?
    ensures EvaluateCourse(db1, courseId, adminId, body) == EvaluateCourse(db2, courseId, adminId, body) == Err(BadRequest)
  {
  }

  /** A course is decided at most once: evaluating it again, with any body, is refused. */
  lemma EvaluateCourseOnce(db: Db, courseId: string, adminId: string, body: Body, admin2: string, body2: Body)
    requires EvaluateCourse(db, courseId, adminId, body).Ok?
    ensures EvaluateCourse(EvaluateCourse(db, courseId, adminId, body).value, courseId, admin2, body2) == Err(BadRequest)
  {
  }

  /** Every status reachable from "draft" by lifecycle steps, and the number of steps taken. */
  lemma LifecycleFromDraft(a: string, b: string, c: string)
    requires a == "draft" && LifecycleStep(a, b) && LifecycleStep(b, c)
    ensures b == "pending" && Decided(c)
    ensures forall d :: !LifecycleStep(c, d)
  {
  }
}
