/** Comments on course content (`comment.py`): who may post one, and the newest-first listing and
    the count of a content item's comments. */
module Comments {
  import opened Wrappers
  import opened Json
  import opened Db
  import opened Sorting

  /** The commenting rule: admins always, instructors on courses they created, students on
      courses they are enrolled in; any other role never. */
  predicate MayComment(db: Db, courseId: string, userId: string)
    requires userId in db.users
  {
    var role := db.users[userId].role;
    role == "admin"
    || (role == "instructor" && courseId in db.courses && db.courses[courseId].creatorId == userId)
    || (role == "student" && (courseId, userId) in db.enrolls)
  }

  /** The `if role == "admin" … elif … else` chain of the handler. */
  function Authorised(db: Db, courseId: string, userId: string, role: string): bool {
    if role == "admin" then true
    else if role == "instructor" then courseId in db.courses && db.courses[courseId].creatorId == userId
    else if role == "student" then (courseId, userId) in db.enrolls
    else false
  }

  /** `POST /api/comment/<course_id>/<sec_id>/<content_id>/<user_id>`: the new state on success
      (201). */
  function AddComment(db: Db, courseId: string, secId: string, contentId: string, userId: string, body: Body, now: int): (r: Result<Db>)
    ensures r.Ok? <==> "text" in body && AcceptedCourse(db, courseId).Ok? && userId in db.users && MayComment(db, courseId, userId)
                       && TextColumn(body["text"]).Some?
    ensures "text" !in body ==> r == Err(BadRequest)
    ensures "text" in body && AcceptedCourse(db, courseId).Err? ==> r == Err(AcceptedCourse(db, courseId).status)
    ensures "text" in body && AcceptedCourse(db, courseId).Ok? && userId !in db.users ==> r == Err(NotFound)
    ensures "text" in body && AcceptedCourse(db, courseId).Ok? && userId in db.users && !MayComment(db, courseId, userId) ==> r == Err(Forbidden)
    ensures ("text" in body && AcceptedCourse(db, courseId).Ok? && userId in db.users && MayComment(db, courseId, userId)
             && TextColumn(body["text"]).None?) ==> r == Err(ServerError)
    ensures r.Ok? ==> r.value.comments == db.comments + [Comment(courseId, secId, contentId, userId, TextColumn(body["text"]).value, now)]
    ensures r.Ok? ==> r.value.(comments := db.comments) == db
  {
    if "text" !in body then Err(BadRequest)
    else match AcceptedCourse(db, courseId)
      case Err(s) => Err(s)
      case Ok(_) =>
        if userId !in db.users then Err(NotFound)
        else if !Authorised(db, courseId, userId, db.users[userId].role) then Err(Forbidden)
        else match TextColumn(body["text"])
          case None => Err(ServerError)
          case Some(text) => Ok(db.(comments := db.comments + [Comment(courseId, secId, contentId, userId, text, now)]))
  }

  /** The handler's chain decides exactly the commenting rule. */
  lemma AuthorisedIsRule(db: Db, courseId: string, userId: string)
    requires userId in db.users
    ensures Authorised(db, courseId, userId, db.users[userId].role) <==> MayComment(db, courseId, userId)
  {
  }

  /** A row of the listing: the commenter's name, the text and the time. */
  datatype CommentRow = CommentRow(firstName: string, lastName: string, text: SqlText, timestamp: int)

  predicate OnContent(c: Comment, courseId: string, secId: string, contentId: string) {
    c.courseId == courseId && c.secId == secId && c.contentId == contentId
  }

  /** The comments on one content item joined with their authors; a comment whose author row is
      missing drops out of the inner join. */
  function JoinedRows(db: Db, cs: seq<Comment>, courseId: string, secId: string, contentId: string): (r: seq<CommentRow>)
    ensures |r| <= Count(cs, (c: Comment) => OnContent(c, courseId, secId, contentId))
    ensures (forall i :: 0 <= i < |cs| ==> cs[i].userId in db.users) ==>
      |r| == Count(cs, (c: Comment) => OnContent(c, courseId, secId, contentId))
  {
    if |cs| == 0 then []
    else
      var rest := JoinedRows(db, cs[1..], courseId, secId, contentId);
      var c := cs[0];
      if OnContent(c, courseId, secId, contentId) && c.userId in db.users then
        [CommentRow(db.users[c.userId].firstName, db.users[c.userId].lastName, c.text, c.timestamp)] + rest
      else rest
  }

  predicate NewerFirst(a: CommentRow, b: CommentRow) { a.timestamp >= b.timestamp }

  /** The existence checks of the listing and the count: accepted course, then section, then
      content. */
  function ContentGate(db: Db, courseId: string, secId: string, contentId: string): (r: Result<()>)
    ensures r.Ok? <==> AcceptedCourse(db, courseId).Ok? && HasSection(db, courseId, secId) && HasContent(db, courseId, secId, contentId)
    ensures AcceptedCourse(db, courseId).Err? ==> r == Err(AcceptedCourse(db, courseId).status)
    ensures AcceptedCourse(db, courseId).Ok? && r.Err? ==> r.status == NotFound
  {
    match AcceptedCourse(db, courseId)
    case Err(s) => Err(s)
    case Ok(_) =>
      if !HasSection(db, courseId, secId) then Err(NotFound)
      else if !HasContent(db, courseId, secId, contentId) then Err(NotFound)
      else Ok(())
  }

  /** `GET /api/comment/<course_id>/<sec_id>/<content_id>`: the content item's comments, newest
      first. */
  function ListComments(db: Db, courseId: string, secId: string, contentId: string): (r: Result<seq<CommentRow>>)
    ensures r.Ok? <==> ContentGate(db, courseId, secId, contentId).Ok?
    ensures r.Err? ==> r.status == ContentGate(db, courseId, secId, contentId).status
    ensures r.Ok? ==> SortedBy(r.value, NewerFirst)
    ensures r.Ok? ==> multiset(r.value) == multiset(JoinedRows(db, db.comments, courseId, secId, contentId))
  {
    match ContentGate(db, courseId, secId, contentId)
    case Err(s) => Err(s)
    case Ok(_) => Ok(SortBy(JoinedRows(db, db.comments, courseId, secId, contentId), NewerFirst))
  }

  /** `GET /api/comment/<course_id>/<sec_id>/<content_id>/count`. */
  function CommentCount(db: Db, courseId: string, secId: string, contentId: string): (r: Result<nat>)
    ensures r.Ok? <==> ContentGate(db, courseId, secId, contentId).Ok?
    ensures r.Err? ==> r.status == ContentGate(db, courseId, secId, contentId).status
    ensures r.Ok? ==> r.value <= |db.comments|
  {
    match ContentGate(db, courseId, secId, contentId)
    case Err(s) => Err(s)
    case Ok(_) => Ok(Count(db.comments, (c: Comment) => OnContent(c, courseId, secId, contentId)))
  }

  /** The count counts every stored comment while the listing drops comments whose author row is
      gone, so they agree exactly when every commenter still exists. */
  lemma CountMatchesListing(db: Db, courseId: string, secId: string, contentId: string)
    requires ListComments(db, courseId, secId, contentId).Ok?
    ensures |ListComments(db, courseId, secId, contentId).value| <= CommentCount(db, courseId, secId, contentId).value
    ensures (forall i :: 0 <= i < |db.comments| ==> db.comments[i].userId in db.users) ==>
      |ListComments(db, courseId, secId, contentId).value| == CommentCount(db, courseId, secId, contentId).value
  {
  }

  lemma {:induction false} JoinedRowsAppend(db: Db, cs: seq<Comment>, c: Comment, courseId: string, secId: string, contentId: string)
    ensures JoinedRows(db, cs + [c], courseId, secId, contentId)
      == JoinedRows(db, cs, courseId, secId, contentId) + JoinedRows(db, [c], courseId, secId, contentId)
  {
    if |cs| == 0 {
      assert cs + [c] == [c];
    } else {
      assert (cs + [c])[1..] == cs[1..] + [c];
      JoinedRowsAppend(db, cs[1..], c, courseId, secId, contentId);
    }
  }

  /** A comment that was accepted shows up in its content item's listing, and the count grows by
      exactly one. */
  lemma AddedCommentListed(db: Db, courseId: string, secId: string, contentId: string, userId: string, body: Body, now: int)
    requires AddComment(db, courseId, secId, contentId, userId, body, now).Ok?
    requires HasSection(db, courseId, secId) && HasContent(db, courseId, secId, contentId)
    ensures var db' := AddComment(db, courseId, secId, contentId, userId, body, now).value;
      ListComments(db', courseId, secId, contentId).Ok?
      && CommentRow(db.users[userId].firstName, db.users[userId].lastName, TextColumn(body["text"]).value, now)
         in ListComments(db', courseId, secId, contentId).value
      && CommentCount(db', courseId, secId, contentId).value == CommentCount(db, courseId, secId, contentId).value + 1
  {
    var db' := AddComment(db, courseId, secId, contentId, userId, body, now).value;
    var c := Comment(courseId, secId, contentId, userId, TextColumn(body["text"]).value, now);
    var row := CommentRow(db.users[userId].firstName, db.users[userId].lastName, TextColumn(body["text"]).value, now);
    assert db'.comments == db.comments + [c];
    assert db'.users == db.users && db'.courses == db.courses && db'.sections == db.sections && db'.contents == db.contents;
    JoinedRowsAppend(db', db.comments, c, courseId, secId, contentId);
    assert JoinedRows(db', [c], courseId, secId, contentId) == [row];
    var all := JoinedRows(db', db'.comments, courseId, secId, contentId);
    assert row in multiset(all);
    assert row in multiset(ListComments(db', courseId, secId, contentId).value);
    CountAppend(db.comments, [c], (x: Comment) => OnContent(x, courseId, secId, contentId));
  }
}
