/** Course feedback (`feedback.py`): who may rate a course, at most one rating per student and
    course, and the course's rating summary. */
module CourseFeedback {
  import opened Wrappers
  import opened Calendar
  import opened Json
  import opened Db

  predicate HasFeedback(db: Db, courseId: string, studentId: string) {
    exists i :: 0 <= i < |db.feedback| && db.feedback[i].courseId == courseId && db.feedback[i].studentId == studentId
  }

  /** The rating check before any database access: `int(rating)` in 0..5. A `ValueError` is caught
      (400); a `TypeError` (for `null`, a list or an object) is not, and becomes a 500. */
  function CheckRating(body: Body): (r: Result<int>)
    requires "rating" in body
    ensures r.Ok? <==> PyInt(body["rating"]).Parsed? && 0 <= PyInt(body["rating"]).n <= 5
    ensures r.Ok? ==> r.value == PyInt(body["rating"]).n
    ensures r.Err? ==> r.status == (if PyInt(body["rating"]) == TypeError then ServerError else BadRequest)
  {
    match PyInt(body["rating"])
    case Parsed(n) => if n < 0 || n > 5 then Err(BadRequest) else Ok(n)
    case ValueError => Err(BadRequest)
    case TypeError => Err(ServerError)
  }

  /** `POST /api/feedback/<course_id>/<student_id>`: the new state on success (201). */
  function GiveFeedback(db: Db, courseId: string, studentId: string, body: Body, today: Date): (r: Result<Db>)
    ensures !("rating" in body && "comment" in body) ==> r == Err(BadRequest)
    ensures r.Ok? <==> ("rating" in body && "comment" in body && CheckRating(body).Ok?
      && AcceptedCourse(db, courseId).Ok? && studentId in db.students
      && (courseId, studentId) in db.enrolls && db.enrolls[(courseId, studentId)] >= 100
      && !HasFeedback(db, courseId, studentId) && TextColumn(body["comment"]).Some?)
    ensures ("rating" in body && "comment" in body && CheckRating(body).Ok?
      && AcceptedCourse(db, courseId).Ok? && studentId in db.students
      && (courseId, studentId) in db.enrolls && db.enrolls[(courseId, studentId)] >= 100
      && !HasFeedback(db, courseId, studentId) && TextColumn(body["comment"]).None?) ==> r == Err(ServerError)
    ensures ("rating" in body && "comment" in body && CheckRating(body).Ok?
      && AcceptedCourse(db, courseId).Ok? && studentId in db.students
      && (courseId, studentId) in db.enrolls && db.enrolls[(courseId, studentId)] >= 100
      && HasFeedback(db, courseId, studentId)) ==> r == Err(Conflict)
    ensures r.Ok? ==> r.value.feedback == db.feedback + [Feedback(courseId, studentId, CheckRating(body).value, TextColumn(body["comment"]).value, today)]
    ensures r.Ok? ==> r.value.(feedback := db.feedback) == db
  {
    if !("rating" in body && "comment" in body) then Err(BadRequest)
    else match CheckRating(body)
      case Err(s) => Err(s)
      case Ok(rating) =>
        match AcceptedCourse(db, courseId)
        case Err(s) => Err(s)
        case Ok(_) =>
          if studentId !in db.students then Err(NotFound)
          else if (courseId, studentId) !in db.enrolls then Err(Forbidden)
          else if db.enrolls[(courseId, studentId)] < 100 then Err(Forbidden)
          else if HasFeedback(db, courseId, studentId) then Err(Conflict)
          else match TextColumn(body["comment"])
            case None => Err(ServerError)
            case Some(comment) => Ok(db.(feedback := db.feedback + [Feedback(courseId, studentId, rating, comment, today)]))
  }

  /** An enrolled student of an accepted course who has not finished it is refused with 403. */
  lemma UnfinishedRefused(db: Db, courseId: string, studentId: string, body: Body, today: Date)
    requires "rating" in body && "comment" in body && CheckRating(body).Ok?
    requires AcceptedCourse(db, courseId).Ok? && studentId in db.students
    requires (courseId, studentId) in db.enrolls && db.enrolls[(courseId, studentId)] < 100
    ensures GiveFeedback(db, courseId, studentId, body, today) == Err(Forbidden)
  {
  }

  /** At most one feedback row per (course, student). */
  predicate UniqueFeedback(db: Db) {
    forall i, j :: 0 <= i < j < |db.feedback| ==>
      (db.feedback[i].courseId, db.feedback[i].studentId) != (db.feedback[j].courseId, db.feedback[j].studentId)
  }

  /** Every stored rating is in 0..5. */
  predicate RatingsInRange(db: Db) {
    forall i :: 0 <= i < |db.feedback| ==> 0 <= db.feedback[i].rating <= 5
  }

  lemma GiveFeedbackKeepsInvariants(db: Db, courseId: string, studentId: string, body: Body, today: Date)
    requires UniqueFeedback(db) && RatingsInRange(db)
    requires GiveFeedback(db, courseId, studentId, body, today).Ok?
    ensures UniqueFeedback(GiveFeedback(db, courseId, studentId, body, today).value)
    ensures RatingsInRange(GiveFeedback(db, courseId, studentId, body, today).value)
  {
    var db' := GiveFeedback(db, courseId, studentId, body, today).value;
    var n := |db.feedback|;
    forall i, j | 0 <= i < j < |db'.feedback|
      ensures (db'.feedback[i].courseId, db'.feedback[i].studentId) != (db'.feedback[j].courseId, db'.feedback[j].studentId)
    {
      assert db'.feedback[i] == db.feedback[i];
      if j == n {
        assert !HasFeedback(db, courseId, studentId);
      } else {
        assert db'.feedback[j] == db.feedback[j];
      }
    }
  }

  /** A second feedback for the same course and student is refused with 409. */
  lemma SecondFeedbackConflicts(db: Db, courseId: string, studentId: string, body: Body, today: Date, body2: Body, today2: Date)
    requires GiveFeedback(db, courseId, studentId, body, today).Ok?
    requires "rating" in body2 && "comment" in body2 && CheckRating(body2).Ok?
    ensures GiveFeedback(GiveFeedback(db, courseId, studentId, body, today).value, courseId, studentId, body2, today2) == Err(Conflict)
  {
    var db' := GiveFeedback(db, courseId, studentId, body, today).value;
    assert db'.feedback[|db.feedback|].courseId == courseId && db'.feedback[|db.feedback|].studentId == studentId;
    assert HasFeedback(db', courseId, studentId);
  }

  // ------------------------------------------------------------------------------------------
  // Summary

  /** The average rating rounded to two decimals, in hundredths, and the number of reviews. */
  datatype Summary = Summary(avgHundredths: int, totalReviews: nat)

  /** PostgreSQL `ROUND(sum / n, 2)` on numerics (halves away from zero), in hundredths: the
      nearest hundredth, and at an exact half the one further from zero. */
  function RoundHundredths(sum: int, n: nat): (a: int)
    requires n > 0
    ensures -(n as int) <= 2 * (a * n - 100 * sum) <= n
    ensures sum >= 0 ==> -(n as int) < 2 * (a * n - 100 * sum)
    ensures sum < 0 ==> 2 * (a * n - 100 * sum) < n as int
  {
    if sum >= 0 then (200 * sum + n) / (2 * n)
    else -((-200 * sum + n) / (2 * n))
  }

  /** The rounding contract pins the result down: any number of hundredths within half a
      hundredth of the mean, with ties away from zero, is `RoundHundredths`'s. */
  lemma RoundHundredthsUnique(sum: int, n: nat, b: int)
    requires n > 0
    requires -(n as int) <= 2 * (b * n - 100 * sum) <= n
    requires sum >= 0 ==> -(n as int) < 2 * (b * n - 100 * sum)
    requires sum < 0 ==> 2 * (b * n - 100 * sum) < n as int
    ensures b == RoundHundredths(sum, n)
  {
    var a := RoundHundredths(sum, n);
    var k := 2 * n;
    assert 2 * (a * n - 100 * sum) - 2 * (b * n - 100 * sum) == k * (a - b) by {
      SpreadProduct(a, b, n);
    }
    if a > b {
      ProductAtLeast(k, a - b);
    } else if a < b {
      ProductAtLeast(k, b - a);
    }
  }

  lemma SpreadProduct(a: int, b: int, n: int)
    ensures 2 * (a * n) - 2 * (b * n) == (2 * n) * (a - b)
  {
  }

  lemma ProductAtLeast(k: int, d: int)
    requires k > 0 && d >= 1
    ensures k * d >= k
  {
  }

  /** `ROUND(0.125, 2)` is 0.13: one rating of 1 among eight rounds the tie up. */
  lemma EighthRoundsUp()
    ensures RoundHundredths(1, 8) == 13
  {
  }

  function RatingSum(fs: seq<Feedback>, courseId: string): int {
    if |fs| == 0 then 0
    else (if fs[0].courseId == courseId then fs[0].rating else 0) + RatingSum(fs[1..], courseId)
  }

  function OfCourse(courseId: string): Feedback -> bool { (f: Feedback) => f.courseId == courseId }

  function ReviewCount(fs: seq<Feedback>, courseId: string): nat {
    Count(fs, OfCourse(courseId))
  }

  /** The sum of the ratings of a list of feedback rows. */
  function SumOfRatings(fs: seq<Feedback>): int {
    if |fs| == 0 then 0 else fs[0].rating + SumOfRatings(fs[1..])
  }

  /** `SUM(rating) … WHERE course_id = %s`: the course's rating sum is the sum over the course's
      rows, and the review count is their number. */
  lemma {:induction false} RatingSumIsCourseSum(fs: seq<Feedback>, courseId: string)
    ensures RatingSum(fs, courseId) == SumOfRatings(Filter(fs, OfCourse(courseId)))
    ensures ReviewCount(fs, courseId) == |Filter(fs, OfCourse(courseId))|
  {
    if |fs| > 0 {
      RatingSumIsCourseSum(fs[1..], courseId);
      var rest := Filter(fs[1..], OfCourse(courseId));
      if fs[0].courseId == courseId {
        assert Filter(fs, OfCourse(courseId)) == [fs[0]] + rest;
        assert ([fs[0]] + rest)[1..] == rest;
      }
    }
  }

  lemma {:induction false} RatingSumAppend(fs: seq<Feedback>, f: Feedback, courseId: string)
    ensures RatingSum(fs + [f], courseId) == RatingSum(fs, courseId) + (if f.courseId == courseId then f.rating else 0)
  {
    if |fs| == 0 {
      assert fs + [f] == [f];
    } else {
      assert (fs + [f])[1..] == fs[1..] + [f];
      RatingSumAppend(fs[1..], f, courseId);
    }
  }

  /** New feedback adds one review and its rating to the course's summary sums. */
  lemma GiveFeedbackUpdatesSummary(db: Db, courseId: string, studentId: string, body: Body, today: Date)
    requires GiveFeedback(db, courseId, studentId, body, today).Ok?
    ensures var db' := GiveFeedback(db, courseId, studentId, body, today).value;
      ReviewCount(db'.feedback, courseId) == ReviewCount(db.feedback, courseId) + 1
      && RatingSum(db'.feedback, courseId) == RatingSum(db.feedback, courseId) + CheckRating(body).value
  {
    var db' := GiveFeedback(db, courseId, studentId, body, today).value;
    var f := Feedback(courseId, studentId, CheckRating(body).value, TextColumn(body["comment"]).value, today);
    RatingSumAppend(db.feedback, f, courseId);
    CountAppend(db.feedback, [f], OfCourse(courseId));
  }

  /** `GET /api/feedback/<course_id>/summary`: a course without feedback reports 0.0 and 0. */
  function FeedbackSummary(db: Db, courseId: string): (r: Result<Summary>)
    ensures r.Err? <==> AcceptedCourse(db, courseId).Err?
    ensures r.Err? ==> r.status == AcceptedCourse(db, courseId).status
    ensures r.Ok? ==> r.value.totalReviews == ReviewCount(db.feedback, courseId)
    ensures r.Ok? && r.value.totalReviews == 0 ==> r.value.avgHundredths == 0
    ensures r.Ok? && r.value.totalReviews > 0 ==> var n := r.value.totalReviews as int;
      -n <= 2 * (r.value.avgHundredths * n - 100 * RatingSum(db.feedback, courseId)) <= n
    ensures r.Ok? && r.value.totalReviews > 0 && RatingSum(db.feedback, courseId) >= 0 ==> var n := r.value.totalReviews as int;
      -n < 2 * (r.value.avgHundredths * n - 100 * RatingSum(db.feedback, courseId))
    ensures r.Ok? && r.value.totalReviews > 0 && RatingSum(db.feedback, courseId) < 0 ==> var n := r.value.totalReviews as int;
      2 * (r.value.avgHundredths * n - 100 * RatingSum(db.feedback, courseId)) < n
  {
    match AcceptedCourse(db, courseId)
    case Err(s) => Err(s)
    case Ok(_) =>
      var n := ReviewCount(db.feedback, courseId);
      if n == 0 then Ok(Summary(0, 0))
      else Ok(Summary(RoundHundredths(RatingSum(db.feedback, courseId), n), n))
  }

  lemma {:induction false} RatingSumBounds(fs: seq<Feedback>, courseId: string)
    requires forall i :: 0 <= i < |fs| ==> 0 <= fs[i].rating <= 5
    ensures 0 <= RatingSum(fs, courseId) <= 5 * ReviewCount(fs, courseId)
  {
    if |fs| > 0 {
      RatingSumBounds(fs[1..], courseId);
    }
  }

  /** With every stored rating in 0..5 the reported average is between 0.00 and 5.00. */
  lemma SummaryInRange(db: Db, courseId: string)
    requires RatingsInRange(db)
    requires FeedbackSummary(db, courseId).Ok?
    ensures 0 <= FeedbackSummary(db, courseId).value.avgHundredths <= 500
  {
    RatingSumBounds(db.feedback, courseId);
    var n := ReviewCount(db.feedback, courseId);
    if n > 0 {
      RoundHundredthsInRange(RatingSum(db.feedback, courseId), n);
    }
  }

  /** An average of ratings in 0..5, rounded to hundredths, lies in 0..500. */
  lemma RoundHundredthsInRange(s: int, n: nat)
    requires n > 0 && 0 <= s <= 5 * n
    ensures 0 <= RoundHundredths(s, n) <= 500
  {
    assert 200 * s + n < 1002 * n;
    DivBound(200 * s + n, 2 * n, 500);
  }

  lemma DivBound(x: int, d: int, k: int)
    requires d > 0 && x >= 0 && x < (k + 1) * d
    ensures x / d <= k
  {
    var q := x / d;
    if q >= k + 1 {
      MulMonotone(k + 1, q, d);
      assert false;
    }
  }

  lemma MulMonotone(a: int, b: int, d: int)
    requires a <= b && d >= 0
    ensures a * d <= b * d
  {
    assert b * d - a * d == (b - a) * d;
  }
}
