/** The student's list of enrolled courses: the progress filters and the summary figures shown
    above the list. */
module MyLearningPage {
  import Db

  /** An enrolled course as the list receives it; `progressRate` is the percentage completed. */
  datatype EnrolledCourse = EnrolledCourse(courseId: string, title: string, progressRate: int)

  predicate InProgress(c: EnrolledCourse) { 0 < c.progressRate < 100 }
  predicate NotStarted(c: EnrolledCourse) { c.progressRate == 0 }
  predicate Completed(c: EnrolledCourse) { c.progressRate == 100 }

  /** `getFilteredCourses`: "inProgress", "notStarted" and "completed" keep the courses with
      that progress, in order; "all" and any other filter keep the whole list. */
  function FilteredCourses(courses: seq<EnrolledCourse>, filter: string): (r: seq<EnrolledCourse>)
    ensures Db.Sublist(r, courses)
    ensures filter == "inProgress" ==>
              (forall i :: 0 <= i < |r| ==> InProgress(r[i])) && forall c :: c in courses && InProgress(c) ==> c in r
    ensures filter == "notStarted" ==>
              (forall i :: 0 <= i < |r| ==> NotStarted(r[i])) && forall c :: c in courses && NotStarted(c) ==> c in r
    ensures filter == "completed" ==>
              (forall i :: 0 <= i < |r| ==> Completed(r[i])) && forall c :: c in courses && Completed(c) ==> c in r
    ensures filter != "inProgress" && filter != "notStarted" && filter != "completed" ==> r == courses
  {
    if filter == "inProgress" then
      Db.FilterSublist(courses, InProgress);
      Db.Filter(courses, InProgress)
    else if filter == "notStarted" then
      Db.FilterSublist(courses, NotStarted);
      Db.Filter(courses, NotStarted)
    else if filter == "completed" then
      Db.FilterSublist(courses, Completed);
      Db.Filter(courses, Completed)
    else
      Db.SublistRefl(courses);
      courses
  }

  predicate ProgressInRange(courses: seq<EnrolledCourse>) {
    forall i :: 0 <= i < |courses| ==> 0 <= courses[i].progressRate <= 100
  }

  /** With every progress between 0 and 100, the three filters split the list: every course is
      in exactly one of them, as often as in the list. */
  lemma FiltersPartition(courses: seq<EnrolledCourse>)
    requires ProgressInRange(courses)
    ensures multiset(FilteredCourses(courses, "inProgress")) + multiset(FilteredCourses(courses, "notStarted"))
            + multiset(FilteredCourses(courses, "completed")) == multiset(courses)
    ensures |FilteredCourses(courses, "inProgress")| + |FilteredCourses(courses, "notStarted")|
            + |FilteredCourses(courses, "completed")| == |courses|
  {
    var a := FilteredCourses(courses, "inProgress");
    var b := FilteredCourses(courses, "notStarted");
    var c := FilteredCourses(courses, "completed");
    Db.FilterMultiplicity(courses, InProgress);
    Db.FilterMultiplicity(courses, NotStarted);
    Db.FilterMultiplicity(courses, Completed);
    forall x
      ensures (multiset(a) + multiset(b) + multiset(c))[x] == multiset(courses)[x]
    {
      if x !in courses {
        assert multiset(courses)[x] == 0;
      }
    }
    assert multiset(a) + multiset(b) + multiset(c) == multiset(courses);
    assert |multiset(a) + multiset(b) + multiset(c)| == |multiset(courses)|;
  }

  /** `totalCompleted`: the number of courses at 100 percent. */
  function TotalCompleted(courses: seq<EnrolledCourse>): (n: nat)
    ensures n == |FilteredCourses(courses, "completed")|
    ensures n == Db.Count(courses, Completed)
  {
    |Db.Filter(courses, Completed)|
  }

  function SumProgress(courses: seq<EnrolledCourse>): int {
    if |courses| == 0 then 0 else courses[0].progressRate + SumProgress(courses[1..])
  }

  /** `averageCompletion`: the mean progress rounded to the nearest integer, halves upwards
      (`Math.round`), and 0 for an empty list. */
  function AverageCompletion(courses: seq<EnrolledCourse>): (r: int)
    ensures |courses| == 0 ==> r == 0
    ensures |courses| > 0 ==>
              2 * r * |courses| - |courses| <= 2 * SumProgress(courses) < 2 * r * |courses| + |courses|
  {
    if |courses| == 0 then 0
    else
      var n := |courses|;
      var s := SumProgress(courses);
      var r := (2 * s + n) / (2 * n);
      assert 2 * n * r <= 2 * s + n < 2 * n * r + 2 * n;
      r
  }

  /** The sum of progress rates between 0 and 100 lies between 0 and 100 per course. */
  lemma {:induction false} SumInRange(courses: seq<EnrolledCourse>)
    requires ProgressInRange(courses)
    ensures 0 <= SumProgress(courses) <= 100 * |courses|
  {
    if |courses| > 0 {
      SumInRange(courses[1..]);
    }
  }

  /** With every progress between 0 and 100, so is the average. */
  lemma AverageInRange(courses: seq<EnrolledCourse>)
    requires ProgressInRange(courses)
    ensures 0 <= AverageCompletion(courses) <= 100
  {
    SumInRange(courses);
  }

  /** A list whose courses are all completed averages exactly 100. */
  lemma AllCompletedAverage(courses: seq<EnrolledCourse>)
    requires |courses| > 0 && forall i :: 0 <= i < |courses| ==> Completed(courses[i])
    ensures AverageCompletion(courses) == 100
    ensures TotalCompleted(courses) == |courses|
  {
    AllCompletedSum(courses);
    var n := |courses|;
    assert 2 * SumProgress(courses) + n == 100 * (2 * n) + n;
    DivOfMultiplePlus(100, 2 * n, n);
    Db.FilterAll(courses, Completed);
  }

  lemma {:induction false} AllCompletedSum(courses: seq<EnrolledCourse>)
    requires forall i :: 0 <= i < |courses| ==> Completed(courses[i])
    ensures SumProgress(courses) == 100 * |courses|
  {
    if |courses| > 0 {
      AllCompletedSum(courses[1..]);
    }
  }

  lemma MulNonNegative(a: int, b: int)
    requires a >= 0 && b >= 0
    ensures a * b >= 0
  {
  }

  lemma DivOfMultiplePlus(q: int, d: int, k: int)
    requires 0 <= k < d
    ensures (q * d + k) / d == q
  {
    var r := (q * d + k) / d;
    var m := (q * d + k) % d;
    var t := r - q;
    assert d * t == k - m;
    assert d * t == d + d * (t - 1) && d * t == -d + d * (t + 1);
    var u := if t > 0 then t - 1 else if t < 0 then -(t + 1) else 0;
    MulNonNegative(d, u);
    assert t > 0 ==> d * (t - 1) == d * u;
    assert t < 0 ==> d * (t + 1) == -(d * u);
  }
}
