/** The relational state the route handlers read and write, one field per table. Tables whose
    primary key the handlers rely on are maps from the key; the others are sequences of rows in
    insertion order. Current dates and timestamps are parameters of the operations. */
module Db {
  import opened Wrappers
  import opened Calendar
  import opened Json

  datatype Course = Course(
    id: string, title: string, description: string, category: string, price: int,
    created: Date, lastUpdate: Date, status: string, enrollmentCount: int,
    qnaLink: string, difficulty: int, creatorId: string, approverId: Option<string>)

  /** A row of `"user"`; `role` is one of "admin", "instructor", "student" in practice, but the
      column is free text. */
  datatype User = User(id: string, role: string, firstName: string, lastName: string)

  datatype Section = Section(courseId: string, secId: string, title: SqlText, description: SqlText, orderNumber: int, allocatedTime: int)

  datatype Content = Content(courseId: string, secId: string, contentId: string, title: SqlText, allocatedTime: int, contentType: string)

  datatype Comment = Comment(courseId: string, secId: string, contentId: string, userId: string, text: SqlText, timestamp: int)

  datatype Feedback = Feedback(courseId: string, studentId: string, rating: int, comment: SqlText, date: Date)

  datatype AidApplication = AidApplication(courseId: string, studentId: string, income: Json, statement: SqlText)

  datatype AidEvaluation = AidEvaluation(courseId: string, studentId: string, instructorId: string, isAccepted: bool)

  datatype Notification = Notification(id: string, ntype: SqlText, entityType: SqlText, entityId: SqlText, message: SqlText, timestamp: int, status: string)

  /** A row of `receive`: user `userId` received notification `notificationId`. */
  datatype Receive = Receive(notificationId: string, userId: string, readAt: Option<int>)

  datatype Db = Db(
    courses: map<string, Course>,
    users: map<string, User>,
    students: set<string>,
    instructors: set<string>,
    enrolls: map<(string, string), int>,     // (course_id, student_id) -> progress_rate
    sections: seq<Section>,
    contents: seq<Content>,
    comments: seq<Comment>,
    feedback: seq<Feedback>,
    aidApplications: seq<AidApplication>,
    aidEvaluations: seq<AidEvaluation>,
    notifications: map<string, Notification>,
    receives: seq<Receive>)

  /** `SELECT status FROM course WHERE course_id = %s`. */
  function CourseStatus(db: Db, courseId: string): Option<string> {
    if courseId in db.courses then Some(db.courses[courseId].status) else None
  }

  /** The gate shared by the comment and feedback handlers: the course must exist (404) and be
      accepted (403). */
  function AcceptedCourse(db: Db, courseId: string): (r: Result<Course>)
    ensures r.Ok? <==> courseId in db.courses && db.courses[courseId].status == "accepted"
    ensures r.Ok? ==> r.value == db.courses[courseId]
    ensures r.Err? ==> r.status == (if courseId in db.courses then Forbidden else NotFound)
  {
    if courseId !in db.courses then Err(NotFound)
    else if db.courses[courseId].status != "accepted" then Err(Forbidden)
    else Ok(db.courses[courseId])
  }

  /** `SELECT 1 FROM section WHERE course_id = %s AND sec_id = %s`. */
  predicate HasSection(db: Db, courseId: string, secId: string) {
    exists i :: 0 <= i < |db.sections| && db.sections[i].courseId == courseId && db.sections[i].secId == secId
  }

  /** `SELECT 1 FROM content WHERE course_id = %s AND sec_id = %s AND content_id = %s`. */
  predicate HasContent(db: Db, courseId: string, secId: string, contentId: string) {
    exists i :: 0 <= i < |db.contents| && db.contents[i].courseId == courseId && db.contents[i].secId == secId
      && db.contents[i].contentId == contentId
  }

  /** Number of elements of `xs` satisfying `p`. */
  function Count<T>(xs: seq<T>, p: T -> bool): (n: nat)
    ensures n <= |xs|
  {
    if |xs| == 0 then 0 else (if p(xs[0]) then 1 else 0) + Count(xs[1..], p)
  }

  /** The elements of `xs` satisfying `p`, in order (`[x for x in xs if p(x)]`). */
  function Filter<T>(xs: seq<T>, p: T -> bool): (r: seq<T>)
    ensures |r| == Count(xs, p) && |r| <= |xs|
    ensures forall i :: 0 <= i < |r| ==> p(r[i]) && r[i] in xs
    ensures forall x :: x in xs && p(x) ==> x in r
  {
    if |xs| == 0 then []
    else
      var rest := Filter(xs[1..], p);
      assert forall x :: x in xs[1..] ==> x in xs;
      assert forall x :: x in xs ==> x == xs[0] || x in xs[1..];
      if p(xs[0]) then [xs[0]] + rest else rest
  }

  lemma CountAppend<T>(xs: seq<T>, ys: seq<T>, p: T -> bool)
    ensures Count(xs + ys, p) == Count(xs, p) + Count(ys, p)
  {
    if |xs| == 0 {
      assert xs + ys == ys;
    } else {
      assert (xs + ys)[1..] == xs[1..] + ys;
      CountAppend(xs[1..], ys, p);
    }
  }

  lemma CountCons<T>(x: T, xs: seq<T>, p: T -> bool)
    ensures Count([x] + xs, p) == (if p(x) then 1 else 0) + Count(xs, p)
  {
    assert ([x] + xs)[1..] == xs;
  }

  /** Counting from position `k` looks at `ys[k]`, then counts from `k + 1`. */
  lemma CountStep<T>(ys: seq<T>, k: nat, p: T -> bool)
    requires k < |ys|
    ensures Count(ys[k..], p) == (if p(ys[k]) then 1 else 0) + Count(ys[k + 1..], p)
  {
    assert ys[k..][1..] == ys[k + 1..];
  }

  lemma MultisetDropAt<T>(ys: seq<T>, k: nat)
    requires k < |ys|
    ensures multiset(ys[..k] + ys[k + 1..]) == multiset(ys) - multiset{ys[k]}
  {
    assert ys == ys[..k] + [ys[k]] + ys[k + 1..];
  }

  lemma CountDropAt<T>(ys: seq<T>, k: nat, p: T -> bool)
    requires k < |ys|
    ensures Count(ys, p) == (if p(ys[k]) then 1 else 0) + Count(ys[..k] + ys[k + 1..], p)
  {
    var a, b := ys[..k], ys[k + 1..];
    SplitAt(ys, k);
    CountCons(ys[k], b, p);
    CountAppend(a, [ys[k]] + b, p);
    CountAppend(a, b, p);
  }

  lemma SplitLast<T>(ys: seq<T>)
    requires |ys| > 0
    ensures ys == ys[..|ys| - 1] + [ys[|ys| - 1]]
  {
  }

  lemma SplitAt<T>(ys: seq<T>, k: nat)
    requires k < |ys|
    ensures ys == ys[..k] + ([ys[k]] + ys[k + 1..])
  {
  }

  /** Counting is insensitive to order: permutations have equal counts. */
  lemma {:induction false} CountPermutation<T>(xs: seq<T>, ys: seq<T>, p: T -> bool)
    requires multiset(xs) == multiset(ys)
    ensures Count(xs, p) == Count(ys, p)
    decreases |xs|
  {
    if |xs| > 0 {
      var x := xs[0];
      assert x in multiset(ys);
      var k :| 0 <= k < |ys| && ys[k] == x;
      MultisetDropAt(ys, k);
      MultisetDropAt(xs, 0);
      assert xs[..0] + xs[1..] == xs[1..];
      CountPermutation(xs[1..], ys[..k] + ys[k + 1..], p);
      CountDropAt(ys, k, p);
    }
  }

  /** The distinct elements of `xs` in the order of their first occurrence (SQL `UNION`,
      `PARTITION BY`, and the handlers' "first time this key is seen" loops). */
  function FirstOccurrences<T(==)>(xs: seq<T>): seq<T> {
    if |xs| == 0 then []
    else
      var d := FirstOccurrences(xs[..|xs| - 1]);
      if xs[|xs| - 1] in xs[..|xs| - 1] then d else d + [xs[|xs| - 1]]
  }

  predicate Distinct<T(==)>(xs: seq<T>) {
    forall i, j :: 0 <= i < j < |xs| ==> xs[i] != xs[j]
  }

  lemma FirstOccurrencesMembers<T>(xs: seq<T>)
    ensures forall x :: x in FirstOccurrences(xs) <==> x in xs
  {
    if |xs| > 0 {
      FirstOccurrencesMembers(xs[..|xs| - 1]);
      assert xs == xs[..|xs| - 1] + [xs[|xs| - 1]];
    }
  }

  lemma FirstOccurrencesLength<T>(xs: seq<T>)
    ensures |FirstOccurrences(xs)| <= |xs|
  {
  }

  lemma {:induction false} FirstOccurrencesDistinct<T>(xs: seq<T>)
    ensures Distinct(FirstOccurrences(xs))
  {
    if |xs| > 0 {
      var init := xs[..|xs| - 1];
      FirstOccurrencesDistinct(init);
      FirstOccurrencesMembers(init);
      var d := FirstOccurrences(init);
      if xs[|xs| - 1] !in init {
        assert xs[|xs| - 1] !in d;
        var d' := d + [xs[|xs| - 1]];
        assert FirstOccurrences(xs) == d';
        forall i, j | 0 <= i < j < |d'| ensures d'[i] != d'[j] {
          if j == |d| { assert d'[i] == d[i] && d[i] in d; }
          else { assert d'[i] == d[i] && d'[j] == d[j]; }
        }
      } else {
        assert FirstOccurrences(xs) == d;
      }
    }
  }

  /** Filtering keeps every element satisfying `p` with its multiplicity and drops the rest. */
  lemma {:induction false} FilterMultiplicity<T>(xs: seq<T>, p: T -> bool)
    ensures forall x :: multiset(Filter(xs, p))[x] == if p(x) then multiset(xs)[x] else 0
  {
    if |xs| > 0 {
      FilterMultiplicity(xs[1..], p);
      assert xs == [xs[0]] + xs[1..];
    }
  }

  /** Filtering commutes with reordering. */
  lemma FilterPermutation<T>(xs: seq<T>, ys: seq<T>, p: T -> bool)
    requires multiset(xs) == multiset(ys)
    ensures multiset(Filter(xs, p)) == multiset(Filter(ys, p))
  {
    FilterMultiplicity(xs, p);
    FilterMultiplicity(ys, p);
  }

  /** Filtering distributes over concatenation. */
  lemma {:induction false} FilterAppend<T>(xs: seq<T>, ys: seq<T>, p: T -> bool)
    ensures Filter(xs + ys, p) == Filter(xs, p) + Filter(ys, p)
  {
    if |xs| == 0 {
      assert xs + ys == ys;
    } else {
      var x, t := xs[0], xs[1..];
      assert xs == [x] + t && xs + ys == [x] + (t + ys);
      FilterCons(x, t + ys, p);
      FilterCons(x, t, p);
      FilterAppend(t, ys, p);
      var h := if p(x) then [x] else [];
      AppendAssoc(h, Filter(t, p), Filter(ys, p));
    }
  }

  lemma AppendAssoc<T>(a: seq<T>, b: seq<T>, c: seq<T>)
    ensures a + (b + c) == (a + b) + c
  {
  }

  /** Filtering a sequence with a head: the head, if it passes, then the filtered tail. */
  lemma FilterCons<T>(x: T, xs: seq<T>, p: T -> bool)
    ensures Filter([x] + xs, p) == (if p(x) then [x] else []) + Filter(xs, p)
  {
    assert ([x] + xs)[1..] == xs;
  }

  /** `xs` is `ys` with some elements deleted: what is kept stays in its order. */
  predicate Sublist<T(==)>(xs: seq<T>, ys: seq<T>)
    decreases |ys|
  {
    if |xs| == 0 then true
    else if |ys| == 0 then false
    else (xs[0] == ys[0] && Sublist(xs[1..], ys[1..])) || Sublist(xs, ys[1..])
  }

  /** Filtering deletes elements and reorders nothing. */
  lemma {:induction false} SublistRefl<T>(xs: seq<T>)
    ensures Sublist(xs, xs)
  {
    if |xs| > 0 {
      SublistRefl(xs[1..]);
    }
  }

  lemma {:induction false} FilterSublist<T>(xs: seq<T>, p: T -> bool)
    ensures Sublist(Filter(xs, p), xs)
  {
    if |xs| > 0 {
      FilterSublist(xs[1..], p);
    }
  }

  /** Keeping every element is the identity. */
  lemma FilterAll<T>(xs: seq<T>, p: T -> bool)
    requires forall i :: 0 <= i < |xs| ==> p(xs[i])
    ensures Filter(xs, p) == xs
  {
    if |xs| > 0 {
      FilterAll(xs[1..], p);
    }
  }

  lemma {:induction false} DistinctMultiplicity<T>(xs: seq<T>)
    requires Distinct(xs)
    ensures forall x :: multiset(xs)[x] <= 1
  {
    if |xs| > 0 {
      assert xs == [xs[0]] + xs[1..];
      assert Distinct(xs[1..]);
      DistinctMultiplicity(xs[1..]);
      assert xs[0] !in xs[1..];
    }
  }

  /** An element found at two positions occurs at least twice. */
  lemma PairMultiplicity<T>(ys: seq<T>, i: nat, j: nat)
    requires i < j < |ys|
    ensures ys[i] == ys[j] ==> multiset(ys)[ys[j]] >= 2
  {
    var a, b := ys[..j], ys[j + 1..];
    assert ys == a + [ys[j]] + b;
    assert a[i] == ys[i];
    assert multiset(ys) == multiset(a) + multiset{ys[j]} + multiset(b);
  }

  /** Reordering keeps the elements distinct. */
  lemma DistinctPermutation<T>(xs: seq<T>, ys: seq<T>)
    requires multiset(xs) == multiset(ys) && Distinct(xs)
    ensures Distinct(ys)
  {
    DistinctMultiplicity(xs);
    forall i, j | 0 <= i < j < |ys| ensures ys[i] != ys[j] {
      PairMultiplicity(ys, i, j);
    }
  }
}
