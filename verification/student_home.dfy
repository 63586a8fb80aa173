/** The student home page's recommendations (`student_home.py`): recommended courses as the
    `UNION` of a priority-1 branch (unenrolled courses in the student's categories) and a
    priority-2 branch (every unenrolled course), ordered by priority, enrolment count descending
    and course id; a case-insensitive search over the same rows; and recommended categories, one
    per category, picked by `ROW_NUMBER() OVER (PARTITION BY category ...)`. The database views
    the queries read are parameters of the model. */
module StudentHome {
  import opened Wrappers
  import opened Text
  import opened Sorting
  import opened Db

  /** A row of the `recommended_course_base` view, with the columns the handlers use. */
  datatype BaseCourse = BaseCourse(courseId: string, title: string, category: string, enrollmentCount: int)

  /** A row of the recommendation query: a base row with its branch's `priority` column. */
  datatype Recommendation = Recommendation(course: BaseCourse, priority: int)

  /** A row of the `recommended_category_base` view. */
  datatype CategoryRow = CategoryRow(category: string, courseCount: int)

  /** A row of the category query: a category row with its branch's `priority` column. */
  datatype RankedCategory = RankedCategory(category: string, courseCount: int, priority: int)

  /** The views the queries read: `recommended_course_base`, `recommended_category_base` and
      `enrolled_course_categories` grouped by student. Their definitions are not part of this
      model. */
  datatype Views = Views(courseBase: seq<BaseCourse>, categoryBase: seq<CategoryRow>, enrolledCategories: map<string, set<string>>)

  function EnrolledCategories(v: Views, studentId: string): set<string> {
    if studentId in v.enrolledCategories then v.enrolledCategories[studentId] else {}
  }

  /** `course_id IN (SELECT course_id FROM enroll WHERE student_id = %s)`. */
  predicate Enrolled(db: Db, studentId: string, courseId: string) {
    (courseId, studentId) in db.enrolls
  }

  // ------------------------------------------------------------------------------------------
  // Recommended courses

  /** `ORDER BY priority, enrollment_count DESC, course_id`, which is also the order of the
      search's Python sort key `(priority, -enrollment_count, course_id)`. */
  predicate RecLeq(a: Recommendation, b: Recommendation) {
    a.priority < b.priority
    || (a.priority == b.priority
        && (a.course.enrollmentCount > b.course.enrollmentCount
            || (a.course.enrollmentCount == b.course.enrollmentCount && StrLeq(a.course.courseId, b.course.courseId))))
  }

  lemma RecLeqTotalPreorder()
    ensures TotalPreorder(RecLeq)
  {
    forall a: Recommendation, b: Recommendation ensures RecLeq(a, b) || RecLeq(b, a) {
      StrLeqTotal(a.course.courseId, b.course.courseId);
    }
    forall a: Recommendation, b: Recommendation, c: Recommendation | RecLeq(a, b) && RecLeq(b, c) ensures RecLeq(a, c) {
      if a.priority == b.priority == c.priority
        && a.course.enrollmentCount == b.course.enrollmentCount == c.course.enrollmentCount {
        StrLeqTransitive(a.course.courseId, b.course.courseId, c.course.courseId);
      }
    }
  }

  /** The rows of one `UNION` branch: `SELECT *, priority`. */
  function Tag(rows: seq<BaseCourse>, priority: int): (r: seq<Recommendation>)
    ensures |r| == |rows| && forall i :: 0 <= i < |rows| ==> r[i] == Recommendation(rows[i], priority)
  {
    seq(|rows|, i requires 0 <= i < |rows| => Recommendation(rows[i], priority))
  }

  lemma TagMembers(rows: seq<BaseCourse>, priority: int)
    ensures forall r :: r in Tag(rows, priority) <==> r.priority == priority && r.course in rows
  {
    var t := Tag(rows, priority);
    forall r ensures r in t <==> r.priority == priority && r.course in rows {
      if r.priority == priority && r.course in rows {
        var i :| 0 <= i < |rows| && rows[i] == r.course;
        assert t[i] == r;
      }
    }
  }

  /** The `UNION` of the two branches before `ORDER BY`: the priority-1 rows, then the
      priority-2 rows, with identical rows kept once. */
  function Candidates(db: Db, v: Views, studentId: string): seq<Recommendation> {
    var cats := EnrolledCategories(v, studentId);
    var inCategories := Filter(v.courseBase, (b: BaseCourse) => b.category in cats && !Enrolled(db, studentId, b.courseId));
    var unenrolled := Filter(v.courseBase, (b: BaseCourse) => !Enrolled(db, studentId, b.courseId));
    FirstOccurrences(Tag(inCategories, 1) + Tag(unenrolled, 2))
  }

  /** Reference definition of a recommendation: a base course the student is not enrolled in,
      with priority 2, or with priority 1 when its category is one of the student's. */
  predicate Recommended(db: Db, v: Views, studentId: string, r: Recommendation) {
    r.course in v.courseBase && !Enrolled(db, studentId, r.course.courseId)
    && (r.priority == 2 || (r.priority == 1 && r.course.category in EnrolledCategories(v, studentId)))
  }

  /** The `UNION` holds exactly the recommended rows, each once. */
  lemma CandidatesAreRecommended(db: Db, v: Views, studentId: string)
    ensures forall r :: r in Candidates(db, v, studentId) <==> Recommended(db, v, studentId, r)
    ensures Distinct(Candidates(db, v, studentId))
  {
    var cats := EnrolledCategories(v, studentId);
    var inCategories := Filter(v.courseBase, (b: BaseCourse) => b.category in cats && !Enrolled(db, studentId, b.courseId));
    var unenrolled := Filter(v.courseBase, (b: BaseCourse) => !Enrolled(db, studentId, b.courseId));
    var both := Tag(inCategories, 1) + Tag(unenrolled, 2);
    TagMembers(inCategories, 1);
    TagMembers(unenrolled, 2);
    FirstOccurrencesMembers(both);
    FirstOccurrencesDistinct(both);
  }

  /** `GET /api/student/<student_id>/recommended-courses/all`: 404 for an unknown student;
      otherwise every recommended row once, in the `ORDER BY` order. */
  function AllRecommended(db: Db, v: Views, studentId: string): (r: Result<seq<Recommendation>>)
    ensures r.Err? <==> studentId !in db.students
    ensures r.Err? ==> r.status == NotFound
    ensures r.Ok? ==> SortedBy(r.value, RecLeq) && Distinct(r.value)
    ensures r.Ok? ==> forall x :: x in r.value <==> Recommended(db, v, studentId, x)
  {
    if studentId !in db.students then Err(NotFound)
    else
      RecLeqTotalPreorder();
      var c := Candidates(db, v, studentId);
      CandidatesAreRecommended(db, v, studentId);
      var sorted := SortBy(c, RecLeq);
      DistinctPermutation(c, sorted);
      assert forall x :: x in sorted <==> x in multiset(c);
      Ok(sorted)
  }

  /** `GET .../recommended-courses/top10`: the same query with `LIMIT 10`. */
  function Top10Recommended(db: Db, v: Views, studentId: string): (r: Result<seq<Recommendation>>)
    ensures r.Err? <==> studentId !in db.students
    ensures r.Err? ==> r.status == NotFound
    ensures r.Ok? ==> |r.value| <= 10 && SortedBy(r.value, RecLeq)
    ensures r.Ok? ==> forall i :: 0 <= i < |r.value| ==> Recommended(db, v, studentId, r.value[i])
  {
    match AllRecommended(db, v, studentId)
    case Err(s) => Err(s)
    case Ok(all) => Ok(Take(all, 10))
  }

  /** The top ten are the first rows of the full listing: every recommended row left out is
      ordered after each row kept, and only when ten rows were kept. */
  lemma Top10IsPrefixOfAll(db: Db, v: Views, studentId: string)
    requires studentId in db.students
    ensures var all := AllRecommended(db, v, studentId).value;
      var top := Top10Recommended(db, v, studentId).value;
      top == all[..|top|]
      && forall x :: Recommended(db, v, studentId, x) && x !in top ==>
           |top| == 10 && forall i :: 0 <= i < |top| ==> RecLeq(top[i], x)
  {
    var all := AllRecommended(db, v, studentId).value;
    var top := Top10Recommended(db, v, studentId).value;
    forall x | Recommended(db, v, studentId, x) && x !in top
      ensures |top| == 10 && forall i :: 0 <= i < |top| ==> RecLeq(top[i], x)
    {
      assert x in all;
      var j :| 0 <= j < |all| && all[j] == x;
      assert forall k :: 0 <= k < |top| ==> top[k] == all[k] && top[k] != x;
      assert j >= |top|;
      forall i | 0 <= i < |top| ensures RecLeq(top[i], x) {
        assert top[i] == all[i];
      }
    }
  }

  /** `UNION` drops only identical rows: an unenrolled course in one of the student's categories
      is listed twice, once per priority. */
  lemma UnionListsCourseTwice(db: Db, v: Views, studentId: string, b: BaseCourse)
    requires studentId in db.students
    requires b in v.courseBase && !Enrolled(db, studentId, b.courseId)
    requires b.category in EnrolledCategories(v, studentId)
    ensures var all := AllRecommended(db, v, studentId).value;
      Recommendation(b, 1) in all && Recommendation(b, 2) in all
  {
  }

  // ------------------------------------------------------------------------------------------
  // Search

  /** `search_term.lower() in course["title"].lower() or search_term.lower() in course["category"].lower()`. */
  predicate Matches(term: string, r: Recommendation) {
    Contains(Lower(r.course.title), Lower(term)) || Contains(Lower(r.course.category), Lower(term))
  }

  function MatchesTerm(term: string): Recommendation -> bool {
    (r: Recommendation) => Matches(term, r)
  }

  /** `GET .../recommended-courses/search?q=`: the `UNION` without `ORDER BY`, filtered in
      Python by the term (missing means ""), then sorted by the key
      `(priority, -enrollment_count, course_id)`. */
  function Search(db: Db, v: Views, studentId: string, q: Option<string>): (r: Result<seq<Recommendation>>)
    ensures r.Err? <==> studentId !in db.students
    ensures r.Err? ==> r.status == NotFound
    ensures r.Ok? ==> SortedBy(r.value, RecLeq) && Distinct(r.value)
    ensures r.Ok? ==> forall x :: x in r.value <==> Recommended(db, v, studentId, x) && Matches(q.GetOr(""), x)
  {
    if studentId !in db.students then Err(NotFound)
    else
      RecLeqTotalPreorder();
      var c := Candidates(db, v, studentId);
      CandidatesAreRecommended(db, v, studentId);
      var kept := Filter(c, MatchesTerm(q.GetOr("")));
      var sorted := SortBy(kept, RecLeq);
      FilterMultiplicity(c, MatchesTerm(q.GetOr("")));
      DistinctMultiplicity(c);
      DistinctPermutationOf(kept, sorted);
      assert forall x :: x in sorted <==> x in multiset(kept);
      Ok(sorted)
  }

  /** A sequence with no element twice is distinct. */
  lemma DistinctPermutationOf(xs: seq<Recommendation>, ys: seq<Recommendation>)
    requires multiset(xs) == multiset(ys)
    requires forall x :: multiset(xs)[x] <= 1
    ensures Distinct(ys)
  {
    forall i, j | 0 <= i < j < |ys| ensures ys[i] != ys[j] {
      PairMultiplicity(ys, i, j);
    }
  }

  /** The search returns exactly the matching rows of the full listing. */
  lemma SearchIsFilteredListing(db: Db, v: Views, studentId: string, q: Option<string>)
    requires studentId in db.students
    ensures multiset(Search(db, v, studentId, q).value)
         == multiset(Filter(AllRecommended(db, v, studentId).value, MatchesTerm(q.GetOr(""))))
  {
    RecLeqTotalPreorder();
    var c := Candidates(db, v, studentId);
    var p := MatchesTerm(q.GetOr(""));
    FilterPermutation(c, SortBy(c, RecLeq), p);
  }

  /** An empty or missing term keeps every row, in the listing's order. */
  lemma EmptySearchIsListing(db: Db, v: Views, studentId: string, q: Option<string>)
    requires q.GetOr("") == ""
    ensures Search(db, v, studentId, q) == AllRecommended(db, v, studentId)
  {
    var c := Candidates(db, v, studentId);
    var p := MatchesTerm(q.GetOr(""));
    forall i | 0 <= i < |c| ensures p(c[i]) {
      assert StartsWith(Lower(c[i].course.title), "");
    }
    FilterAll(c, p);
  }

  // ------------------------------------------------------------------------------------------
  // Recommended categories

  function RankRows(rows: seq<CategoryRow>, priority: int): (r: seq<RankedCategory>)
    ensures |r| == |rows| && forall i :: 0 <= i < |rows| ==> r[i] == RankedCategory(rows[i].category, rows[i].courseCount, priority)
  {
    seq(|rows|, i requires 0 <= i < |rows| => RankedCategory(rows[i].category, rows[i].courseCount, priority))
  }

  /** The `all_categories` CTE: the student's categories with priority 1, `UNION ALL` every
      category with priority 2. */
  function AllCategories(v: Views, studentId: string): seq<RankedCategory> {
    var cats := EnrolledCategories(v, studentId);
    RankRows(Filter(v.categoryBase, (c: CategoryRow) => c.category in cats), 1) + RankRows(v.categoryBase, 2)
  }

  /** `ORDER BY priority, course_count DESC`, used both inside the window and for the output. */
  predicate RankLeq(a: RankedCategory, b: RankedCategory) {
    a.priority < b.priority || (a.priority == b.priority && a.courseCount >= b.courseCount)
  }

  lemma RankLeqTotalPreorder()
    ensures TotalPreorder(RankLeq)
  {
  }

  /** The `rn = 1` row of a partition: a row ranked at or before every other. */
  function Best(xs: seq<RankedCategory>): (r: RankedCategory)
    requires |xs| > 0
    ensures r in xs
    ensures forall i :: 0 <= i < |xs| ==> RankLeq(r, xs[i])
  {
    if |xs| == 1 then xs[0]
    else
      var b := Best(xs[1..]);
      assert forall i :: 1 <= i < |xs| ==> xs[i] == xs[1..][i - 1];
      if RankLeq(xs[0], b) then xs[0] else b
  }

  function CategoriesOf(xs: seq<RankedCategory>): (r: seq<string>)
    ensures |r| == |xs| && forall i :: 0 <= i < |xs| ==> r[i] == xs[i].category
  {
    seq(|xs|, i requires 0 <= i < |xs| => xs[i].category)
  }

  function InCategory(c: string): RankedCategory -> bool {
    (x: RankedCategory) => x.category == c
  }

  lemma PartitionNonEmpty(all: seq<RankedCategory>, c: string)
    requires c in CategoriesOf(all)
    ensures |Filter(all, InCategory(c))| > 0
  {
    var i :| 0 <= i < |all| && CategoriesOf(all)[i] == c;
    assert all[i] in all && InCategory(c)(all[i]);
  }

  /** The `rn = 1` row of category `c`'s partition is a row of `c` ranked at or before every
      row of `c`. */
  lemma BestOfPartition(all: seq<RankedCategory>, c: string)
    requires c in CategoriesOf(all)
    ensures |Filter(all, InCategory(c))| > 0
    ensures var w := Best(Filter(all, InCategory(c)));
      w in all && w.category == c
      && forall j :: 0 <= j < |all| && all[j].category == c ==> RankLeq(w, all[j])
  {
    PartitionNonEmpty(all, c);
    var part := Filter(all, InCategory(c));
    assert forall j :: 0 <= j < |all| && all[j].category == c ==> all[j] in part;
  }

  /** The winner of each partition, in the order of `cs`. */
  function Winners(all: seq<RankedCategory>, cs: seq<string>): (r: seq<RankedCategory>)
    requires forall i :: 0 <= i < |cs| ==> cs[i] in CategoriesOf(all)
    ensures |r| == |cs|
    ensures forall i :: 0 <= i < |cs| ==> r[i] in all && r[i].category == cs[i]
    ensures forall i, j :: 0 <= i < |cs| && 0 <= j < |all| && all[j].category == cs[i] ==> RankLeq(r[i], all[j])
  {
    if |cs| == 0 then []
    else
      BestOfPartition(all, cs[0]);
      var w := Best(Filter(all, InCategory(cs[0])));
      var rest := Winners(all, cs[1..]);
      WinnersCons(all, cs, w, rest);
      [w] + rest
  }

  /** The winner of the first partition, put before the winners of the others. */
  lemma WinnersCons(all: seq<RankedCategory>, cs: seq<string>, w: RankedCategory, rest: seq<RankedCategory>)
    requires |cs| > 0 && |rest| == |cs| - 1
    requires w in all && w.category == cs[0]
    requires forall j :: 0 <= j < |all| && all[j].category == cs[0] ==> RankLeq(w, all[j])
    requires forall i :: 0 <= i < |cs| - 1 ==> rest[i] in all && rest[i].category == cs[1..][i]
    requires forall i, j :: 0 <= i < |cs| - 1 && 0 <= j < |all| && all[j].category == cs[1..][i] ==> RankLeq(rest[i], all[j])
    ensures var r := [w] + rest;
      (forall i :: 0 <= i < |cs| ==> r[i] in all && r[i].category == cs[i])
      && forall i, j :: 0 <= i < |cs| && 0 <= j < |all| && all[j].category == cs[i] ==> RankLeq(r[i], all[j])
  {
    var r := [w] + rest;
    assert forall i :: 1 <= i < |cs| ==> r[i] == rest[i - 1] && cs[i] == cs[1..][i - 1];
  }

  /** The `ranked` CTE filtered to `rn = 1`: one row per category. */
  function Ranked(all: seq<RankedCategory>): (r: seq<RankedCategory>)
    ensures CategoriesOf(r) == FirstOccurrences(CategoriesOf(all))
    ensures forall i :: 0 <= i < |r| ==> r[i] in all
    ensures forall i, j :: 0 <= i < |r| && 0 <= j < |all| && all[j].category == r[i].category ==> RankLeq(r[i], all[j])
  {
    var cs := FirstOccurrences(CategoriesOf(all));
    FirstOccurrencesMembers(CategoriesOf(all));
    Winners(all, cs)
  }

  predicate InCategoryBase(v: Views, c: string) {
    exists i :: 0 <= i < |v.categoryBase| && v.categoryBase[i].category == c
  }

  /** Reference definition of a recommended category row: priority 1 exactly for the student's
      categories, and the largest `course_count` the base holds for that category. */
  predicate CategoryWinner(v: Views, studentId: string, w: RankedCategory) {
    w.priority == (if w.category in EnrolledCategories(v, studentId) then 1 else 2)
    && (exists i :: 0 <= i < |v.categoryBase| && v.categoryBase[i] == CategoryRow(w.category, w.courseCount))
    && forall i :: 0 <= i < |v.categoryBase| && v.categoryBase[i].category == w.category ==> v.categoryBase[i].courseCount <= w.courseCount
  }

  /** A row of category `w.category` ranked at or before every row of that category meets the
      reference definition. */
  lemma MinimalIsWinner(v: Views, studentId: string, w: RankedCategory)
    requires var all := AllCategories(v, studentId);
      w in all && forall j :: 0 <= j < |all| && all[j].category == w.category ==> RankLeq(w, all[j])
    ensures CategoryWinner(v, studentId, w)
  {
    var cats := EnrolledCategories(v, studentId);
    var mine := Filter(v.categoryBase, (c: CategoryRow) => c.category in cats);
    var first := RankRows(mine, 1);
    var second := RankRows(v.categoryBase, 2);
    var all := first + second;
    assert all == AllCategories(v, studentId);
    WinnerIsBaseRow(v, studentId, w);
    WinnerPriority(v, studentId, w);
    forall i | 0 <= i < |v.categoryBase| && v.categoryBase[i].category == w.category
      ensures v.categoryBase[i].courseCount <= w.courseCount
    {
      assert all[|first| + i] == second[i];
      if w.category in cats {
        assert v.categoryBase[i] in mine;
        var m :| 0 <= m < |mine| && mine[m] == v.categoryBase[i];
        assert all[m] == first[m];
      }
    }
  }

  /** Every row of the `all_categories` CTE comes from a row of the base view. */
  lemma WinnerIsBaseRow(v: Views, studentId: string, w: RankedCategory)
    requires w in AllCategories(v, studentId)
    ensures exists i :: 0 <= i < |v.categoryBase| && v.categoryBase[i] == CategoryRow(w.category, w.courseCount)
    ensures w.priority == 1 ==> w.category in EnrolledCategories(v, studentId)
    ensures w.priority == 1 || w.priority == 2
  {
    var cats := EnrolledCategories(v, studentId);
    var mine := Filter(v.categoryBase, (c: CategoryRow) => c.category in cats);
    var first := RankRows(mine, 1);
    var second := RankRows(v.categoryBase, 2);
    var all := first + second;
    var j :| 0 <= j < |all| && all[j] == w;
    if j < |first| {
      assert mine[j] in v.categoryBase;
      var i :| 0 <= i < |v.categoryBase| && v.categoryBase[i] == mine[j];
      assert v.categoryBase[i] == CategoryRow(w.category, w.courseCount);
    } else {
      var i := j - |first|;
      assert second[i] == w;
      assert v.categoryBase[i] == CategoryRow(w.category, w.courseCount);
    }
  }

  /** A row ranked first in its partition has priority 1 exactly when its category is one of the
      student's. */
  lemma WinnerPriority(v: Views, studentId: string, w: RankedCategory)
    requires var all := AllCategories(v, studentId);
      w in all && forall j :: 0 <= j < |all| && all[j].category == w.category ==> RankLeq(w, all[j])
    ensures w.priority == (if w.category in EnrolledCategories(v, studentId) then 1 else 2)
  {
    var cats := EnrolledCategories(v, studentId);
    var mine := Filter(v.categoryBase, (c: CategoryRow) => c.category in cats);
    var first := RankRows(mine, 1);
    var second := RankRows(v.categoryBase, 2);
    var all := first + second;
    assert all == AllCategories(v, studentId);
    WinnerIsBaseRow(v, studentId, w);
    var i :| 0 <= i < |v.categoryBase| && v.categoryBase[i] == CategoryRow(w.category, w.courseCount);
    if w.category in cats {
      assert v.categoryBase[i] in mine;
      var m :| 0 <= m < |mine| && mine[m] == v.categoryBase[i];
      assert all[m] == first[m];
      assert RankLeq(w, all[m]);
    }
  }

  /** Every `rn = 1` row meets the reference definition. */
  lemma RankedAreWinners(v: Views, studentId: string)
    ensures forall w :: w in Ranked(AllCategories(v, studentId)) ==> CategoryWinner(v, studentId, w)
  {
    var all := AllCategories(v, studentId);
    var ranked := Ranked(all);
    forall w | w in ranked ensures CategoryWinner(v, studentId, w) {
      var k :| 0 <= k < |ranked| && ranked[k] == w;
      MinimalIsWinner(v, studentId, w);
    }
  }

  /** Two rows meeting the reference definition for the same category are the same row. */
  lemma WinnerUnique(v: Views, studentId: string, a: RankedCategory, b: RankedCategory)
    requires CategoryWinner(v, studentId, a) && CategoryWinner(v, studentId, b)
    ensures a.category == b.category ==> a == b
  {
    var i :| 0 <= i < |v.categoryBase| && v.categoryBase[i] == CategoryRow(a.category, a.courseCount);
    var j :| 0 <= j < |v.categoryBase| && v.categoryBase[j] == CategoryRow(b.category, b.courseCount);
  }

  /** The categories of the ranking are those of the base view. */
  lemma RankedCategoriesAreBase(v: Views, studentId: string)
    ensures forall c :: c in CategoriesOf(Ranked(AllCategories(v, studentId))) <==> InCategoryBase(v, c)
  {
    var cats := EnrolledCategories(v, studentId);
    var mine := Filter(v.categoryBase, (c: CategoryRow) => c.category in cats);
    var first := RankRows(mine, 1);
    var second := RankRows(v.categoryBase, 2);
    var all := first + second;
    FirstOccurrencesMembers(CategoriesOf(all));
    forall c ensures c in CategoriesOf(all) <==> InCategoryBase(v, c) {
      if c in CategoriesOf(all) {
        var j :| 0 <= j < |all| && all[j].category == c;
        if j < |first| {
          assert mine[j] in v.categoryBase;
          var i :| 0 <= i < |v.categoryBase| && v.categoryBase[i] == mine[j];
          assert v.categoryBase[i].category == c;
        } else {
          assert v.categoryBase[j - |first|].category == c;
        }
      }
      if InCategoryBase(v, c) {
        var i :| 0 <= i < |v.categoryBase| && v.categoryBase[i].category == c;
        assert all[|first| + i] == second[i];
        assert CategoriesOf(all)[|first| + i] == c;
      }
    }
  }

  /** `GET /api/student/<student_id>/recommended-categories/all`: 404 for an unknown student;
      otherwise each category of the base view once, with the reference priority and count,
      ordered by priority then `course_count` descending. */
  function RecommendedCategories(db: Db, v: Views, studentId: string): (r: Result<seq<RankedCategory>>)
    ensures r.Err? <==> studentId !in db.students
    ensures r.Err? ==> r.status == NotFound
    ensures r.Ok? ==> SortedBy(r.value, RankLeq)
    ensures r.Ok? ==> forall i :: 0 <= i < |r.value| ==> CategoryWinner(v, studentId, r.value[i])
    ensures r.Ok? ==> forall c :: c in CategoriesOf(r.value) <==> InCategoryBase(v, c)
    ensures r.Ok? ==> Distinct(CategoriesOf(r.value))
  {
    if studentId !in db.students then Err(NotFound)
    else
      var ranked := Ranked(AllCategories(v, studentId));
      var sorted := SortBy(ranked, RankLeq);
      RankedAreWinners(v, studentId);
      RankedCategoriesAreBase(v, studentId);
      SortedCategories(v, studentId, ranked, sorted);
      Ok(sorted)
  }

  lemma SortedCategories(v: Views, studentId: string, ranked: seq<RankedCategory>, sorted: seq<RankedCategory>)
    requires ranked == Ranked(AllCategories(v, studentId))
    requires multiset(sorted) == multiset(ranked)
    requires forall w :: w in ranked ==> CategoryWinner(v, studentId, w)
    requires forall c :: c in CategoriesOf(ranked) <==> InCategoryBase(v, c)
    ensures forall i :: 0 <= i < |sorted| ==> CategoryWinner(v, studentId, sorted[i])
    ensures forall c :: c in CategoriesOf(sorted) <==> InCategoryBase(v, c)
    ensures Distinct(CategoriesOf(sorted))
  {
    MultisetSameMembers(ranked, sorted);
    CategoriesOfSameMembers(ranked, sorted);
    RankedDistinct(AllCategories(v, studentId));
    DistinctPermutation(ranked, sorted);
    SortedCategoriesDistinct(v, studentId, sorted);
  }

  /** One row per category: the ranked rows are pairwise distinct. */
  lemma RankedDistinct(all: seq<RankedCategory>)
    ensures Distinct(Ranked(all))
  {
    var r := Ranked(all);
    FirstOccurrencesDistinct(CategoriesOf(all));
    forall i, j | 0 <= i < j < |r| ensures r[i] != r[j] {
      assert CategoriesOf(r)[i] != CategoriesOf(r)[j];
    }
  }

  lemma MultisetSameMembers<T>(xs: seq<T>, ys: seq<T>)
    requires multiset(xs) == multiset(ys)
    ensures forall x :: x in xs <==> x in ys
  {
    assert forall x :: x in xs <==> x in multiset(xs);
    assert forall x :: x in ys <==> x in multiset(ys);
  }

  /** Rankings with the same rows name the same categories. */
  lemma CategoriesOfSameMembers(xs: seq<RankedCategory>, ys: seq<RankedCategory>)
    requires forall x :: x in xs <==> x in ys
    ensures forall c :: c in CategoriesOf(xs) <==> c in CategoriesOf(ys)
  {
    forall c ensures c in CategoriesOf(xs) ==> c in CategoriesOf(ys) {
      CategoryInOther(xs, ys, c);
    }
    forall c ensures c in CategoriesOf(ys) ==> c in CategoriesOf(xs) {
      CategoryInOther(ys, xs, c);
    }
  }

  lemma CategoryInOther(xs: seq<RankedCategory>, ys: seq<RankedCategory>, c: string)
    requires forall x :: x in xs ==> x in ys
    ensures c in CategoriesOf(xs) ==> c in CategoriesOf(ys)
  {
    if c in CategoriesOf(xs) {
      var k :| 0 <= k < |xs| && CategoriesOf(xs)[k] == c;
      assert xs[k] in ys;
      var i :| 0 <= i < |ys| && ys[i] == xs[k];
      assert CategoriesOf(ys)[i] == c;
    }
  }

  /** Category winners of distinct rows name distinct categories. */
  lemma SortedCategoriesDistinct(v: Views, studentId: string, sorted: seq<RankedCategory>)
    requires forall i :: 0 <= i < |sorted| ==> CategoryWinner(v, studentId, sorted[i])
    requires Distinct(sorted)
    ensures Distinct(CategoriesOf(sorted))
  {
    var cs := CategoriesOf(sorted);
    forall i, j | 0 <= i < j < |sorted| ensures cs[i] != cs[j] {
      WinnerUnique(v, studentId, sorted[i], sorted[j]);
    }
  }

  /** `GET .../recommended-categories/top5`: the same query with `LIMIT 5`. */
  function Top5Categories(db: Db, v: Views, studentId: string): (r: Result<seq<RankedCategory>>)
    ensures r.Err? <==> studentId !in db.students
    ensures r.Err? ==> r.status == NotFound
    ensures r.Ok? ==> |r.value| <= 5 && SortedBy(r.value, RankLeq) && Distinct(CategoriesOf(r.value))
    ensures r.Ok? ==> forall i :: 0 <= i < |r.value| ==> CategoryWinner(v, studentId, r.value[i])
  {
    var all := RecommendedCategories(db, v, studentId);
    if all.Err? then Err(all.status)
    else
      Ok(Take(all.value, 5))
  }

  /** The top five are the first rows of the full category listing. */
  lemma Top5IsPrefixOfAll(db: Db, v: Views, studentId: string)
    requires studentId in db.students
    ensures var all := RecommendedCategories(db, v, studentId).value;
      var top := Top5Categories(db, v, studentId).value;
      top == all[..|top|] && (|top| < 5 ==> top == all)
  {
  }

  /** A category of the student's own is listed before every other category. */
  lemma OwnCategoriesFirst(db: Db, v: Views, studentId: string, i: nat, j: nat)
    requires studentId in db.students
    ensures var r := RecommendedCategories(db, v, studentId).value;
      (i < |r| && j < |r| && r[j].category in EnrolledCategories(v, studentId)
       && r[i].category !in EnrolledCategories(v, studentId)) ==> j < i
  {
    var r := RecommendedCategories(db, v, studentId).value;
    if i < |r| && j < |r| {
      PriorityOrder(v, studentId, r, i, j);
    }
  }

  /** In a ranking sorted by priority, a winner of the student's own categories (priority 1)
      comes before a winner of any other category (priority 2). */
  lemma PriorityOrder(v: Views, studentId: string, r: seq<RankedCategory>, i: nat, j: nat)
    requires SortedBy(r, RankLeq) && i < |r| && j < |r|
    requires CategoryWinner(v, studentId, r[i]) && CategoryWinner(v, studentId, r[j])
    ensures r[j].category in EnrolledCategories(v, studentId) && r[i].category !in EnrolledCategories(v, studentId)
      ==> j < i
  {
    if r[j].category in EnrolledCategories(v, studentId) && r[i].category !in EnrolledCategories(v, studentId) {
      assert r[i].priority == 2 && r[j].priority == 1;
      assert i < j ==> RankLeq(r[i], r[j]);
    }
  }
}
