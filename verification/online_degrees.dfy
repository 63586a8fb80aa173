/** The course catalogue query of `GET /api/degrees` (`online_degrees.py`): a fixed base query
    restricted to accepted courses, one `AND` condition per filter the request supplies, the
    filter values passed separately as query parameters, and one `ORDER BY` clause. The query is
    modelled as a sequence of pieces (constant text, `%s` placeholders and the sort clause) so that
    the placeholders can be matched against the values. */
module OnlineDegrees {
  import opened Wrappers
  import opened Text
  import opened Json
  import opened Db
  import opened ReportRequests

  /** `request.args.get(name, type=int)`: absent, or `int()` refuses the text, gives None. */
  function IntArg(args: Args, name: string): Option<int> {
    if name in args then ParseIntText(args[name]) else None
  }

  /** `request.args.get(name)` where only a truthy (non-empty) value counts. */
  function TextArg(args: Args, name: string): Option<string> {
    OrElse(Arg(args, name), None)
  }

  /** `request.args.get("free_only", "false").lower() == "true"`. */
  predicate FreeOnlyFlag(args: Args) {
    Lower(Arg(args, "free_only").GetOr("false")) == "true"
  }

  /** One condition of the `WHERE` clause. */
  datatype Condition =
    | TitleLike(title: string)
    | DescriptionLike(description: string)
    | CategoryIs(category: string)
    | PriceBetween(minPrice: int, maxPrice: int)
    | FreeOnly
    | CreatedBetween(createdFrom: string, createdTo: string)
    | UpdatedBetween(updatedFrom: string, updatedTo: string)
    | EnrollmentBetween(enrollMin: int, enrollMax: int)
    | LevelIs(level: int)

  /** A query parameter value. */
  datatype SqlValue = SqlText(text: string) | SqlNumber(n: int)

  datatype SortKey = Newest | MostEnrolled | PriceLowToHigh | PriceHighToLow | Relevance

  /** A piece of the query text: constant text, a `%s` placeholder, or the sort clause. */
  datatype Piece = Lit(text: string) | Param | Order(key: SortKey)

  const BaseSelect: string :=
    "SELECT c.course_id, c.title, c.description, CONCAT_WS(' ', u.first_name, u.middle_name, u.last_name) AS instructor_name, "
    + "c.category, c.price, c.difficulty_level, c.creation_date, c.last_update_date, c.enrollment_count "
    + "FROM course c JOIN instructor i ON c.creator_id = i.id JOIN \"user\" u ON u.id = i.id "

  const AcceptedOnly: string := "WHERE c.status = 'accepted'"

  const BaseQuery: string := BaseSelect + AcceptedOnly

  /** The condition's text; every value it needs is a placeholder. */
  function Template(c: Condition): seq<Piece> {
    match c
    case TitleLike(_) => [Lit("c.title ILIKE "), Param]
    case DescriptionLike(_) => [Lit("c.description ILIKE "), Param]
    case CategoryIs(_) => [Lit("c.category = "), Param]
    case PriceBetween(_, _) => [Lit("c.price BETWEEN "), Param, Lit(" AND "), Param]
    case FreeOnly => [Lit("c.price = 0")]
    case CreatedBetween(_, _) => [Lit("c.creation_date BETWEEN "), Param, Lit(" AND "), Param]
    case UpdatedBetween(_, _) => [Lit("c.last_update_date BETWEEN "), Param, Lit(" AND "), Param]
    case EnrollmentBetween(_, _) => [Lit("c.enrollment_count BETWEEN "), Param, Lit(" AND "), Param]
    case LevelIs(_) => [Lit("c.difficulty_level = "), Param]
  }

  /** The values the condition appends, in placeholder order. */
  function Values(c: Condition): seq<SqlValue> {
    match c
    case TitleLike(t) => [SqlText("%" + t + "%")]
    case DescriptionLike(d) => [SqlText("%" + d + "%")]
    case CategoryIs(k) => [SqlText(k)]
    case PriceBetween(lo, hi) => [SqlNumber(lo), SqlNumber(hi)]
    case FreeOnly => []
    case CreatedBetween(s, e) => [SqlText(s), SqlText(e)]
    case UpdatedBetween(s, e) => [SqlText(s), SqlText(e)]
    case EnrollmentBetween(lo, hi) => [SqlNumber(lo), SqlNumber(hi)]
    case LevelIs(l) => [SqlNumber(l)]
  }

  predicate IsParam(p: Piece) { p.Param? }

  predicate IsOrder(p: Piece) { p.Order? }

  /** Each condition has one placeholder per value and no sort clause. */
  lemma TemplateMatchesValues(c: Condition)
    ensures Count(Template(c), IsParam) == |Values(c)|
    ensures Count(Template(c), IsOrder) == 0
  {
    var t := Template(c);
    assert t[0..] == t && t[|t|..] == [];
    forall k | 0 <= k < |t|
      ensures Count(t[k..], IsParam) == (if t[k].Param? then 1 else 0) + Count(t[k + 1..], IsParam)
      ensures Count(t[k..], IsOrder) == Count(t[k + 1..], IsOrder)
    {
      CountStep(t, k, IsParam);
      CountStep(t, k, IsOrder);
    }
  }

  /** The request's filter parameters as the handler reads them. */
  datatype Filters = Filters(
    title: Option<string>, description: Option<string>, category: Option<string>,
    minPrice: Option<int>, maxPrice: Option<int>, freeOnly: bool,
    creationStart: Option<string>, creationEnd: Option<string>,
    updateStart: Option<string>, updateEnd: Option<string>,
    enrollMin: Option<int>, enrollMax: Option<int>, level: Option<int>)

  function ReadFilters(args: Args): Filters {
    Filters(
      TextArg(args, "title"), TextArg(args, "description"), TextArg(args, "category"),
      IntArg(args, "min_price"), IntArg(args, "max_price"), FreeOnlyFlag(args),
      TextArg(args, "creation_start"), TextArg(args, "creation_end"),
      TextArg(args, "update_start"), TextArg(args, "update_end"),
      IntArg(args, "enroll_min"), IntArg(args, "enroll_max"), IntArg(args, "level"))
  }

  /** `if <test>: filters.append(...)`: the condition when the test passes, nothing otherwise. */
  function Slot(present: bool, c: Condition): (r: seq<Condition>)
    ensures forall x :: x in r <==> present && x == c
  {
    if present then [c] else []
  }

  /** Reference definition of the conditions a request selects: a text filter when its
      parameter is non-empty, a range only when both bounds parse as integers, the level when it
      parses, `free_only` when it reads "true" in any case. */
  predicate Selected(f: Filters, c: Condition) {
    match c
    case TitleLike(t) => f.title == Some(t)
    case DescriptionLike(d) => f.description == Some(d)
    case CategoryIs(k) => f.category == Some(k)
    case PriceBetween(lo, hi) => f.minPrice == Some(lo) && f.maxPrice == Some(hi)
    case FreeOnly => f.freeOnly
    case CreatedBetween(s, e) => f.creationStart == Some(s) && f.creationEnd == Some(e)
    case UpdatedBetween(s, e) => f.updateStart == Some(s) && f.updateEnd == Some(e)
    case EnrollmentBetween(lo, hi) => f.enrollMin == Some(lo) && f.enrollMax == Some(hi)
    case LevelIs(l) => f.level == Some(l)
  }

  /** The conditions the request selects, in the order the handler tests them. */
  function Conditions(f: Filters): (cs: seq<Condition>)
    ensures |cs| <= 9
  {
    Leading(f) + Slot(f.freeOnly, FreeOnly) + Trailing(f)
  }

  /** The text and price conditions, tested before `free_only`. */
  function Leading(f: Filters): seq<Condition> {
    Slot(f.title.Some?, TitleLike(f.title.GetOr("")))
    + Slot(f.description.Some?, DescriptionLike(f.description.GetOr("")))
    + Slot(f.category.Some?, CategoryIs(f.category.GetOr("")))
    + Slot(f.minPrice.Some? && f.maxPrice.Some?, PriceBetween(f.minPrice.GetOr(0), f.maxPrice.GetOr(0)))
  }

  /** The date, enrolment and level conditions, tested after `free_only`. */
  function Trailing(f: Filters): seq<Condition> {
    Slot(f.creationStart.Some? && f.creationEnd.Some?, CreatedBetween(f.creationStart.GetOr(""), f.creationEnd.GetOr("")))
    + Slot(f.updateStart.Some? && f.updateEnd.Some?, UpdatedBetween(f.updateStart.GetOr(""), f.updateEnd.GetOr("")))
    + Slot(f.enrollMin.Some? && f.enrollMax.Some?, EnrollmentBetween(f.enrollMin.GetOr(0), f.enrollMax.GetOr(0)))
    + Slot(f.level.Some?, LevelIs(f.level.GetOr(0)))
  }

  predicate LeadingKind(c: Condition) {
    c.TitleLike? || c.DescriptionLike? || c.CategoryIs? || c.PriceBetween?
  }

  lemma LeadingMembers(f: Filters)
    ensures forall c :: c in Leading(f) <==> Selected(f, c) && LeadingKind(c)
  {
  }

  lemma TrailingMembers(f: Filters)
    ensures forall c :: c in Trailing(f) <==> Selected(f, c) && !LeadingKind(c) && !c.FreeOnly?
  {
  }

  /** A condition is in the query exactly when the request selects it. */
  lemma ConditionsAreSelected(f: Filters)
    ensures forall c :: c in Conditions(f) <==> Selected(f, c)
  {
    LeadingMembers(f);
    TrailingMembers(f);
  }

  /** A range filter is applied only when both of its bounds were given; a single bound is
      ignored. */
  lemma RangesNeedBothBounds(f: Filters)
    ensures f.minPrice.None? || f.maxPrice.None? ==> forall c :: c in Conditions(f) ==> !c.PriceBetween?
    ensures f.creationStart.None? || f.creationEnd.None? ==> forall c :: c in Conditions(f) ==> !c.CreatedBetween?
    ensures f.updateStart.None? || f.updateEnd.None? ==> forall c :: c in Conditions(f) ==> !c.UpdatedBetween?
    ensures f.enrollMin.None? || f.enrollMax.None? ==> forall c :: c in Conditions(f) ==> !c.EnrollmentBetween?
  {
    ConditionsAreSelected(f);
  }

  /** Without any filter parameter the query carries no condition beyond the base and no value. */
  lemma NoParametersNoFilters(args: Args)
    requires forall k :: k in args ==> k == "sort"
    ensures Conditions(ReadFilters(args)) == [] && BuildQuery(args).values == []
  {
    var f := ReadFilters(args);
    assert f.title.None? && f.description.None? && f.category.None? && f.minPrice.None? && f.level.None?;
    assert f.creationStart.None? && f.updateStart.None? && f.enrollMin.None?;
    assert !f.freeOnly by {
      assert |Lower("false")| == 5;
    }
    assert Leading(f) == [] && Trailing(f) == [];
  }

  /** `" AND " + " AND ".join(filters)`, written as one `" AND " + filter` per condition. */
  function FilterPieces(cs: seq<Condition>): seq<Piece> {
    if |cs| == 0 then [] else FilterPieces(cs[..|cs| - 1]) + [Lit(" AND ")] + Template(cs[|cs| - 1])
  }

  function FilterValues(cs: seq<Condition>): seq<SqlValue> {
    if |cs| == 0 then [] else FilterValues(cs[..|cs| - 1]) + Values(cs[|cs| - 1])
  }

  /** `sort = request.args.get("sort", "relevance")`; any value other than the four names falls
      back to the relevance formula. */
  function SortKeyOf(args: Args): (k: SortKey)
    ensures k == Relevance <==> Arg(args, "sort").GetOr("relevance") !in {"newest", "most_enrolled", "price_low_to_high", "price_high_to_low"}
  {
    var sort := Arg(args, "sort").GetOr("relevance");
    if sort == "newest" then Newest
    else if sort == "most_enrolled" then MostEnrolled
    else if sort == "price_low_to_high" then PriceLowToHigh
    else if sort == "price_high_to_low" then PriceHighToLow
    else Relevance
  }

  function OrderText(k: SortKey): string {
    match k
    case Newest => " ORDER BY c.creation_date DESC"
    case MostEnrolled => " ORDER BY c.enrollment_count DESC"
    case PriceLowToHigh => " ORDER BY c.price ASC"
    case PriceHighToLow => " ORDER BY c.price DESC"
    case Relevance => " ORDER BY (c.enrollment_count * 0.5 + (CURRENT_DATE - c.creation_date) * -0.1) DESC"
  }

  function PieceText(p: Piece): string {
    match p
    case Lit(t) => t
    case Param => "%s"
    case Order(k) => OrderText(k)
  }

  function Render(ps: seq<Piece>): string {
    if |ps| == 0 then "" else Render(ps[..|ps| - 1]) + PieceText(ps[|ps| - 1])
  }

  datatype Query = Query(pieces: seq<Piece>, values: seq<SqlValue>)

  /** The query `cursor.execute(base_query, values)` runs. */
  function BuildQuery(args: Args): (q: Query)
    ensures Count(q.pieces, IsParam) == |q.values|
    ensures Count(q.pieces, IsOrder) == 1 && q.pieces[|q.pieces| - 1] == Order(SortKeyOf(args))
    ensures q.pieces[0] == Lit(BaseQuery)
  {
    var cs := Conditions(ReadFilters(args));
    var ps := [Lit(BaseQuery)] + FilterPieces(cs) + [Order(SortKeyOf(args))];
    FilterPiecesCounts(cs);
    CountAppend([Lit(BaseQuery)] + FilterPieces(cs), [Order(SortKeyOf(args))], IsParam);
    CountAppend([Lit(BaseQuery)] + FilterPieces(cs), [Order(SortKeyOf(args))], IsOrder);
    CountAppend([Lit(BaseQuery)], FilterPieces(cs), IsParam);
    CountAppend([Lit(BaseQuery)], FilterPieces(cs), IsOrder);
    Query(ps, FilterValues(cs))
  }

  /** The filter part has one placeholder per value and no sort clause. */
  lemma {:induction false} FilterPiecesCounts(cs: seq<Condition>)
    ensures Count(FilterPieces(cs), IsParam) == |FilterValues(cs)|
    ensures Count(FilterPieces(cs), IsOrder) == 0
  {
    if |cs| > 0 {
      var init := cs[..|cs| - 1];
      var c := cs[|cs| - 1];
      FilterPiecesCounts(init);
      TemplateMatchesValues(c);
      CountAppend(FilterPieces(init) + [Lit(" AND ")], Template(c), IsParam);
      CountAppend(FilterPieces(init) + [Lit(" AND ")], Template(c), IsOrder);
      CountAppend(FilterPieces(init), [Lit(" AND ")], IsParam);
      CountAppend(FilterPieces(init), [Lit(" AND ")], IsOrder);
    }
  }

  lemma {:induction false} RenderAppend(a: seq<Piece>, b: seq<Piece>)
    ensures Render(a + b) == Render(a) + Render(b)
    decreases |b|
  {
    if |b| == 0 {
      assert a + b == a;
    } else {
      var b', x := b[..|b| - 1], b[|b| - 1];
      SplitLast(b);
      AppendAssoc(a, b', [x]);
      RenderSnoc(a + b', x);
      RenderSnoc(b', x);
      RenderAppend(a, b');
      AppendAssoc(Render(a), Render(b'), PieceText(x));
    }
  }

  /** Rendering one more piece appends its text. */
  lemma RenderSnoc(ps: seq<Piece>, x: Piece)
    ensures Render(ps + [x]) == Render(ps) + PieceText(x)
  {
    assert (ps + [x])[..|ps|] == ps;
  }

  /** The rendered query text starts with the base query, so every result is an accepted course:
      the filters only add `AND` conditions to `c.status = 'accepted'`. */
  lemma QueryKeepsAcceptedOnly(args: Args)
    ensures StartsWith(Render(BuildQuery(args).pieces), BaseSelect + AcceptedOnly)
  {
    var q := BuildQuery(args);
    RenderAppend([Lit(BaseQuery)], q.pieces[1..]);
    assert q.pieces == [Lit(BaseQuery)] + q.pieces[1..];
    assert Render([Lit(BaseQuery)]) == BaseQuery by {
      assert [Lit(BaseQuery)][..0] == [];
    }
  }

  /** Python's `sep.join(xs)`. */
  function Join(xs: seq<string>, sep: string): string {
    if |xs| == 0 then "" else if |xs| == 1 then xs[0] else Join(xs[..|xs| - 1], sep) + sep + xs[|xs| - 1]
  }

  function FilterTexts(cs: seq<Condition>): (r: seq<string>)
    ensures |r| == |cs| && forall i :: 0 <= i < |cs| ==> r[i] == ClauseText(cs[i])
  {
    seq(|cs|, i requires 0 <= i < |cs| => ClauseText(cs[i]))
  }

  /** With filters present the query is the base, `" AND "`, the filters joined by `" AND "`,
      then the sort clause; with none it is the base followed by the sort clause. */
  lemma QueryText(args: Args)
    ensures var cs := Conditions(ReadFilters(args));
      Render(BuildQuery(args).pieces)
      == BaseQuery + (if |cs| == 0 then "" else " AND " + Join(FilterTexts(cs), " AND ")) + OrderText(SortKeyOf(args))
  {
    var cs := Conditions(ReadFilters(args));
    var q := BuildQuery(args);
    var head := [Lit(BaseQuery)] + FilterPieces(cs);
    assert q.pieces == head + [Order(SortKeyOf(args))];
    assert Render(q.pieces) == Render(head) + OrderText(SortKeyOf(args)) by {
      assert q.pieces[..|q.pieces| - 1] == head;
    }
    RenderAppend([Lit(BaseQuery)], FilterPieces(cs));
    assert Render([Lit(BaseQuery)]) == BaseQuery by {
      assert [Lit(BaseQuery)][..0] == [];
    }
    FilterPiecesText(cs);
  }

  /** The text a condition contributes. */
  function ClauseText(c: Condition): string {
    Render(Template(c))
  }

  lemma FilterPiecesSnoc(cs: seq<Condition>)
    requires |cs| > 0
    ensures Render(FilterPieces(cs)) == Render(FilterPieces(cs[..|cs| - 1])) + " AND " + ClauseText(cs[|cs| - 1])
  {
    var head := FilterPieces(cs[..|cs| - 1]);
    var t := Template(cs[|cs| - 1]);
    assert FilterPieces(cs) == head + [Lit(" AND ")] + t;
    RenderAppend(head + [Lit(" AND ")], t);
    RenderAppend(head, [Lit(" AND ")]);
    assert Render([Lit(" AND ")]) == " AND " by {
      assert [Lit(" AND ")][..0] == [];
    }
  }

  lemma JoinSnoc(cs: seq<Condition>)
    requires |cs| > 0
    ensures var last := ClauseText(cs[|cs| - 1]);
      Join(FilterTexts(cs), " AND ")
      == if |cs| == 1 then last else Join(FilterTexts(cs[..|cs| - 1]), " AND ") + " AND " + last
  {
    var texts := FilterTexts(cs);
    assert texts[..|cs| - 1] == FilterTexts(cs[..|cs| - 1]);
  }

  lemma Regroup(a: string, b: string, c: string, d: string)
    ensures a + b + c + d == a + (b + c + d)
  {
  }

  lemma {:induction false} FilterPiecesText(cs: seq<Condition>)
    ensures |cs| == 0 ==> Render(FilterPieces(cs)) == ""
    ensures |cs| > 0 ==> Render(FilterPieces(cs)) == " AND " + Join(FilterTexts(cs), " AND ")
  {
    if |cs| > 0 {
      var init := cs[..|cs| - 1];
      var last := ClauseText(cs[|cs| - 1]);
      var r, ri := Render(FilterPieces(cs)), Render(FilterPieces(init));
      var j := Join(FilterTexts(cs), " AND ");
      FilterPiecesText(init);
      FilterPiecesSnoc(cs);
      assert r == ri + " AND " + last;
      JoinSnoc(cs);
      if |cs| == 1 {
        assert ri == "";
        assert j == last;
      } else {
        var ji := Join(FilterTexts(init), " AND ");
        assert ri == " AND " + ji;
        assert j == ji + " AND " + last;
        Regroup(" AND ", ji, " AND ", last);
      }
    }
  }

  /** The query text depends only on which kinds of condition are present and on the sort key:
      request values reach the database only as parameters, never as query text. */
  function Kind(c: Condition): Condition {
    match c
    case TitleLike(_) => TitleLike("")
    case DescriptionLike(_) => DescriptionLike("")
    case CategoryIs(_) => CategoryIs("")
    case PriceBetween(_, _) => PriceBetween(0, 0)
    case FreeOnly => FreeOnly
    case CreatedBetween(_, _) => CreatedBetween("", "")
    case UpdatedBetween(_, _) => UpdatedBetween("", "")
    case EnrollmentBetween(_, _) => EnrollmentBetween(0, 0)
    case LevelIs(_) => LevelIs(0)
  }

  function Kinds(cs: seq<Condition>): (r: seq<Condition>)
    ensures |r| == |cs| && forall i :: 0 <= i < |cs| ==> r[i] == Kind(cs[i])
  {
    seq(|cs|, i requires 0 <= i < |cs| => Kind(cs[i]))
  }

  lemma TemplateOfKind(c: Condition)
    ensures Template(c) == Template(Kind(c))
  {
  }

  lemma {:induction false} FilterPiecesByKind(cs: seq<Condition>, ds: seq<Condition>)
    requires Kinds(cs) == Kinds(ds)
    ensures FilterPieces(cs) == FilterPieces(ds)
  {
    if |cs| > 0 {
      var n := |cs| - 1;
      assert Kind(cs[n]) == Kinds(cs)[n] == Kinds(ds)[n] == Kind(ds[n]);
      TemplateOfKind(cs[n]);
      TemplateOfKind(ds[n]);
      assert Kinds(cs[..n]) == Kinds(cs)[..n];
      assert Kinds(ds[..n]) == Kinds(ds)[..n];
      FilterPiecesByKind(cs[..n], ds[..n]);
    }
  }

  lemma QueryTextIgnoresValues(a: Args, b: Args)
    requires Kinds(Conditions(ReadFilters(a))) == Kinds(Conditions(ReadFilters(b))) && SortKeyOf(a) == SortKeyOf(b)
    ensures BuildQuery(a).pieces == BuildQuery(b).pieces
  {
    FilterPiecesByKind(Conditions(ReadFilters(a)), Conditions(ReadFilters(b)));
  }

  /** Setting `free_only` inserts `FreeOnly` between the leading and trailing conditions. */
  lemma FreeOnlySplit(f: Filters)
    ensures Conditions(f.(freeOnly := true)) == Leading(f) + [FreeOnly] + Trailing(f)
    ensures Conditions(f.(freeOnly := false)) == Leading(f) + Trailing(f)
  {
    var on, off := f.(freeOnly := true), f.(freeOnly := false);
    assert Leading(on) == Leading(f) && Trailing(on) == Trailing(f);
    assert Leading(off) == Leading(f) && Trailing(off) == Trailing(f);
    assert Leading(f) + [] == Leading(f);
  }

  /** `free_only=true` adds the condition `c.price = 0` and appends no value. */
  lemma FreeOnlyAddsNoValue(f: Filters)
    ensures FilterValues(Conditions(f.(freeOnly := true))) == FilterValues(Conditions(f.(freeOnly := false)))
  {
    var pre, post := Leading(f), Trailing(f);
    FreeOnlySplit(f);
    FilterValuesAppend(pre, post);
    FilterValuesAppend(pre + [FreeOnly], post);
    FilterValuesAppend(pre, [FreeOnly]);
    assert FilterValues([FreeOnly]) == [] by {
      assert [FreeOnly][..0] == [];
    }
    assert FilterValues(pre) + [] == FilterValues(pre);
  }

  /** `free_only` is read case-insensitively; "true" switches the filter on and "false" off. */
  lemma FreeOnlyFlagValues(args: Args)
    ensures ReadFilters(args["free_only" := "true"]).freeOnly
    ensures ReadFilters(args["free_only" := "TRUE"]).freeOnly
    ensures !ReadFilters(args["free_only" := "false"]).freeOnly
    ensures "free_only" !in args ==> !ReadFilters(args).freeOnly
  {
    var t := Lower("true");
    assert t[0] == 't' && t[1] == 'r' && t[2] == 'u' && t[3] == 'e';
    var u := Lower("TRUE");
    assert u[0] == 't' && u[1] == 'r' && u[2] == 'u' && u[3] == 'e';
    assert |Lower("false")| == 5;
  }

  lemma {:induction false} FilterValuesAppend(a: seq<Condition>, b: seq<Condition>)
    ensures FilterValues(a + b) == FilterValues(a) + FilterValues(b)
    decreases |b|
  {
    if |b| == 0 {
      assert a + b == a;
    } else {
      var b' := b[..|b| - 1];
      var t := Values(b[|b| - 1]);
      assert (a + b)[..|a + b| - 1] == a + b';
      assert FilterValues(a + b) == FilterValues(a + b') + t;
      FilterValuesAppend(a, b');
      assert FilterValues(b) == FilterValues(b') + t;
      assert FilterValues(a) + FilterValues(b') + t == FilterValues(a) + (FilterValues(b') + t);
    }
  }
}
