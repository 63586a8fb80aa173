/** The instructor's course form: editing a field (the price keeps only what precedes its first
    '.'), the validation rules with their error messages, and what a submission sends. Field values
    are the texts the inputs hold; the page's error object is kept as one optional message per
    input. */
module CreateCoursePage {
  import opened Wrappers
  import opened Text
  import opened JsNumber

  datatype CourseForm = CourseForm(
    title: string, description: string, category: string, price: string, qnaLink: string,
    difficultyLevel: string, instructorId: string, status: string)

  /** The inputs of the form: `title`, `description`, `category`, `price`, `qna_link` and
      `difficulty_level`. */
  datatype Field = Title | Description | Category | Price | QnaLink | DifficultyLevel

  function Get(form: CourseForm, f: Field): string {
    match f
    case Title => form.title
    case Description => form.description
    case Category => form.category
    case Price => form.price
    case QnaLink => form.qnaLink
    case DifficultyLevel => form.difficultyLevel
  }

  function Set(form: CourseForm, f: Field, v: string): (r: CourseForm)
    ensures Get(r, f) == v
    ensures forall g :: g != f ==> Get(r, g) == Get(form, g)
    ensures r.instructorId == form.instructorId && r.status == form.status
  {
    match f
    case Title => form.(title := v)
    case Description => form.(description := v)
    case Category => form.(category := v)
    case Price => form.(price := v)
    case QnaLink => form.(qnaLink := v)
    case DifficultyLevel => form.(difficultyLevel := v)
  }

  /** The messages the page shows next to an input; `Cleared` is the empty text an edit leaves. */
  datatype Message =
    | TitleRequired | DescriptionRequired | DescriptionShort | CategoryRequired | PriceRequired
    | PriceInvalid | PriceNotWhole | QnaLinkRequired | DifficultyRequired | Cleared

  function MessageText(m: Message): string {
    match m
    case TitleRequired => "Course title is required"
    case DescriptionRequired => "Course description is required"
    case DescriptionShort => "Description must be at least 50 characters"
    case CategoryRequired => "Category is required"
    case PriceRequired => "Price is required"
    case PriceInvalid => "Price must be a valid number greater than or equal to 0"
    case PriceNotWhole => "Price must be a whole number (no decimals)"
    case QnaLinkRequired => "Q&A link is required"
    case DifficultyRequired => "Difficulty level is required"
    case Cleared => ""
  }

  /** The error recorded for each input, if any. */
  datatype Errors = Errors(
    title: Option<Message>, description: Option<Message>, category: Option<Message>,
    price: Option<Message>, qnaLink: Option<Message>, difficultyLevel: Option<Message>)

  const NoErrors := Errors(None, None, None, None, None, None)

  function ErrorOf(e: Errors, f: Field): Option<Message> {
    match f
    case Title => e.title
    case Description => e.description
    case Category => e.category
    case Price => e.price
    case QnaLink => e.qnaLink
    case DifficultyLevel => e.difficultyLevel
  }

  function WithError(e: Errors, f: Field, m: Option<Message>): (r: Errors)
    ensures ErrorOf(r, f) == m
    ensures forall g :: g != f ==> ErrorOf(r, g) == ErrorOf(e, g)
  {
    match f
    case Title => e.(title := m)
    case Description => e.(description := m)
    case Category => e.(category := m)
    case Price => e.(price := m)
    case QnaLink => e.(qnaLink := m)
    case DifficultyLevel => e.(difficultyLevel := m)
  }

  /** `errors[name]` is truthy: a message other than the empty one is recorded. */
  predicate Shown(e: Errors, f: Field) {
    ErrorOf(e, f).Some? && ErrorOf(e, f).value != Cleared
  }

  datatype State = State(form: CourseForm, errors: Errors)

  /** The price input keeps everything before its first '.': the longest prefix without a '.'. */
  function PriceInput(value: string): (r: string)
    ensures StartsWith(value, r) && '.' !in r
    ensures |r| < |value| ==> value[|r|] == '.'
  {
    value[..IndexOf(value, '.')]
  }

  /** `handleInputChange`: the field takes the typed value (the price truncated before its first
      '.'), every other field keeps its value, and the edited field's error, if any, is cleared
      while every other error stays. */
  function InputChange(st: State, f: Field, value: string): (r: State)
    ensures f == Price ==> StartsWith(value, r.form.price) && '.' !in r.form.price
    ensures f == Price && '.' !in value ==> r.form.price == value
    ensures f != Price ==> Get(r.form, f) == value
    ensures forall g :: g != f ==> Get(r.form, g) == Get(st.form, g)
    ensures r.form.instructorId == st.form.instructorId && r.form.status == st.form.status
    ensures !Shown(r.errors, f)
    ensures ErrorOf(r.errors, f).Some? <==> ErrorOf(st.errors, f).Some?
    ensures forall g :: g != f ==> ErrorOf(r.errors, g) == ErrorOf(st.errors, g)
  {
    var v := if f == Price then PriceInput(value) else value;
    var errors := if Shown(st.errors, f) then WithError(st.errors, f, Some(Cleared)) else st.errors;
    assert '.' !in value ==> IndexOf(value, '.') == |value| && value[..|value|] == value;
    State(Set(st.form, f, v), errors)
  }

  /** `parseFloat(p)` for text `Number` accepts: blank text has no number prefix and is `NaN`, any
      other such text reads as the whole literal. */
  function ParseFloatOfNumeric(p: string): Num
    requires !IsNaN(p)
  {
    if JsTrim(p) == "" then NaN else ToNumber(p)
  }

  predicate BelowZero(x: Num) { x.Dec? && x.scaled < 0 }

  /** The price rule, in the order the checks are made. */
  function PriceError(p: string): (r: Option<Message>)
    ensures r.Some? ==> r.value == PriceRequired || r.value == PriceInvalid || r.value == PriceNotWhole
    ensures r == Some(PriceRequired) <==> p == ""
  {
    if p == "" then Some(PriceRequired)
    else if IsNaN(p) || BelowZero(ParseFloatOfNumeric(p)) then Some(PriceInvalid)
    else if '.' in p || !IsInteger(ParseFloatOfNumeric(p)) then Some(PriceNotWhole)
    else None
  }

  /** A whole, non-negative price as text: an optional sign and at least one digit, optionally
      followed by an exponent part (`e` or `E`, an optional sign, digits). A '-' sign is only
      allowed on zero, and a negative exponent must leave no fraction. */
  predicate WholePriceText(t: string) {
    var m := Mantissa(t);
    SignedDigits(m) && (HasExponent(t) ==> SignedDigits(ExponentText(t)))
    && WholeParts(SignOf(m), DigitsValue(Unsigned(m)), Exponent(t))
  }

  /** Sign, digits and exponent of a whole number that is not below zero. */
  predicate WholeParts(sign: int, d: nat, e: int) {
    (sign == -1 ==> d == 0) && (e < 0 ==> d % Pow10(-e) == 0)
  }

  /** The integer a whole price denotes: the mantissa's digits times ten to the exponent. */
  function WholePriceValue(t: string): (n: nat)
    requires WholePriceText(t)
  {
    var d := DigitsValue(Unsigned(Mantissa(t)));
    var e := Exponent(t);
    if e >= 0 then d * Pow10(e) else d / Pow10(-e)
  }

  /** The price passes exactly when, white space around it aside, it is a whole number that is
      not below zero. */
  lemma PriceAcceptedIff(p: string)
    ensures PriceError(p).None? <==> WholePriceText(JsTrim(p))
  {
    if PriceError(p).None? {
      AcceptedPriceIsWhole(p);
    }
    if WholePriceText(JsTrim(p)) {
      WholePriceIsAccepted(p);
    }
  }

  lemma AcceptedPriceIsWhole(p: string)
    requires PriceError(p).None?
    ensures WholePriceText(JsTrim(p))
  {
    AcceptedPriceFacts(p);
    var t := JsTrim(p);
    var m := Mantissa(t);
    NoDotMantissa(t);
    NumberOfSignedMantissa(p);
    ScaledWholeIff(SignOf(m), DigitsValue(Unsigned(m)), Exponent(t));
  }

  /** A signed integer with no fraction digits, scaled by `10^e`, is whole and not below zero
      exactly when a '-' sign goes with zero and a negative exponent leaves no remainder; which
      whole number it then is. */
  lemma ScaledWholeIff(sign: int, d: nat, e: int)
    requires sign == 1 || sign == -1
    ensures var x := Scaled(sign * d, 0, e);
      (x.scaled >= 0 && IsInteger(x)) <==> WholeParts(sign, d, e)
    ensures var x := Scaled(sign * d, 0, e);
      x.scaled >= 0 ==> x.scaled / Pow10(x.scale) == if e >= 0 then d * Pow10(e) else d / Pow10(-e)
  {
    if sign == -1 && d != 0 {
      assert sign * d < 0;
    } else {
      assert sign * d == d;
    }
    assert Pow10(0) == 1;
  }

  /** What passing the price checks says about `Number(p)`. */
  lemma AcceptedPriceFacts(p: string)
    requires PriceError(p).None?
    ensures JsTrim(p) != "" && '.' !in JsTrim(p)
    ensures ToNumber(p).Dec? && ToNumber(p).scaled >= 0 && IsInteger(ToNumber(p))
    ensures NumberLiteral(JsTrim(p))
  {
    assert p != "" && !IsNaN(p) && '.' !in p;
    assert JsTrim(p) != "" && ParseFloatOfNumeric(p) == ToNumber(p);
    assert '.' !in JsTrim(p) by {
      StripTakesFrom(p, JsIsSpace);
    }
  }

  /** A literal without '.' has a sign-and-digits mantissa. */
  lemma NoDotMantissa(t: string)
    requires NumberLiteral(t) && '.' !in t
    ensures SignedDigits(Mantissa(t))
  {
    var m := Mantissa(t);
    assert forall i :: 0 <= i < |m| ==> m[i] == t[i];
    NoDotUnsigned(m);
    var u := Unsigned(m);
    assert IntegerPart(u) == u[..|u|] == u;
  }

  lemma WholePriceIsAccepted(p: string)
    requires WholePriceText(JsTrim(p))
    ensures PriceError(p).None?
  {
    WholePriceNumber(p);
    NoDotInWholePrice(p);
    assert p != "";
    assert !IsNaN(p);
    assert ParseFloatOfNumeric(p) == ToNumber(p);
  }

  /** `Number` of a whole price is a whole number that is not below zero. */
  lemma WholePriceNumber(p: string)
    requires WholePriceText(JsTrim(p))
    ensures JsTrim(p) != ""
    ensures ToNumber(p).Dec? && ToNumber(p).scaled >= 0 && IsInteger(ToNumber(p))
  {
    var t := JsTrim(p);
    var m := Mantissa(t);
    NumberOfSignedMantissa(p);
    ScaledWholeIff(SignOf(m), DigitsValue(Unsigned(m)), Exponent(t));
  }

  /** Text that trims to a whole price holds no '.': the trimmed text has none, and trimming
      only removes white space. */
  lemma NoDotInWholePrice(p: string)
    requires WholePriceText(JsTrim(p))
    ensures '.' !in p
  {
    NoDotInNumberText(JsTrim(p));
    StripKeepsNonSpace(p, JsIsSpace);
    assert !JsIsSpace('.');
  }

  /** A mantissa of sign and digits, with an exponent part of sign and digits if any, holds no
      '.'. */
  lemma NoDotInNumberText(t: string)
    requires SignedDigits(Mantissa(t)) && (HasExponent(t) ==> SignedDigits(ExponentText(t)))
    ensures '.' !in t
  {
    var k := ExponentIndex(t);
    var m := Mantissa(t);
    NoDotInSignedDigits(m);
    if k < |t| {
      var x := ExponentText(t);
      NoDotInSignedDigits(x);
      assert t == m + [t[k]] + x;
    } else {
      assert t == m;
    }
  }

  lemma NoDotInSignedDigits(t: string)
    requires SignedDigits(t)
    ensures '.' !in t
  {
    var u := Unsigned(t);
    var off := if IsSignChar(t[0]) then 1 else 0;
    assert forall i :: off <= i < |t| ==> t[i] == u[i - off];
  }

  /** What `parseInt` reads from an accepted price: the digits before any exponent part, a
      non-negative integer; it is the price's value exactly when there is no exponent part. */
  lemma AcceptedPriceParses(p: string)
    requires PriceError(p).None?
    ensures WholePriceText(JsTrim(p))
    ensures ParseInt(p) == Some(DigitsValue(Unsigned(Mantissa(JsTrim(p)))))
    ensures !HasExponent(JsTrim(p)) ==> ToNumber(p) == Dec(ParseInt(p).value, 0)
  {
    var t := JsTrim(p);
    var m := Mantissa(t);
    AcceptedPriceIsWhole(p);
    ParseIntReadsMantissa(p);
    assert SignOf(m) * DigitsValue(Unsigned(m)) == DigitsValue(Unsigned(m));
    if !HasExponent(t) {
      AcceptedPriceFacts(p);
      ParseIntAgreesWithNumber(p);
    }
  }

  /** `Number(p)` of an accepted price is its whole value. */
  lemma AcceptedPriceValue(p: string)
    requires PriceError(p).None?
    ensures WholePriceText(JsTrim(p))
    ensures ToNumber(p).Dec? && ToNumber(p).scaled / Pow10(ToNumber(p).scale) == WholePriceValue(JsTrim(p))
  {
    var t := JsTrim(p);
    var m := Mantissa(t);
    AcceptedPriceIsWhole(p);
    NumberOfSignedMantissa(p);
    ScaledWholeIff(SignOf(m), DigitsValue(Unsigned(m)), Exponent(t));
  }

  lemma AcceptablePriceParses(form: CourseForm)
    ensures FieldOk(form, Price) ==> ParseInt(form.price).Some? && ParseInt(form.price).value >= 0
  {
    if WholePriceText(JsTrim(form.price)) {
      WholePriceIsAccepted(form.price);
      AcceptedPriceParses(form.price);
    }
  }

  /** The rule each input must meet, stated positively. */
  predicate FieldOk(form: CourseForm, f: Field) {
    match f
    case Title => !JsBlank(form.title)
    case Description => Utf16Length(JsTrim(form.description)) >= 50
    case Category => form.category != ""
    case Price => WholePriceText(JsTrim(form.price))
    case QnaLink => !JsBlank(form.qnaLink)
    case DifficultyLevel => form.difficultyLevel != ""
  }

  /** What a form must look like to be submitted for review. */
  predicate Acceptable(form: CourseForm) {
    FieldOk(form, Title) && FieldOk(form, Description) && FieldOk(form, Category)
    && FieldOk(form, Price) && FieldOk(form, QnaLink) && FieldOk(form, DifficultyLevel)
  }

  /** `validateForm`: the description is reported missing when blank and too short otherwise; the
      price's message is the first price check that fails. */
  function Validate(form: CourseForm): (r: Errors)
    ensures r.description.Some? ==> (r.description == Some(DescriptionRequired) <==> JsBlank(form.description))
    ensures r.price.Some? ==> r.price == PriceError(form.price)
  {
    Errors(
      if JsBlank(form.title) then Some(TitleRequired) else None,
      if JsBlank(form.description) then Some(DescriptionRequired)
      else if Utf16Length(JsTrim(form.description)) < 50 then Some(DescriptionShort)
      else None,
      if form.category == "" then Some(CategoryRequired) else None,
      PriceError(form.price),
      if JsBlank(form.qnaLink) then Some(QnaLinkRequired) else None,
      if form.difficultyLevel == "" then Some(DifficultyRequired) else None)
  }

  /** An error is recorded for exactly the inputs whose rule fails, and none of them is empty. */
  lemma ValidateReportsFailedRules(form: CourseForm, f: Field)
    ensures ErrorOf(Validate(form), f).Some? <==> !FieldOk(form, f)
    ensures ErrorOf(Validate(form), f) != Some(Cleared)
  {
    if f == Price {
      PriceAcceptedIff(form.price);
    } else if f == Description {
      JsBlankIsTrimEmpty(form.description);
    }
  }

  /** The form is valid (nothing recorded) exactly when it is acceptable. */
  lemma ValidIffAcceptable(form: CourseForm)
    ensures Validate(form) == NoErrors <==> Acceptable(form)
  {
    NoErrorsMeansAcceptable(form);
    AcceptableMeansNoErrors(form);
  }

  lemma NoErrorsMeansAcceptable(form: CourseForm)
    ensures Validate(form) == NoErrors ==> Acceptable(form)
  {
    if Validate(form) == NoErrors {
      ValidateReportsFailedRules(form, Title);
      ValidateReportsFailedRules(form, Description);
      ValidateReportsFailedRules(form, Category);
      ValidateReportsFailedRules(form, Price);
      ValidateReportsFailedRules(form, QnaLink);
      ValidateReportsFailedRules(form, DifficultyLevel);
    }
  }

  lemma AcceptableMeansNoErrors(form: CourseForm)
    ensures Acceptable(form) ==> Validate(form) == NoErrors
  {
    if Acceptable(form) {
      FieldPasses(form, Title);
      FieldPasses(form, Description);
      FieldPasses(form, Category);
      FieldPasses(form, Price);
      FieldPasses(form, QnaLink);
      FieldPasses(form, DifficultyLevel);
      NothingRecorded(Validate(form));
    }
  }

  lemma FieldPasses(form: CourseForm, f: Field)
    requires FieldOk(form, f)
    ensures ErrorOf(Validate(form), f) == None
  {
    ValidateReportsFailedRules(form, f);
  }

  lemma NothingRecorded(e: Errors)
    requires forall f :: ErrorOf(e, f) == None
    ensures e == NoErrors
  {
    assert ErrorOf(e, Title) == None && ErrorOf(e, Description) == None && ErrorOf(e, Category) == None;
    assert ErrorOf(e, Price) == None && ErrorOf(e, QnaLink) == None && ErrorOf(e, DifficultyLevel) == None;
  }

  /** The body of the create or update request. */
  datatype Payload = Payload(
    title: string, description: string, category: string, price: Option<int>, qnaLink: string,
    difficultyLevel: Option<int>, instructorId: string, status: string)

  datatype Submission = Submission(errors: Errors, request: Option<Payload>)

  /** `submitCourse(isDraft)`: the form is always validated and its errors shown; a request is
      sent when the form is valid or when saving a draft. The status sent is "draft" for a draft
      and "pending" otherwise, and price and difficulty are read with `parseInt`. */
  function Submit(form: CourseForm, isDraft: bool): (r: Submission)
    ensures r.errors == Validate(form)
    ensures r.request.Some? <==> isDraft || Acceptable(form)
    ensures r.request.Some? ==> r.request.value.status == if isDraft then "draft" else "pending"
    ensures r.request.Some? ==>
              var q := r.request.value;
              q.title == form.title && q.description == form.description && q.category == form.category
              && q.qnaLink == form.qnaLink && q.instructorId == form.instructorId
    ensures r.request.Some? && !isDraft ==>
              r.request.value.price.Some? && r.request.value.price.value >= 0
    ensures r.request.Some? ==> r.request.value.price == ParseInt(form.price)
                                && r.request.value.difficultyLevel == ParseInt(form.difficultyLevel)
  {
    var errors := Validate(form);
    ValidIffAcceptable(form);
    AcceptablePriceParses(form);
    if errors != NoErrors && !isDraft then Submission(errors, None)
    else
      Submission(errors, Some(Payload(
        form.title, form.description, form.category, ParseInt(form.price), form.qnaLink,
        ParseInt(form.difficultyLevel), form.instructorId, if isDraft then "draft" else "pending")))
  }

  /** As written, a price with an exponent part passes the checks as the whole number it
      denotes, yet `parseInt` stops at the 'e': "1e3" is accepted as 1000 and sent as 1. */
  lemma ExponentPriceSentAsMantissa(form: CourseForm)
    requires form.price == "1e3"
    ensures PriceError(form.price).None?
    ensures WholePriceText(JsTrim(form.price)) && WholePriceValue(JsTrim(form.price)) == 1000
    ensures Submit(form, true).request.Some? && Submit(form, true).request.value.price == Some(1)
  {
    OneEThreeIsWhole();
    PriceAcceptedIff("1e3");
    OneEThreeParses();
  }

  /** "1e3" is, as a price, the whole number 1000. */
  lemma OneEThreeIsWhole()
    ensures JsTrim("1e3") == "1e3" && WholePriceText("1e3") && WholePriceValue("1e3") == 1000
  {
    var t := "1e3";
    NoSpaceInOneEThree();
    assert ExponentIndex(t) == 1;
    assert Mantissa(t) == "1" && ExponentText(t) == "3";
    assert Unsigned("1") == "1" && Unsigned("3") == "3";
    assert DigitsValue("1") == 1 && DigitsValue("3") == 3;
    assert Exponent(t) == 3;
    assert Pow10(3) == 1000;
  }

  lemma NoSpaceInOneEThree()
    ensures JsTrim("1e3") == "1e3" && StripStart("1e3", JsIsSpace) == "1e3"
  {
    var t := "1e3";
    assert forall i :: 0 <= i < |t| ==> !JsIsSpace(t[i]);
  }

  /** `parseInt("1e3")` is 1. */
  lemma OneEThreeParses()
    ensures ParseInt("1e3") == Some(1)
  {
    var t := "1e3";
    var u := Unsigned(StripStart(t, JsIsSpace));
    NoSpaceInOneEThree();
    assert u == t;
    DigitRunOfPrefix(u, 1);
    assert u[..1] == "1";
    assert DigitsValue("1") == 1;
  }

  /** The submission as evidently intended: an accepted price is sent as the whole number the
      checks accepted; a draft's unaccepted price is still read with `parseInt`. */
  function SubmitIntended(form: CourseForm, isDraft: bool): (r: Submission)
    ensures r.errors == Validate(form)
    ensures r.request.Some? <==> isDraft || Acceptable(form)
    ensures r.request.Some? && WholePriceText(JsTrim(form.price)) ==>
              r.request.value.price == Some(WholePriceValue(JsTrim(form.price)))
    ensures r.request.Some? && PriceError(form.price).Some? ==> r.request.value.price == ParseInt(form.price)
    ensures r.request.Some? && !isDraft ==> r.request.value.price.Some? && r.request.value.price.value >= 0
  {
    var s := Submit(form, isDraft);
    PriceAcceptedIff(form.price);
    match s.request
    case None => s
    case Some(q) =>
      if PriceError(form.price).None? then
        Submission(s.errors, Some(q.(price := Some(WholePriceValue(JsTrim(form.price))))))
      else s
  }

  /** The intended submission sends an accepted price as the value `Number` gives it. */
  lemma IntendedPriceIsNumber(form: CourseForm, isDraft: bool)
    requires SubmitIntended(form, isDraft).request.Some? && PriceError(form.price).None?
    ensures WholePriceText(JsTrim(form.price)) && ToNumber(form.price).Dec?
    ensures SubmitIntended(form, isDraft).request.value.price
            == Some(ToNumber(form.price).scaled / Pow10(ToNumber(form.price).scale))
  {
    AcceptedPriceValue(form.price);
  }

  /** Without an exponent part the intended submission and the written one send the same. */
  lemma SubmitIntendedAgrees(form: CourseForm, isDraft: bool)
    requires !HasExponent(JsTrim(form.price))
    ensures SubmitIntended(form, isDraft) == Submit(form, isDraft)
  {
    var t := JsTrim(form.price);
    PriceAcceptedIff(form.price);
    if Submit(form, isDraft).request.Some? && WholePriceText(t) {
      AcceptedPriceParses(form.price);
      assert ExponentText(t) == "" && Exponent(t) == 0;
      assert WholePriceValue(t) == DigitsValue(Unsigned(Mantissa(t))) * Pow10(0);
      var q := Submit(form, isDraft).request.value;
      assert q.price == ParseInt(form.price) == Some(WholePriceValue(t));
      assert q.(price := Some(WholePriceValue(t))) == q;
    }
  }

  /** A draft is saved whatever the form holds. */
  lemma DraftAlwaysSaved(form: CourseForm)
    ensures Submit(form, true).request.Some?
    ensures Submit(form, true).request.value.status == "draft"
  {
  }
}
