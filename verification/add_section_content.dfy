/** The instructor's form for adding content to a section: the order number a new item gets,
    editing an input (with its length limits and the `visual_material` alias), the assessment
    question editor, the validation rules of each content type, and what a submission sends.
    Inputs hold text; a numeric default is the decimal text of its number. */
module AddSectionContent {
  import opened Wrappers
  import opened Text
  import opened JsNumber
  import Json
  import Calendar
  import Db

  /** `item.order_number || 0`: a missing order number counts as zero. */
  function OrderOf(o: Option<int>): int {
    if o.Some? then o.value else 0
  }

  /** `Math.max(0, ...orders) + 1`: one more than the largest order number of the section's
      items, and 1 when there is none above zero. */
  function NextOrderNumber(orders: seq<Option<int>>): (r: int)
    ensures r >= 1
    ensures forall i :: 0 <= i < |orders| ==> OrderOf(orders[i]) < r
    ensures r == 1 || exists i :: 0 <= i < |orders| && r == OrderOf(orders[i]) + 1
  {
    if |orders| == 0 then 1
    else
      var rest := NextOrderNumber(orders[1..]);
      assert forall i :: 1 <= i < |orders| ==> orders[i] == orders[1..][i - 1];
      if OrderOf(orders[0]) + 1 > rest then OrderOf(orders[0]) + 1 else rest
  }

  datatype ContentForm = ContentForm(
    title: string, allocatedTime: string, contentType: string, orderNumber: string,
    passingGrade: string, maxTime: string, taskType: string, percentage: string,
    questionCount: string, startDate: string, endDate: string, uploadMaterial: string,
    duration: string)

  /** The inputs of the form, one per entry of the page's `contentData`. */
  datatype Field =
    | Title | AllocatedTime | ContentType | OrderNumber | PassingGrade | MaxTime | TaskType
    | Percentage | QuestionCount | StartDate | EndDate | UploadMaterial | Duration

  function Get(form: ContentForm, f: Field): string {
    match f
    case Title => form.title
    case AllocatedTime => form.allocatedTime
    case ContentType => form.contentType
    case OrderNumber => form.orderNumber
    case PassingGrade => form.passingGrade
    case MaxTime => form.maxTime
    case TaskType => form.taskType
    case Percentage => form.percentage
    case QuestionCount => form.questionCount
    case StartDate => form.startDate
    case EndDate => form.endDate
    case UploadMaterial => form.uploadMaterial
    case Duration => form.duration
  }

  function Set(form: ContentForm, f: Field, v: string): (r: ContentForm)
    ensures Get(r, f) == v
    ensures forall g :: g != f ==> Get(r, g) == Get(form, g)
  {
    match f
    case Title => form.(title := v)
    case AllocatedTime => form.(allocatedTime := v)
    case ContentType => form.(contentType := v)
    case OrderNumber => form.(orderNumber := v)
    case PassingGrade => form.(passingGrade := v)
    case MaxTime => form.(maxTime := v)
    case TaskType => form.(taskType := v)
    case Percentage => form.(percentage := v)
    case QuestionCount => form.(questionCount := v)
    case StartDate => form.(startDate := v)
    case EndDate => form.(endDate := v)
    case UploadMaterial => form.(uploadMaterial := v)
    case Duration => form.(duration := v)
  }

  /** The form as the page opens it: a document, the defaults for the task inputs, the given
      dates (today and a week later), and the order number after the section's existing items. */
  function InitialForm(today: string, weekLater: string, orders: seq<Option<int>>): ContentForm {
    ContentForm(
      "", "", "document", Json.IntToText(NextOrderNumber(orders)),
      Json.IntToText(70), Json.IntToText(60), "assignment", Json.IntToText(10),
      Json.IntToText(5), today, weekLater, "pdf", Json.IntToText(10))
  }

  /** An answer option of a multiple-choice question. */
  datatype Choice = Choice(id: int, text: string, isCorrect: bool)

  /** A question of an assessment being written; `correctAnswer` is `None` for `null`. */
  datatype Question = Question(
    id: int, body: string, questionType: string, maxTime: string, options: seq<Choice>,
    correctAnswer: Option<string>, explanation: string)

  /** Where an error is shown: next to an input, the file picker, the question list, or one
      part of the question with the given id. */
  datatype ErrorKey =
    | FieldKey(field: Field) | FileKey | QuestionsKey
    | BodyKey(qid: int) | OptionsKey(qid: int) | CorrectKey(qid: int) | AnswerKey(qid: int)

  /** The messages the page shows; a question's messages carry its 1-based position, and
      `Cleared` is the empty text an edit leaves. */
  datatype Message =
    | TitleRequired | TimeNotPositive | FileRequired | PassingGradeRange | MaxTimeNotPositive
    | PercentageRange | StartDateRequired | EndDateRequired | EndDateNotAfterStart
    | UploadRequired | QuestionsRequired | BodyRequired(n: nat) | TooFewOptions(n: nat)
    | NoCorrectOption(n: nat) | AnswerRequired(n: nat) | DurationNotPositive | Cleared

  function MessageText(m: Message): string {
    match m
    case TitleRequired => "Content title is required"
    case TimeNotPositive => "Time must be a positive number"
    case FileRequired => "A file is required for this content type"
    case PassingGradeRange => "Passing grade must be between 0 and 100"
    case MaxTimeNotPositive => "Maximum time must be a positive number"
    case PercentageRange => "Percentage must be between 0 and 100"
    case StartDateRequired => "Start date is required"
    case EndDateRequired => "End date is required"
    case EndDateNotAfterStart => "End date must be after start date"
    case UploadRequired => "Allowed upload formats are required"
    case QuestionsRequired => "At least one question is required for assessment"
    case BodyRequired(n) => "Question " + NatToDecimal(n) + " text is required"
    case TooFewOptions(n) => "Question " + NatToDecimal(n) + " must have at least 2 options"
    case NoCorrectOption(n) => "Question " + NatToDecimal(n) + " must have a correct answer selected"
    case AnswerRequired(n) => "Question " + NatToDecimal(n) + " must have a correct answer"
    case DurationNotPositive => "Duration must be a positive number"
    case Cleared => ""
  }

  type Errors = map<ErrorKey, Message>

  /** `errors[key]` is truthy: a message other than the empty one is recorded. */
  predicate Shown(errors: Errors, k: ErrorKey) {
    k in errors && errors[k] != Cleared
  }

  /** Blanks the message at `k` when one is shown; no key is added or removed. */
  function ClearError(errors: Errors, k: ErrorKey): (r: Errors)
    ensures r.Keys == errors.Keys && !Shown(r, k)
    ensures forall j :: j in errors && j != k ==> r[j] == errors[j]
  {
    if Shown(errors, k) then errors[k := Cleared] else errors
  }

  /** The page's state: the form, the errors shown, the questions of the assessment editor,
      whether that editor is shown, and whether a file is chosen. */
  datatype Page = Page(
    form: ContentForm, errors: Errors, questions: seq<Question>, showCreator: bool,
    hasFile: bool)

  /** The value an input keeps: upload formats are cut to 3 UTF-16 code units and task types to
      10, and the content type `visual_material` is stored as `visual`. */
  function Processed(f: Field, value: string): (v: string)
    ensures f == UploadMaterial ==> v == Utf16Prefix(value, 3)
    ensures f == TaskType ==> v == Utf16Prefix(value, 10)
    ensures f == UploadMaterial ==> Utf16Length(v) <= 3 && StartsWith(value, v) && (Utf16Length(value) <= 3 ==> v == value)
    ensures f == TaskType ==> Utf16Length(v) <= 10 && StartsWith(value, v) && (Utf16Length(value) <= 10 ==> v == value)
    ensures f == ContentType ==> v == if value == "visual_material" then "visual" else value
    ensures f != UploadMaterial && f != TaskType && f != ContentType ==> v == value
  {
    if f == UploadMaterial && Utf16Length(value) > 3 then Utf16Prefix(value, 3)
    else if f == TaskType && Utf16Length(value) > 10 then Utf16Prefix(value, 10)
    else if f == ContentType && value == "visual_material" then "visual"
    else value
  }

  /** `handleInputChange`: the input takes its processed value and no other input changes; the
      input's error is cleared; a task type of "assessment" opens the question editor and any
      other task type closes it and drops every question. */
  function InputChange(p: Page, f: Field, value: string): (r: Page)
    ensures Get(r.form, f) == Processed(f, value)
    ensures forall g :: g != f ==> Get(r.form, g) == Get(p.form, g)
    ensures r.errors.Keys == p.errors.Keys && !Shown(r.errors, FieldKey(f))
    ensures forall k :: k in p.errors && k != FieldKey(f) ==> r.errors[k] == p.errors[k]
    ensures f == TaskType ==> (r.showCreator <==> Utf16Prefix(value, 10) == "assessment")
    ensures f == TaskType && !r.showCreator ==> r.questions == []
    ensures f != TaskType || r.showCreator ==> r.questions == p.questions
    ensures f != TaskType ==> r.showCreator == p.showCreator
    ensures r.hasFile == p.hasFile
  {
    var v := Processed(f, value);
    var errors := ClearError(p.errors, FieldKey(f));
    if f != TaskType then Page(Set(p.form, f, v), errors, p.questions, p.showCreator, p.hasFile)
    else if v == "assessment" then Page(Set(p.form, f, v), errors, p.questions, true, p.hasFile)
    else Page(Set(p.form, f, v), errors, [], false, p.hasFile)
  }

  /** `handleFileChange`: choosing a file records it and clears the file error; an empty
      selection changes nothing. */
  function FileChange(p: Page, chosen: bool): (r: Page)
    ensures chosen ==> r.hasFile && !Shown(r.errors, FileKey) && r.errors.Keys == p.errors.Keys
    ensures !chosen ==> r == p
    ensures r.form == p.form && r.questions == p.questions
  {
    if chosen then p.(hasFile := true, errors := ClearError(p.errors, FileKey)) else p
  }

  // ---- The question editor

  /** A new question of the given type: blank, with two blank options numbered 1 and 2 when it
      is a multiple-choice question, and an empty answer when it is a text question. */
  function NewQuestion(id: int, questionType: string): Question {
    Question(
      id, "", questionType, Json.IntToText(5),
      if questionType == "multiple_choice" then [Choice(1, "", false), Choice(2, "", false)] else [],
      if questionType == "text" then Some("") else None, "")
  }

  /** `addQuestion(type)`; `id` is the clock reading the page uses as the new question's id. */
  function AddQuestion(qs: seq<Question>, id: int, questionType: string): (r: seq<Question>)
    ensures |r| == |qs| + 1 && r[..|qs|] == qs
    ensures r[|qs|].id == id && r[|qs|].questionType == questionType && JsBlank(r[|qs|].body)
  {
    qs + [NewQuestion(id, questionType)]
  }

  predicate HasId(q: Question, id: int) { q.id == id }

  /** The test `removeQuestion` keeps a question by. */
  function OtherQuestion(id: int): Question -> bool {
    (q: Question) => q.id != id
  }

  /** `removeQuestion(id)`: the questions with another id, in order. */
  function RemoveQuestion(qs: seq<Question>, id: int): (r: seq<Question>)
    ensures forall i :: 0 <= i < |r| ==> r[i].id != id && r[i] in qs
    ensures forall q :: q in qs && q.id != id ==> q in r
    ensures Db.Sublist(r, qs) && |r| == Db.Count(qs, OtherQuestion(id))
    ensures forall q :: multiset(r)[q] == if q.id != id then multiset(qs)[q] else 0
    ensures (forall i :: 0 <= i < |qs| ==> qs[i].id != id) ==> r == qs
  {
    Db.FilterSublist(qs, OtherQuestion(id));
    Db.FilterMultiplicity(qs, OtherQuestion(id));
    if forall i :: 0 <= i < |qs| ==> qs[i].id != id then
      Db.FilterAll(qs, OtherQuestion(id));
      Db.Filter(qs, OtherQuestion(id))
    else Db.Filter(qs, OtherQuestion(id))
  }

  /** Adding a question under an id no question has, then removing that id, gives back the
      list. */
  lemma AddThenRemoveQuestion(qs: seq<Question>, id: int, questionType: string)
    requires forall i :: 0 <= i < |qs| ==> qs[i].id != id
    ensures RemoveQuestion(AddQuestion(qs, id, questionType), id) == qs
  {
    var keep := OtherQuestion(id);
    Db.FilterAppend(qs, [NewQuestion(id, questionType)], keep);
    Db.FilterAll(qs, keep);
    assert Db.Filter([NewQuestion(id, questionType)], keep) == [];
  }

  /** Applies `g` to each question with the given id, leaving the others as they are. */
  function Where(qs: seq<Question>, id: int, g: Question -> Question): (r: seq<Question>)
    ensures |r| == |qs|
    ensures forall i :: 0 <= i < |qs| ==> r[i] == if qs[i].id == id then g(qs[i]) else qs[i]
  {
    seq(|qs|, i requires 0 <= i < |qs| => if qs[i].id == id then g(qs[i]) else qs[i])
  }

  /** The `field` and `value` of `updateQuestion`. */
  datatype QuestionEdit =
    | EditBody(text: string) | EditType(text: string) | EditMaxTime(text: string)
    | EditAnswer(text: string) | EditExplanation(text: string)

  /** The max-time input's `onChange` value, `parseInt(value) || 5`: text that does not start with
      an integer, and 0, give 5. The question keeps the number as its decimal text. */
  function MaxTimeEntry(text: string): (r: string)
    ensures ParseInt(text).Some? && ParseInt(text).value != 0 ==> ParseInt(r) == ParseInt(text)
    ensures ParseInt(text).None? || ParseInt(text) == Some(0) ==> ParseInt(r) == Some(5)
    ensures ParseInt(r).Some? && ParseInt(r).value != 0
  {
    var n := match ParseInt(text) case Some(k) => if k != 0 then k else 5 case None => 5;
    IntegerTextRoundTrip(n);
    Json.IntToText(n)
  }

  /** Entering a value the input already shows changes nothing. */
  lemma MaxTimeEntryIdempotent(text: string)
    ensures MaxTimeEntry(MaxTimeEntry(text)) == MaxTimeEntry(text)
  {
    var n := ParseInt(MaxTimeEntry(text)).value;
    assert MaxTimeEntry(text) == Json.IntToText(n);
  }

  /** `{ ...q, [field]: value }`: the named field takes the value and nothing else changes. The
      max-time input sends `EditMaxTime(MaxTimeEntry(value))`. */
  function ApplyEdit(q: Question, e: QuestionEdit): (r: Question)
    ensures r.id == q.id && r.options == q.options
    ensures e.EditBody? ==> r.body == e.text
    ensures e.EditType? ==> r.questionType == e.text
    ensures e.EditMaxTime? ==> r.maxTime == e.text
    ensures e.EditAnswer? ==> r.correctAnswer == Some(e.text)
    ensures e.EditExplanation? ==> r.explanation == e.text
    ensures !e.EditBody? ==> r.body == q.body
    ensures !e.EditType? ==> r.questionType == q.questionType
    ensures !e.EditMaxTime? ==> r.maxTime == q.maxTime
    ensures !e.EditAnswer? ==> r.correctAnswer == q.correctAnswer
    ensures !e.EditExplanation? ==> r.explanation == q.explanation
  {
    match e
    case EditBody(t) => q.(body := t)
    case EditType(t) => q.(questionType := t)
    case EditMaxTime(t) => q.(maxTime := t)
    case EditAnswer(t) => q.(correctAnswer := Some(t))
    case EditExplanation(t) => q.(explanation := t)
  }

  /** `updateQuestion(id, field, value)`: only the questions with that id change, and only in the
      named field. */
  function UpdateQuestion(qs: seq<Question>, id: int, e: QuestionEdit): (r: seq<Question>)
    ensures |r| == |qs|
    ensures forall i :: 0 <= i < |qs| && qs[i].id != id ==> r[i] == qs[i]
    ensures forall i :: 0 <= i < |qs| && qs[i].id == id ==> r[i] == ApplyEdit(qs[i], e)
  {
    Where(qs, id, (q: Question) => ApplyEdit(q, e))
  }

  /** `addOption(id)`: each question with that id gets a blank, incorrect option with the given
      id (the page's clock reading) after its others. */
  function AddOption(qs: seq<Question>, id: int, optionId: int): (r: seq<Question>)
    ensures |r| == |qs|
    ensures forall i :: 0 <= i < |qs| && qs[i].id != id ==> r[i] == qs[i]
    ensures forall i :: 0 <= i < |qs| && qs[i].id == id ==>
              r[i] == qs[i].(options := qs[i].options + [Choice(optionId, "", false)])
  {
    Where(qs, id, (q: Question) => q.(options := q.options + [Choice(optionId, "", false)]))
  }

  /** The test `removeOption` keeps an option by. */
  function OtherOption(optionId: int): Choice -> bool {
    (c: Choice) => c.id != optionId
  }

  /** The options of `q` whose id is not `optionId`, in order. */
  function WithoutOption(q: Question, optionId: int): (r: Question)
    ensures r == q.(options := r.options)
    ensures forall j :: 0 <= j < |r.options| ==> r.options[j].id != optionId && r.options[j] in q.options
    ensures forall c :: c in q.options && c.id != optionId ==> c in r.options
    ensures Db.Sublist(r.options, q.options) && |r.options| == Db.Count(q.options, OtherOption(optionId))
    ensures forall c :: multiset(r.options)[c] == if c.id != optionId then multiset(q.options)[c] else 0
  {
    Db.FilterSublist(q.options, OtherOption(optionId));
    Db.FilterMultiplicity(q.options, OtherOption(optionId));
    q.(options := Db.Filter(q.options, OtherOption(optionId)))
  }

  /** `removeOption(id, optionId)`: the matching questions lose exactly the options with that
      id; no other question changes. */
  function RemoveOption(qs: seq<Question>, id: int, optionId: int): (r: seq<Question>)
    ensures |r| == |qs|
    ensures forall i :: 0 <= i < |qs| && qs[i].id != id ==> r[i] == qs[i]
    ensures forall i :: 0 <= i < |qs| && qs[i].id == id ==> r[i] == WithoutOption(qs[i], optionId)
  {
    Where(qs, id, (q: Question) => WithoutOption(q, optionId))
  }

  /** The `field` and `value` of `updateOption`. */
  datatype ChoiceEdit = EditText(text: string) | EditCorrect(correct: bool)

  function ApplyChoiceEdit(c: Choice, e: ChoiceEdit): (r: Choice)
    ensures r.id == c.id
    ensures r.text == if e.EditText? then e.text else c.text
    ensures r.isCorrect == if e.EditCorrect? then e.correct else c.isCorrect
  {
    match e
    case EditText(t) => c.(text := t)
    case EditCorrect(b) => c.(isCorrect := b)
  }

  /** The options of `q` with the edit applied to those whose id is `optionId`. */
  function EditOption(q: Question, optionId: int, e: ChoiceEdit): (r: Question)
    ensures r == q.(options := r.options) && |r.options| == |q.options|
    ensures forall j :: 0 <= j < |q.options| ==>
              r.options[j] == if q.options[j].id == optionId then ApplyChoiceEdit(q.options[j], e) else q.options[j]
  {
    q.(options := seq(|q.options|, j requires 0 <= j < |q.options| =>
      if q.options[j].id == optionId then ApplyChoiceEdit(q.options[j], e) else q.options[j]))
  }

  /** `updateOption(id, optionId, field, value)`: only the named option of the matching
      questions changes, and only in the named field. */
  function UpdateOption(qs: seq<Question>, id: int, optionId: int, e: ChoiceEdit): (r: seq<Question>)
    ensures |r| == |qs|
    ensures forall i :: 0 <= i < |qs| && qs[i].id != id ==> r[i] == qs[i]
    ensures forall i :: 0 <= i < |qs| && qs[i].id == id ==> r[i] == EditOption(qs[i], optionId, e)
  {
    Where(qs, id, (q: Question) => EditOption(q, optionId, e))
  }

  /** Marks as correct exactly the options of `q` whose id is `optionId`. */
  function MarkCorrect(q: Question, optionId: int): (r: Question)
    ensures r == q.(options := r.options) && |r.options| == |q.options|
    ensures forall j :: 0 <= j < |q.options| ==>
              r.options[j].id == q.options[j].id && r.options[j].text == q.options[j].text
              && (r.options[j].isCorrect <==> q.options[j].id == optionId)
  {
    q.(options := seq(|q.options|, j requires 0 <= j < |q.options| =>
      q.options[j].(isCorrect := q.options[j].id == optionId)))
  }

  /** `setCorrectAnswer(id, optionId)`: in the matching questions an option is marked correct
      exactly when it has that id; no other question changes. */
  function SetCorrectAnswer(qs: seq<Question>, id: int, optionId: int): (r: seq<Question>)
    ensures |r| == |qs|
    ensures forall i :: 0 <= i < |qs| && qs[i].id != id ==> r[i] == qs[i]
    ensures forall i :: 0 <= i < |qs| && qs[i].id == id ==> r[i] == MarkCorrect(qs[i], optionId)
  {
    Where(qs, id, (q: Question) => MarkCorrect(q, optionId))
  }

  /** `options.some(opt => opt.is_correct)`. */
  predicate HasCorrect(options: seq<Choice>) {
    exists j :: 0 <= j < |options| && options[j].isCorrect
  }

  predicate DistinctIds(options: seq<Choice>) {
    forall j, k :: 0 <= j < k < |options| ==> options[j].id != options[k].id
  }

  /** When the question's option ids are distinct and one of them is `optionId`, that option is
      the one and only correct option afterwards. */
  lemma OnlyChosenIsCorrect(q: Question, optionId: int, j: nat)
    requires DistinctIds(q.options) && j < |q.options| && q.options[j].id == optionId
    ensures HasCorrect(MarkCorrect(q, optionId).options)
    ensures forall k :: 0 <= k < |q.options| && MarkCorrect(q, optionId).options[k].isCorrect ==> k == j
  {
    var r := MarkCorrect(q, optionId);
    assert r.options[j].isCorrect;
  }

  /** Choosing the same correct option twice is the same as choosing it once. */
  lemma SetCorrectAnswerIdempotent(qs: seq<Question>, id: int, optionId: int)
    ensures SetCorrectAnswer(SetCorrectAnswer(qs, id, optionId), id, optionId)
         == SetCorrectAnswer(qs, id, optionId)
  {
    var once := SetCorrectAnswer(qs, id, optionId);
    var twice := SetCorrectAnswer(once, id, optionId);
    forall i | 0 <= i < |qs|
      ensures twice[i] == once[i]
    {
      if qs[i].id == id {
        var a := MarkCorrect(qs[i], optionId);
        var b := MarkCorrect(a, optionId);
        assert b.options == a.options;
      }
    }
  }

  // ---- Validation

  /** `!v || isNaN(v) || parseInt(v) <= 0`; a comparison with `NaN` is false. */
  predicate NotPositive(v: string) {
    v == "" || IsNaN(v) || (ParseInt(v).Some? && ParseInt(v).value <= 0)
  }

  /** `!v || isNaN(v) || parseInt(v) < 0 || parseInt(v) > 100`. */
  predicate OutOfPercentRange(v: string) {
    v == "" || IsNaN(v) || (ParseInt(v).Some? && (ParseInt(v).value < 0 || ParseInt(v).value > 100))
  }

  /** For the text of an integer, the positivity check fails exactly when the integer is not
      positive. */
  lemma IntegerPositiveRule(n: int)
    ensures NotPositive(Json.IntToText(n)) <==> n <= 0
  {
    IntegerTextRoundTrip(n);
  }

  /** For the text of an integer, the range check fails exactly outside 0..100. */
  lemma IntegerPercentRule(n: int)
    ensures OutOfPercentRange(Json.IntToText(n)) <==> n < 0 || n > 100
  {
    IntegerTextRoundTrip(n);
  }

  /** A single error at `k` when `failed`, none otherwise. */
  function Flag(failed: bool, k: ErrorKey, m: Message): (r: Errors)
    ensures r.Keys == if failed then {k} else {}
    ensures k in r ==> r[k] == m
  {
    if failed then map[k := m] else map[]
  }

  predicate NeedsFile(form: ContentForm) {
    form.contentType == "document" || form.contentType == "visual"
  }

  /** The checks every content type goes through: title, allocated time and, for documents and
      visual material, the file. */
  function CommonErrors(form: ContentForm, hasFile: bool): Errors {
    Flag(JsBlank(form.title), FieldKey(Title), TitleRequired)
    + Flag(NotPositive(form.allocatedTime), FieldKey(AllocatedTime), TimeNotPositive)
    + Flag(NeedsFile(form) && !hasFile, FileKey, FileRequired)
  }

  /** The dates and upload formats of an assignment. */
  function AssignmentErrors(form: ContentForm): Errors {
    Flag(form.startDate == "", FieldKey(StartDate), StartDateRequired)
    + Flag(form.endDate == "" || DateAtOrBefore(form.endDate, form.startDate), FieldKey(EndDate),
           if form.endDate == "" then EndDateRequired else EndDateNotAfterStart)
    + Flag(JsBlank(form.uploadMaterial), FieldKey(UploadMaterial), UploadRequired)
  }

  /** `question.correct_answer?.trim()` is truthy. */
  predicate AnswerGiven(a: Option<string>) { a.Some? && !JsBlank(a.value) }

  /** The checks of the question at 1-based position `n`, under keys built from its id. */
  function QuestionErrors(q: Question, n: nat): Errors {
    Flag(JsBlank(q.body), BodyKey(q.id), BodyRequired(n))
    + if q.questionType == "multiple_choice" then
        Flag(|q.options| < 2, OptionsKey(q.id), TooFewOptions(n))
        + Flag(!HasCorrect(q.options), CorrectKey(q.id), NoCorrectOption(n))
      else Flag(q.questionType == "text" && !AnswerGiven(q.correctAnswer), AnswerKey(q.id), AnswerRequired(n))
  }

  /** The checks of `qs`, the first being at position `n`; a later question's message replaces
      an earlier one under the same key, as assigning to the same key of an object does. */
  function QuestionsErrors(qs: seq<Question>, n: nat): Errors
    decreases |qs|
  {
    if |qs| == 0 then map[] else QuestionErrors(qs[0], n) + QuestionsErrors(qs[1..], n + 1)
  }

  /** The checks of a task: grade, time and percentage, then those of its kind. */
  function TaskErrors(form: ContentForm, qs: seq<Question>): Errors {
    if form.contentType != "task" then map[]
    else
      Flag(OutOfPercentRange(form.passingGrade), FieldKey(PassingGrade), PassingGradeRange)
      + Flag(NotPositive(form.maxTime), FieldKey(MaxTime), MaxTimeNotPositive)
      + Flag(OutOfPercentRange(form.percentage), FieldKey(Percentage), PercentageRange)
      + (if form.taskType == "assignment" then AssignmentErrors(form) else map[])
      + (if form.taskType == "assessment" then
           Flag(|qs| == 0, QuestionsKey, QuestionsRequired) + QuestionsErrors(qs, 1)
         else map[])
  }

  function VisualErrors(form: ContentForm): Errors {
    if form.contentType == "visual" then
      Flag(NotPositive(form.duration), FieldKey(Duration), DurationNotPositive)
    else map[]
  }

  /** `validateForm`: every error the form has. */
  function Validate(form: ContentForm, hasFile: bool, qs: seq<Question>): Errors {
    CommonErrors(form, hasFile) + TaskErrors(form, qs) + VisualErrors(form)
  }

  // ---- What a valid form looks like

  /** What a question needs: text, and either at least two options one of which is correct (a
      multiple-choice question) or a non-blank answer (a text question). */
  predicate QuestionOk(q: Question) {
    !JsBlank(q.body)
    && (q.questionType == "multiple_choice" ==> |q.options| >= 2 && HasCorrect(q.options))
    && (q.questionType == "text" ==> AnswerGiven(q.correctAnswer))
  }

  predicate AssignmentOk(form: ContentForm) {
    form.startDate != "" && form.endDate != "" && !DateAtOrBefore(form.endDate, form.startDate)
    && !JsBlank(form.uploadMaterial)
  }

  predicate AssessmentOk(qs: seq<Question>) {
    |qs| > 0 && forall i :: 0 <= i < |qs| ==> QuestionOk(qs[i])
  }

  predicate TaskOk(form: ContentForm, qs: seq<Question>) {
    !OutOfPercentRange(form.passingGrade) && !NotPositive(form.maxTime)
    && !OutOfPercentRange(form.percentage)
    && (form.taskType == "assignment" ==> AssignmentOk(form))
    && (form.taskType == "assessment" ==> AssessmentOk(qs))
  }

  /** What a form must look like to be sent. */
  predicate Acceptable(form: ContentForm, hasFile: bool, qs: seq<Question>) {
    !JsBlank(form.title) && !NotPositive(form.allocatedTime) && (NeedsFile(form) ==> hasFile)
    && (form.contentType == "task" ==> TaskOk(form, qs))
    && (form.contentType == "visual" ==> !NotPositive(form.duration))
  }

  lemma UnionEmpty(a: Errors, b: Errors)
    ensures a + b == map[] <==> a == map[] && b == map[]
  {
    if a + b == map[] {
      assert forall k :: k in a ==> k in a + b;
      assert forall k :: k in b ==> k in a + b;
    }
  }

  /** A question raises no error exactly when it is complete. */
  lemma QuestionErrorsEmpty(q: Question, n: nat)
    ensures QuestionErrors(q, n) == map[] <==> QuestionOk(q)
  {
    var mc := Flag(|q.options| < 2, OptionsKey(q.id), TooFewOptions(n));
    var corr := Flag(!HasCorrect(q.options), CorrectKey(q.id), NoCorrectOption(n));
    UnionEmpty(mc, corr);
    var rest := if q.questionType == "multiple_choice" then mc + corr
      else Flag(q.questionType == "text" && !AnswerGiven(q.correctAnswer), AnswerKey(q.id), AnswerRequired(n));
    UnionEmpty(Flag(JsBlank(q.body), BodyKey(q.id), BodyRequired(n)), rest);
  }

  /** The questions raise no error exactly when every one of them is complete. */
  lemma {:induction false} QuestionsErrorsEmpty(qs: seq<Question>, n: nat)
    ensures QuestionsErrors(qs, n) == map[] <==> forall i :: 0 <= i < |qs| ==> QuestionOk(qs[i])
    decreases |qs|
  {
    if |qs| > 0 {
      QuestionsErrorsEmpty(qs[1..], n + 1);
      QuestionErrorsEmpty(qs[0], n);
      UnionEmpty(QuestionErrors(qs[0], n), QuestionsErrors(qs[1..], n + 1));
      assert forall i :: 1 <= i < |qs| ==> qs[i] == qs[1..][i - 1];
    }
  }

  lemma CommonErrorsEmpty(form: ContentForm, hasFile: bool)
    ensures CommonErrors(form, hasFile) == map[] <==>
            !JsBlank(form.title) && !NotPositive(form.allocatedTime) && (NeedsFile(form) ==> hasFile)
  {
    var a := Flag(JsBlank(form.title), FieldKey(Title), TitleRequired);
    var b := Flag(NotPositive(form.allocatedTime), FieldKey(AllocatedTime), TimeNotPositive);
    var c := Flag(NeedsFile(form) && !hasFile, FileKey, FileRequired);
    UnionEmpty(a, b);
    UnionEmpty(a + b, c);
  }

  lemma AssignmentErrorsEmpty(form: ContentForm)
    ensures AssignmentErrors(form) == map[] <==> AssignmentOk(form)
  {
    var a := Flag(form.startDate == "", FieldKey(StartDate), StartDateRequired);
    var b := Flag(form.endDate == "" || DateAtOrBefore(form.endDate, form.startDate), FieldKey(EndDate),
                  if form.endDate == "" then EndDateRequired else EndDateNotAfterStart);
    var c := Flag(JsBlank(form.uploadMaterial), FieldKey(UploadMaterial), UploadRequired);
    UnionEmpty(a, b);
    UnionEmpty(a + b, c);
  }

  lemma AssessmentErrorsEmpty(qs: seq<Question>)
    ensures Flag(|qs| == 0, QuestionsKey, QuestionsRequired) + QuestionsErrors(qs, 1) == map[]
            <==> AssessmentOk(qs)
  {
    QuestionsErrorsEmpty(qs, 1);
    UnionEmpty(Flag(|qs| == 0, QuestionsKey, QuestionsRequired), QuestionsErrors(qs, 1));
  }

  lemma TaskErrorsEmpty(form: ContentForm, qs: seq<Question>)
    ensures TaskErrors(form, qs) == map[] <==> (form.contentType == "task" ==> TaskOk(form, qs))
  {
    if form.contentType == "task" {
      var a := Flag(OutOfPercentRange(form.passingGrade), FieldKey(PassingGrade), PassingGradeRange);
      var b := Flag(NotPositive(form.maxTime), FieldKey(MaxTime), MaxTimeNotPositive);
      var c := Flag(OutOfPercentRange(form.percentage), FieldKey(Percentage), PercentageRange);
      var d: Errors := if form.taskType == "assignment" then AssignmentErrors(form) else map[];
      var e: Errors := if form.taskType == "assessment" then
          Flag(|qs| == 0, QuestionsKey, QuestionsRequired) + QuestionsErrors(qs, 1)
        else map[];
      AssignmentErrorsEmpty(form);
      AssessmentErrorsEmpty(qs);
      UnionEmpty(a, b);
      UnionEmpty(a + b, c);
      UnionEmpty(a + b + c, d);
      UnionEmpty(a + b + c + d, e);
    }
  }

  /** The form is valid (no error recorded) exactly when it is acceptable. */
  lemma ValidIffAcceptable(form: ContentForm, hasFile: bool, qs: seq<Question>)
    ensures Validate(form, hasFile, qs) == map[] <==> Acceptable(form, hasFile, qs)
  {
    CommonErrorsEmpty(form, hasFile);
    TaskErrorsEmpty(form, qs);
    UnionEmpty(CommonErrors(form, hasFile), TaskErrors(form, qs));
    UnionEmpty(CommonErrors(form, hasFile) + TaskErrors(form, qs), VisualErrors(form));
  }

  /** For dates the page can read, the end-date check passes exactly when the end is strictly
      after the start. */
  lemma EndDateRule(form: ContentForm)
    requires DateOnly(form.startDate).Some? && DateOnly(form.endDate).Some?
    ensures FieldKey(EndDate) !in AssignmentErrors(form)
            <==> Calendar.Before(DateOnly(form.startDate).value, DateOnly(form.endDate).value)
  {
    assert form.endDate != "";
  }

  /** The task defaults (passing grade 70, maximum time 60, percentage 10) meet their rules. */
  lemma DefaultsMeetTaskRules(today: string, weekLater: string, orders: seq<Option<int>>)
    ensures var form := InitialForm(today, weekLater, orders);
            !OutOfPercentRange(form.passingGrade) && !NotPositive(form.maxTime)
            && !OutOfPercentRange(form.percentage) && !NotPositive(form.duration)
  {
    IntegerPercentRule(70);
    IntegerPositiveRule(60);
    IntegerPercentRule(10);
    IntegerPositiveRule(10);
  }

  /** A new question always needs editing before the form can be sent: its text is blank. */
  lemma NewQuestionIncomplete(id: int, questionType: string)
    ensures !QuestionOk(NewQuestion(id, questionType))
    ensures BodyKey(id) in QuestionErrors(NewQuestion(id, questionType), 1)
  {
  }

  /** Choosing an existing option as the correct one clears the "correct answer" check of a
      multiple-choice question. */
  lemma ChosenOptionSatisfiesCheck(q: Question, optionId: int, j: nat, n: nat)
    requires j < |q.options| && q.options[j].id == optionId
    ensures CorrectKey(q.id) !in QuestionErrors(MarkCorrect(q, optionId), n)
  {
    var r := MarkCorrect(q, optionId);
    assert r.options[j].isCorrect;
  }

  // ---- Submission

  predicate IsAssessment(form: ContentForm) {
    form.contentType == "task" && form.taskType == "assessment"
  }

  datatype Outcome = Outcome(errors: Errors, sent: Option<ContentForm>)

  /** `submitContent`: the form is validated and its errors shown; a valid form is sent with
      every input as it is, except that an assessment's question count becomes the number of
      questions written. */
  function Submit(p: Page): (r: Outcome)
    ensures r.errors == Validate(p.form, p.hasFile, p.questions)
    ensures r.sent.Some? <==> Acceptable(p.form, p.hasFile, p.questions)
    ensures r.sent.Some? ==> r.sent.value.(questionCount := p.form.questionCount) == p.form
    ensures r.sent.Some? && !IsAssessment(p.form) ==> r.sent.value == p.form
    ensures r.sent.Some? && IsAssessment(p.form) ==>
              |p.questions| >= 1 && ParseInt(r.sent.value.questionCount) == Some(|p.questions|)
              && ToNumber(r.sent.value.questionCount) == Dec(|p.questions|, 0)
  {
    var errors := Validate(p.form, p.hasFile, p.questions);
    ValidIffAcceptable(p.form, p.hasFile, p.questions);
    IntegerTextRoundTrip(|p.questions|);
    if errors != map[] then Outcome(errors, None)
    else if IsAssessment(p.form) then
      Outcome(errors, Some(p.form.(questionCount := Json.IntToText(|p.questions|))))
    else Outcome(errors, Some(p.form))
  }
}
