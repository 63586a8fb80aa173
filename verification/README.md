# CS353 course platform: reporting engine, backend decisions and page helpers

This project models three parts of a Flask/React course platform. It proves properties about each model.

1. **The admin reporting engine.** These are the calendar helpers of `helpers.py`, and the request validation, month enumeration and report cache of `generate_report.py`.
   - The report table is a sequence of headers. Each header is unique on its `(report_type, time_range_start, time_range_end)` triple and has an optional parent report.
   - Metrics rows are a map keyed by report id.
   - Admin links are a set of `(admin_id, report_id)` pairs.
   - Each endpoint is a function from (store, request) to (status, new store):
     - the three general endpoints;
     - the student, course and instructor ranged endpoints;
     - `list_reports`.
   - The SQL aggregates are parameters. So are the random report-id draws and "today".
2. **The backend decision procedures**, one module per route file:
   - `evaluate_course`;
   - course, section and content creation;
   - comments;
   - feedback;
   - financial aid;
   - notifications;
   - the course syllabus;
   - student recommendations;
   - the degrees search query builder.

   The database is an immutable record of tables (`Db.Db`). Query results that the model does not compute are parameters (the recommendation views, the syllabus rows). A handler returns `Result<Db>` or a richer outcome, with the HTTP status on failure.
3. **The React page helpers:**
   - the card, expiry and CVV formatters of the transaction page;
   - the course form of the create-course page;
   - the content form and the assessment-question editor of the add-content page;
   - the filters and statistics of the "my learning" page;
   - the read toggles of the notification page.

   JavaScript's `Number`, `isNaN`, `parseInt` and date-only `new Date` are modelled exactly in `JsNumber`, on decimal text with an optional exponent part. JavaScript string lengths count UTF-16 code units (`Text.Utf16Length`).

Shared modules:

| module | contents |
|---|---|
| `Wrappers` | `Option` and `Result` |
| `Text` | Python `strip`, JavaScript `trim`, digits and zero padding |
| `Json` | request bodies, Python `int()` and `str()`, and how psycopg2 stores a body value in a text column |
| `Calendar` | proleptic Gregorian dates |
| `Sorting` | a stable `sorted()` |
| `Db` | the relational state, and `Count`/`Filter` with their lemmas |

Randomness, clocks and query results are parameters throughout:
- `picks` for `secrets.choice`;
- `draw` for `uuid4`;
- `now` and `today`;
- `id` for `Date.now()`;
- `compute` for the monthly SQL aggregates.

## Model

| member | source | states |
|---|---|---|
| Calendar.DaysInMonth | backend/routes/helpers.py:24-30 | a month has 28 to 31 days, and February has 29 exactly in a leap year |
| Calendar.FirstDayFacts | backend/routes/helpers.py:17-21 | `first_day(d)` keeps year and month with day 1, is idempotent and is not after `d` |
| Calendar.LastDay | backend/routes/helpers.py:24-30 | the replace-28/add-4/replace-1/minus-1 computation yields the month's last day, with the same year and month |
| Calendar.LastDayFacts | backend/routes/helpers.py:24-30 | `last_day` depends only on year and month, `first_day(d) <= d <= last_day(d)`, and February ends on 29 exactly in leap years |
| Calendar.LastDayThenNextDay | backend/routes/helpers.py:28-30 | the day after `last_day(d)` is the first of the next month, and December rolls into January of the next year |
| Calendar.LastCompletedMonth | backend/routes/helpers.py:41-49 | the first day of the month before today's, so January goes to December of the previous year, and strictly before `first_day(today)` |
| Calendar.NextMonthStart | backend/routes/generate_report.py:889-893 | the `+32 days, day=1` step from a first-of-month is the first of the calendar successor month |
| Calendar.MonthIndexInjective | backend/routes/generate_report.py:889-893 | first-of-month dates are ordered and identified by their month index, the measure the enumeration counts in |
| Calendar.MonthLabel | backend/routes/helpers.py:33-38 | `month_label` is 7 characters, `YYYY-MM`, whose digits read back as the year and the month |
| Calendar.MonthField | backend/routes/generate_report.py:46-47 | the `%m` directive accepts only text whose digits are a month 1..12 |
| Calendar.ParseMonth | backend/routes/generate_report.py:46-47 | a parsed month is a valid first-of-month with a year in 1..9999 |
| Calendar.ParseMonthLabel | backend/routes/helpers.py:33-38 | `parse_month(month_label(d)) == first_day(d)` for four-digit years |
| Calendar.ParseMonthIgnoresPadding | backend/routes/generate_report.py:46-47 | white space around the month text does not change what `parse_month` returns |
| ReportIds.NewReportId | backend/routes/helpers.py:8-14 | the id is the prefix followed by six characters from A–Z/0–9 |
| ReportIds.EveryShapedIdIsDrawable | backend/routes/helpers.py:8-14 | every prefix-plus-six-alphabet-characters id is drawn by some picks, so the id space is exactly that shape |
| ReportIds.TwoCharPrefixGivesEightChars | backend/routes/helpers.py:8-14 | a two-character prefix gives an eight-character id |
| ReportRequests.ValidateAdmin | backend/routes/generate_report.py:874-878 | refused with 400 exactly when the stripped `admin_id` is empty or longer than 8; an accepted id has no surrounding space |
| ReportRequests.ValidateAdminIgnoresPadding | backend/routes/generate_report.py:874-878 | white space around `admin_id` does not change the admin check |
| ReportRequests.ValidateListAdmin | backend/routes/generate_report.py:2280-2282 | `list_reports` refuses only a blank admin id, with no length check |
| ReportRequests.GenerateAdminAlsoLists | backend/routes/generate_report.py:2280-2282 | every admin id a generate endpoint accepts is accepted by the listing with the same value |
| ReportRequests.ParseFailureStatus | backend/routes/generate_report.py:1257-1261 | an unparsable month is a 500 for the student endpoint and a 400 for course and instructor |
| ReportRequests.ValidateRanged | backend/routes/generate_report.py:874-887 | admin check, missing start → 400, `end` defaults to `start`, both parsed, `end < start` → 400; an accepted request is an ordered range of parsed months |
| ReportRequests.ValidateRangedEndpoints | backend/routes/generate_report.py:1257-1263 | the endpoints differ only in the status of a parse failure |
| ReportRequests.EndBeforeStartRefused | backend/routes/generate_report.py:886-887 | an end month before the start month is refused with 400 |
| ReportRequests.EnumerateMonths | backend/routes/generate_report.py:889-893 | the loop yields every first-of-month from start to end in order, each the successor of the previous, 12·(ey−sy)+(em−sm)+1 of them, and none when end < start |
| ReportRequests.MonthsDistinct | backend/routes/generate_report.py:889-893 | enumerated months are pairwise distinct |
| ReportStore.IdPrefixInjective | backend/routes/generate_report.py:756 | the endpoint prefixes name distinct report types |
| ReportStore.GetOrCreate | backend/routes/generate_report.py:900-933 | an existing triple returns its id and changes nothing; otherwise the fresh id is stored top-level, and a fresh id already taken is a 500 |
| ReportStore.GetOrCreateTwice | backend/routes/generate_report.py:756-846 | a second get-or-create returns the same id and leaves the store unchanged, whatever it draws |
| ReportStore.GetOrCreateFrame | backend/routes/generate_report.py:900-933 | reports of other triples and every top-level report are kept, and a created report is top-level |
| ReportStore.Link | backend/routes/generate_report.py:936-939 | linking is set insertion on the admin links |
| ReportStore.LinkFacts | backend/routes/generate_report.py:1005-1008 | repeating a link changes nothing, and the link count grows by one only for a new pair |
| ReportStore.InsertMetrics | backend/routes/generate_report.py:1011-1042 | a metrics insert never overwrites an existing row and adds the row only when absent |
| ReportStore.InsertMetricsFacts | backend/routes/generate_report.py:1033 | a second metrics insert for the same report changes nothing |
| ReportStore.UpsertChild | backend/routes/generate_report.py:968-1002 | the child upsert returns the triple's report and makes `parent` its parent, whatever it was, keeping other triples' reports |
| ReportStore.UpsertChildFrame | backend/routes/generate_report.py:979 | a child upsert keeps other triples' reports and every top-level report except the one holding the triple |
| ReportStore.GetOrCreateRoot | backend/routes/generate_report.py:1641 | corrected parent upsert: the triple's report is top-level afterwards, and no top-level report loses that status |
| ReportStore.UpsertChildKeepRoots | backend/routes/generate_report.py:1678-1687 | corrected child upsert: re-parents only a report that already had a parent |
| ReportStore.NewestFirst | backend/routes/generate_report.py:2296-2298 | the listing order is a total preorder comparing creation dates, newest first |
| ReportStore.ListReports | backend/routes/generate_report.py:2289-2313 | the listing holds exactly the admin's linked top-level reports, newest first, each as often as stored |
| ReportStore.ListedIffLinkedRoot | backend/routes/generate_report.py:2289-2298 | a report id is listed for an admin exactly when it is linked to the admin and has no parent |
| ReportEngine.InvGetOrCreate | backend/routes/generate_report.py:900-933 | get-or-create keeps the store invariant: only ranged student/instructor reports have parents, and a student ranged report is top-level exactly when its end is a first of month |
| ReportEngine.InvUpsertChild | backend/routes/generate_report.py:968-1002 | the child upsert keeps the store invariant |
| ReportEngine.InvLinkMetrics | backend/routes/generate_report.py:1005-1042 | links and metrics inserts keep the store invariant |
| ReportEngine.ListReportsRequest | backend/routes/generate_report.py:2278-2322 | blank admin → 400; otherwise exactly the linked top-level reports, newest first |
| ReportEngine.GeneralRange | backend/routes/generate_report.py:737-748 | the range runs from the earliest month (or today's month) to the last completed month, sorted for student and instructor but not for course |
| ReportEngine.CourseGeneralRangeInverted | backend/routes/generate_report.py:1126-1130 | with no course the course general range starts after it ends, while the student range is ordered |
| ReportEngine.GeneralReport | backend/routes/generate_report.py:711-846 | admin check, then the range's report is fetched or created, linked to the admin, given metrics unless it has them, and returned |
| ReportEngine.GeneralReportListed | backend/routes/generate_report.py:756-846 | a successful general report is listed for the admin, and every report listed before stays listed |
| ReportEngine.GeneralReportTwice | backend/routes/generate_report.py:756-846 | repeating a general request returns the same report and changes nothing, whatever it draws and computes |
| ReportEngine.MonthEndIsLastDay | backend/routes/helpers.py:24-30 | the month-length form of `last_day` used in the triples equals `last_day` |
| CourseReports.CourseRangedRun | backend/routes/generate_report.py:1267-1305 | the course ranged report is the get-or-create of `(start, last_day(end))` plus the admin link; no child rows are written |
| CourseReports.CourseRangedReport | backend/routes/generate_report.py:1243-1401 | validation errors pass through, a December-9999 end is a 500, otherwise the run |
| CourseReports.CourseRangedListedAndStable | backend/routes/generate_report.py:1267-1305 | the course ranged report is listed for the admin, listed reports stay listed, and repeating it changes nothing |
| CourseReports.ExistingNonRankedIsRoot | backend/routes/generate_report.py:1275 | a report whose type never takes a parent is top-level |
| ReportEngine.ChildKey | backend/routes/generate_report.py:968-1002 | a monthly child covers `m` to `last_day(m)` |
| StudentReports.StudentCached | backend/routes/generate_report.py:942-951 | a month's cache entry is a child of the parent starting at that month, and it is absent exactly when no such row exists |
| StudentReports.StudentStep | backend/routes/generate_report.py:953-1045 | a cached month contributes its stored row and writes nothing; any other month is computed, upserted as a child, linked and given metrics |
| StudentReports.StudentLoop | backend/routes/generate_report.py:953-1045 | one statistics entry per month, in order, each the cached row or the computed one, and the store only grows |
| StudentReports.StudentLoopCovers | backend/routes/generate_report.py:942-1045 | after the loop every enumerated month is cached under the parent, and no cached month is lost |
| StudentReports.StudentLoopAllCached | backend/routes/generate_report.py:953-957 | a loop over months that are all cached writes nothing |
| StudentReports.ChildTripleHoldsNoRoot | backend/routes/generate_report.py:926-927 | a student ranged triple ending on a day other than the first never holds a top-level report |
| StudentReports.StudentLoopRoots | backend/routes/generate_report.py:968-1002 | the student loop keeps the invariant and every top-level report |
| StudentReports.StudentParentKey | backend/routes/generate_report.py:926-927 | the student parent triple stores the first day of the end month, so it is never a child triple |
| StudentReports.StudentParent | backend/routes/generate_report.py:900-939 | the parent is fetched or created for its triple and linked to the admin |
| StudentReports.StudentParentListed | backend/routes/generate_report.py:900-939 | the student parent is listed for the admin, and the invariant and earlier listings are kept |
| StudentReports.StudentRangedRun | backend/routes/generate_report.py:900-1051 | parent, link, cache query, loop: one statistics entry per enumerated month |
| StudentReports.StudentRangedReport | backend/routes/generate_report.py:872-1078 | validation errors pass through (an unparsable month is a 500), a December-9999 end is a 500, otherwise the run |
| StudentReports.StudentRangedListed | backend/routes/generate_report.py:900-1051 | the run keeps the invariant and earlier listings and lists its parent for the admin |
| StudentReports.StudentRangedCovered | backend/routes/generate_report.py:942-1045 | after a run every month of the range is cached under its parent |
| StudentReports.StudentRangedRunTwice | backend/routes/generate_report.py:942-957 | repeating a run returns the same parent and writes nothing, because every month is answered from the cache |
| StudentReports.StudentRangedTwice | backend/routes/generate_report.py:872-1078 | the same query parameters a second time change nothing |
| InstructorReports.InstructorStep | backend/routes/generate_report.py:1673-1710 | each month's child is upserted and re-parented whatever it was, then given metrics unless it has them |
| InstructorReports.InstructorLoop | backend/routes/generate_report.py:1624-1710 | every month is computed, never read back from the cache, and no child is linked to the admin |
| InstructorReports.InstructorParentKey | backend/routes/generate_report.py:1665 | the instructor parent triple ends on `last_day(end)`, so for one month it is that month's child triple |
| InstructorReports.InstructorParent | backend/routes/generate_report.py:1633-1672 | the instructor parent is fetched or created and linked to the admin |
| InstructorReports.InstructorRangedRun | backend/routes/generate_report.py:1633-1735 | the instructor transaction as written: parent, link, then the loop |
| InstructorReports.InstructorRangedReport | backend/routes/generate_report.py:1603-1764 | validation errors pass through, a December-9999 end is a 500, otherwise the run |
| InstructorReports.InstructorOneMonthSelfParent | backend/routes/generate_report.py:1641-1687 | as written, a one-month instructor run makes its parent its own parent, so the listing hides it |
| InstructorReports.InstructorOneMonthExample | backend/routes/generate_report.py:1641-1687 | `start=2024-01` for admin `A1` on an empty store returns a report that the admin's listing omits |
| InstructorReports.InstructorRangedKeepsInv | backend/routes/generate_report.py:1633-1735 | the instructor run keeps the store invariant |
| InstructorReports.InstructorRangedRunCorrected | backend/routes/generate_report.py:1633-1735 | corrected run: the parent is top-level afterwards, so it is listed for the admin |
| InstructorReports.InstructorOneMonthCorrected | backend/routes/generate_report.py:1641-1687 | on the exposing request the corrected run lists its parent |
| CourseAdmin.AcceptedFlag | backend/routes/admin.py:12-19 | the body passes exactly when `is_accepted` is present and a boolean, else 400 |
| CourseAdmin.EvaluateCourse | backend/routes/admin.py:8-53 | bad body → 400 before the lookup, unknown course → 404, non-pending → 400; a pending course becomes accepted or rejected |
| CourseAdmin.EvaluateCourseFrame | backend/routes/admin.py:36-41 | a decision changes only that course's status and approver, which becomes the admin |
| CourseAdmin.EvaluateCourseBodyFirst | backend/routes/admin.py:12-19 | a malformed body gets 400 whatever the database holds |
| CourseAdmin.EvaluateCourseOnce | backend/routes/admin.py:32-33 | a decided course cannot be evaluated again |
| CourseAdmin.LifecycleFromDraft | backend/routes/admin.py:32-41 | from draft the only path is pending, then accepted or rejected, which are final |
| CourseCreation.SequentialId | backend/routes/create_course.py:28-30 | the id is the prefix followed by digits, exactly `width` of them for counts below `10^width` |
| CourseCreation.SequentialIdRoundTrip | backend/routes/create_course.py:28-30 | the count reads back out of a formatted id |
| CourseCreation.SequentialIdInjective | backend/routes/create_course.py:88-90 | distinct counts give distinct ids |
| CourseCreation.NewCourse | backend/routes/create_course.py:32-53 | the row exists exactly when `int()` reads price and difficulty and every text field converts to a text; it then holds the converted body fields |
| CourseCreation.CreateCourse | backend/routes/create_course.py:9-64 | missing or falsy fields → 400; success exactly when every conversion succeeds and the id `C` plus the course count plus one in 7 digits is free, otherwise 500; the new row holds title, description, category, Q&A link and creator as their text-column values and `int()` of price and difficulty, is a draft with 0 enrolments dated today; other courses and every other table are unchanged |
| CourseCreation.CreateCourseFromForm | backend/routes/create_course.py:9-54 | non-empty strings and non-zero numbers give exactly the course row they describe |
| CourseCreation.ZeroPriceIsMissing | backend/routes/create_course.py:21-22 | a price of 0 is refused as a missing field |
| CourseCreation.CreateCourseKeepsSequential | backend/routes/create_course.py:28-54 | with sequential ids the new id is fresh and the ids stay sequential |
| CourseCreation.Touch | backend/routes/create_course.py:120-128 | only that course's `last_update_date` changes |
| CourseCreation.AddSection | backend/routes/create_course.py:67-138 | missing keys → 400, unknown course → 404, duplicate order number → 400; success exactly when every key is present, the course exists, the order number converts and is unused, `int()` reads the allocated time and title and description convert to text, otherwise 500; the id is `S` plus the section count plus one, title and description are stored as their text-column values (a list or object there → 500), and the course is touched |
| CourseCreation.AddSectionKeepsUniqueOrders | backend/routes/create_course.py:92-101 | order numbers stay unique per course |
| CourseCreation.AddSectionDuplicateOrder | backend/routes/create_course.py:92-101 | an order number the course already uses is refused with 400 |
| CourseCreation.AddContent | backend/routes/create_course.py:141-218 | missing keys or a type outside task/document/visual_material → 400 before the section lookup, an unknown section → 404; success exactly when those pass, `int()` reads the allocated time and the title converts to text, otherwise 500; the id is `CT` plus the content count plus one in 6 digits; the title is stored as its text-column value (a list or object → 500) |
| CourseCreation.AddSectionFrame | backend/routes/create_course.py:103-128 | adding a section changes only the section table and that course's update date |
| CourseCreation.AddContentCountsUp | backend/routes/create_course.py:171-195 | each added item raises the section's content count by one, so the section's next item gets a different id |
| CourseCreation.AddContentFrame | backend/routes/create_course.py:178-203 | adding content changes only the content table and that course's update date |
| Comments.AddComment | backend/routes/comment.py:8-70 | missing text → 400, missing course → 404, course not accepted → 403, unknown user → 404, unauthorised → 403, a text psycopg2 cannot store as text (list, object) → 500; otherwise exactly one comment holding the text's column value is appended and nothing else changes |
| Comments.AuthorisedIsRule | backend/routes/comment.py:36-52 | the role chain allows exactly admins, the course's creator and its enrolled students |
| Comments.ListComments | backend/routes/comment.py:74-118 | course, section, content checks in that order; the content's comments joined with their authors, newest first |
| Comments.CommentCount | backend/routes/comment.py:122-164 | the same gate, and the count is bounded by the stored comments |
| Comments.CountMatchesListing | backend/routes/comment.py:150-157 | the count is at least the listing's length, with equality when every commenter still exists |
| Comments.AddedCommentListed | backend/routes/comment.py:54-63 | an accepted comment shows up in its content's listing and the count grows by one |
| CourseFeedback.CheckRating | backend/routes/feedback.py:14-19 | the rating passes exactly when `int()` reads it as 0..5; a `ValueError` is 400 and a `TypeError` 500 |
| CourseFeedback.GiveFeedback | backend/routes/feedback.py:9-82 | missing keys → 400; the gates course/student/enrolment/completion/uniqueness decide, and a student who passes every gate but already gave feedback gets 409; a comment that cannot be stored as text → 500; on success exactly one feedback row with the comment's column value is added |
| CourseFeedback.UnfinishedRefused | backend/routes/feedback.py:49-58 | an enrolled student below 100% progress is refused with 403 |
| CourseFeedback.GiveFeedbackKeepsInvariants | backend/routes/feedback.py:61-70 | at most one feedback per course and student, and every rating in 0..5 |
| CourseFeedback.SecondFeedbackConflicts | backend/routes/feedback.py:61-65 | a second feedback for the same pair is refused with 409 |
| CourseFeedback.RoundHundredths | backend/routes/feedback.py:135-143 | `ROUND(avg, 2)` is within half a hundredth of the exact mean, and an exact half goes away from zero |
| CourseFeedback.RoundHundredthsUnique | backend/routes/feedback.py:135-143 | those bounds, with the tie rule, determine the rounded value |
| CourseFeedback.EighthRoundsUp | backend/routes/feedback.py:135-143 | `ROUND(0.125, 2)` gives 0.13 |
| CourseFeedback.FeedbackSummary | backend/routes/feedback.py:120-155 | the review count is the course's feedback count; no feedback means average 0.0; otherwise the average in hundredths is within half a hundredth of the course's rating sum over the count, with an exact half rounded away from zero |
| CourseFeedback.RatingSumIsCourseSum | backend/routes/feedback.py:135-143 | the summed rating and the review count are the sum and the number of the course's own feedback rows |
| CourseFeedback.GiveFeedbackUpdatesSummary | backend/routes/feedback.py:66-70 | new feedback adds one review and its rating to the course's summary |
| CourseFeedback.SummaryInRange | backend/routes/feedback.py:120-155 | with ratings in 0..5 the average lies in 0.00..5.00 |
| FinancialAid.Apply | backend/routes/financial_aid.py:10-61 | missing keys → 400, unknown course or student → 404, duplicate → 409, enrolled → 409, income `float()` rejects → 500, a statement that cannot be stored as text → 500; otherwise one application holding the statement's column value is appended |
| FinancialAid.DuplicateBeforeEnrolled | backend/routes/financial_aid.py:31-44 | an enrolled student who already applied is told about the duplicate |
| FinancialAid.ApplyKeepsUnique | backend/routes/financial_aid.py:31-36 | at most one application per pair, and a second one is refused |
| FinancialAid.UpsertEvaluation | backend/routes/financial_aid.py:105-110 | an existing row for the key is replaced in place, otherwise the row is appended; other rows are kept |
| FinancialAid.Evaluate | backend/routes/financial_aid.py:65-120 | `is_accepted` must be a boolean (400); course, student, instructor and application must exist (404); then the upsert |
| FinancialAid.UpsertEvaluationUnique | backend/routes/financial_aid.py:105-110 | one row per (course, student, instructor), holding the latest decision |
| FinancialAid.ReevaluationOverwrites | backend/routes/financial_aid.py:105-110 | evaluating twice leaves as many rows as once, with the second decision |
| Notifications.Inbox | backend/routes/notification.py:28-43 | the recipient's notifications with their shared status, restricted to one status when asked |
| Notifications.ListNotifications | backend/routes/notification.py:11-72 | an unknown status filter → 400 before any lookup; the items are a permutation of the user's (filtered) inbox, newest first; `unread_count` counts the unread items |
| Notifications.UnreadCountIsUnreadFilter | backend/routes/notification.py:62 | the unfiltered unread count equals the length of the "unread" listing |
| Notifications.MarkRead | backend/routes/notification.py:75-116 | unless the user received it (404), the notification's status becomes read and no other notification changes; `read_at` becomes now exactly on this user's receive rows for it that had none; nothing else changes |
| Notifications.MarkReadIdempotent | backend/routes/notification.py:91-103 | marking again later keeps the first read time |
| Notifications.Archive | backend/routes/notification.py:174-208 | 404 unless the user received the notification; otherwise only that notification's status changes, to archived, and nothing else in the state |
| Notifications.ArchiveIdempotent | backend/routes/notification.py:189-193 | archiving twice is archiving once |
| Notifications.InboxHasReceived | backend/routes/notification.py:29-44 | a received notification is in the inbox filtered to its own status |
| Notifications.ArchivedIsListed | backend/routes/notification.py:174-193 | after archiving, the user's archived listing shows the notification |
| Notifications.MarkAllRead | backend/routes/notification.py:119-171 | unknown user → 404; exactly the notifications the user received that were unread become read; `read_at` becomes now exactly on this user's receive rows for them that had none; nothing else changes, and afterwards nothing of the user's is unread |
| Notifications.MarkAllReadIsMarkRead | backend/routes/notification.py:75-171 | with one unread notification, marking all read equals marking that one read |
| Notifications.MarkAllReadEmptiesUnreadListing | backend/routes/notification.py:119-171 | after marking all read, the user's "unread" listing is empty with count 0 |
| Notifications.BumpLaws | backend/routes/notification.py:245-251 | `d[k] = d.get(k, 0) + n` adds `n` at `k` only, adds only `k` as a key, and keeps keys distinct |
| Notifications.Tallies | backend/routes/notification.py:235-251 | each status's (type's) count is the number of items with that status (type); the type tally holds exactly the types that occur, the status tally those statuses and unread, read and archived; keys are distinct; both add up to the inbox size |
| Notifications.NotificationStats | backend/routes/notification.py:211-284 | unknown user → 404; per status and per type, the count is the number of the user's received notifications with it; the three status keys are always present and no other key without a notification; the most recent is a received notification with the largest timestamp, and none only for an empty inbox |
| Notifications.InboxStatusCount | backend/routes/notification.py:222-244 | counting one status in the inbox is the size of the inbox filtered to it |
| Notifications.StatsAgreeWithListing | backend/routes/notification.py:211-251 | each status count equals the length of the listing filtered to that status |
| Notifications.CreateNotification | backend/routes/notification.py:287-347 | missing keys or an empty/non-list `user_ids` → 400; an id whose `str()` holds a quote → 500; fewer users found (by `str()` of each id) than listed → 404; the new notification is unread with its type and message stored as text-column values, and one receive row per listed id is appended |
| Notifications.SentOncePerUser | backend/routes/notification.py:295-331 | after a successful create every listed id renders to a distinct known user, and a string or number id's receive row names exactly that user |
| Notifications.FoundUsersBound | backend/routes/notification.py:302-308 | the found count equals the list length exactly when every id's `str()` names a known user and no two render alike |
| CourseOverview.GroupIsGrouped | backend/routes/course_overview.py:102-133 | sections once each, in first-occurrence order, with their first row's fields and their contents in row order |
| CourseOverview.SummaryBound | backend/routes/course_overview.py:116-131 | the summary counts at most every content, and exactly every content when all types are known |
| CourseOverview.Syllabus | backend/routes/course_overview.py:67-153 | missing or non-accepted course → 404; otherwise the grouping of the rows |
| CourseOverview.SyllabusSectionsDistinct | backend/routes/course_overview.py:102-121 | each section appears once |
| StudentHome.CandidatesAreRecommended | backend/routes/student_home.py:48-67 | the `UNION` holds exactly the recommended rows, each once |
| StudentHome.AllRecommended | backend/routes/student_home.py:38-80 | unknown student → 404; otherwise each recommended row once, ordered by priority, enrolment count descending, course id |
| StudentHome.Top10Recommended | backend/routes/student_home.py:83-125 | at most ten recommended rows in the same order |
| StudentHome.Top10IsPrefixOfAll | backend/routes/student_home.py:111-112 | the top ten are the first rows of the full listing |
| StudentHome.UnionListsCourseTwice | backend/routes/student_home.py:48-67 | an unenrolled course in one of the student's categories appears twice, once per priority |
| StudentHome.Search | backend/routes/student_home.py:128-176 | exactly the recommended rows whose title or category contains the term under ASCII lower-casing, sorted by the same key |
| StudentHome.SearchIsFilteredListing | backend/routes/student_home.py:162-169 | the search result is a permutation of the matching rows of the full listing |
| StudentHome.EmptySearchIsListing | backend/routes/student_home.py:162-166 | an empty or missing term gives the full listing |
| StudentHome.Ranked | backend/routes/student_home.py:189-212 | one row per category, each ranked first in its partition |
| StudentHome.WinnerPriority | backend/routes/student_home.py:189-212 | a category's row has priority 1 exactly when the student is enrolled in that category |
| StudentHome.WinnerUnique | backend/routes/student_home.py:189-212 | a category has one winning row |
| StudentHome.RecommendedCategories | backend/routes/student_home.py:180-224 | unknown student → 404; each base category once with its winning row, ordered by priority then course count |
| StudentHome.Top5Categories | backend/routes/student_home.py:227-271 | at most five distinct categories in that order |
| StudentHome.Top5IsPrefixOfAll | backend/routes/student_home.py:227-271 | the top five are the first rows of the full category listing |
| StudentHome.OwnCategoriesFirst | backend/routes/student_home.py:189-212 | a category of the student's own comes before every other |
| OnlineDegrees.TemplateMatchesValues | backend/routes/online_degrees.py:34-89 | each condition carries one placeholder per value |
| OnlineDegrees.ConditionsAreSelected | backend/routes/online_degrees.py:34-89 | a condition is in the query exactly when the request selects it |
| OnlineDegrees.RangesNeedBothBounds | backend/routes/online_degrees.py:34-89 | a range filter needs both bounds; a single bound is ignored |
| OnlineDegrees.NoParametersNoFilters | backend/routes/online_degrees.py:92-93 | with no filter parameter the query has no condition and no value |
| OnlineDegrees.SortKeyOf | backend/routes/online_degrees.py:96-106 | any sort other than the four names falls back to relevance |
| OnlineDegrees.BuildQuery | backend/routes/online_degrees.py:7-121 | the query starts with the base, has as many placeholders as values, and ends in exactly one ORDER BY |
| OnlineDegrees.QueryKeepsAcceptedOnly | backend/routes/online_degrees.py:28 | the query text starts with the base query restricted to accepted courses |
| OnlineDegrees.QueryText | backend/routes/online_degrees.py:92-106 | the text is the base, the filters joined with " AND ", then the sort clause |
| OnlineDegrees.QueryTextIgnoresValues | backend/routes/online_degrees.py:34-89 | the query text depends only on which filters are present, not on their values |
| OnlineDegrees.FreeOnlyAddsNoValue | backend/routes/online_degrees.py:60-62 | `free_only` adds `c.price = 0` and no value |
| OnlineDegrees.FreeOnlyFlagValues | backend/routes/online_degrees.py:60 | `free_only` is read case-insensitively |
| Json.PyInt | backend/routes/feedback.py:14-19 | `int()` reads booleans, numbers and integer text; other text is a `ValueError`, anything else a `TypeError` |
| Json.ParseIntTextRoundTrip | backend/routes/feedback.py:14-19 | `int(str(n)) == n` |
| Json.TextColumn | backend/routes/comment.py:58-61 | `None` is stored as NULL, a string as itself, a number as text that reads back as it, a boolean as `true`/`false`; a list or object fails the statement |
| Json.PyStr | backend/routes/notification.py:303 | `str(v)`: a quote-free string is itself, every other string has no rendering, and non-strings render as their quote-free `repr` |
| Json.PyStrOfScalars | backend/routes/notification.py:303 | `str()` of an integer reads back as it; `str(True)` is `True` and `str(None)` is `None` |
| Sorting.SortBy | backend/routes/student_home.py:169 | `sorted()` returns a sorted permutation |
| Sorting.SortBySorted | backend/routes/student_home.py:169 | sorting a sorted list returns it unchanged |
| TransactionPage.FormatCardNumber | frontend/src/pages/TransactionPage/TransactionPage.jsx:53-57 | the digits in groups of four; removing the spaces gives the digits typed; at most 19 characters exactly when at most 16 digits |
| TransactionPage.GroupedDigits | frontend/src/pages/TransactionPage/TransactionPage.jsx:53-57 | the grouping gives back its digits |
| TransactionPage.TrimSpacedDigits | frontend/src/pages/TransactionPage/TransactionPage.jsx:54-56 | `trim()` removes exactly the trailing space the regular expression leaves |
| TransactionPage.CardLayoutIsGrouped | frontend/src/pages/TransactionPage/TransactionPage.jsx:53-57 | a card layout is the grouping of its own digits |
| TransactionPage.FormatIsOnlyLayout | frontend/src/pages/TransactionPage/TransactionPage.jsx:53-57 | the formatting is the only card layout of the typed digits |
| TransactionPage.FormatCardNumberIdempotent | frontend/src/pages/TransactionPage/TransactionPage.jsx:53-57 | formatting a formatted number changes nothing |
| TransactionPage.CardNumberChange | frontend/src/pages/TransactionPage/TransactionPage.jsx:59-64 | the field takes the formatted input when it has at most 16 digits and otherwise keeps its value |
| TransactionPage.CardNumberFieldStaysValid | frontend/src/pages/TransactionPage/TransactionPage.jsx:59-64 | a valid card field stays a layout of at most 16 digits |
| TransactionPage.ExpiryDateChange | frontend/src/pages/TransactionPage/TransactionPage.jsx:66-76 | at most 5 characters, the first four digits typed, with a '/' after two once a third is typed |
| TransactionPage.ExpiryIgnoresCurrent | frontend/src/pages/TransactionPage/TransactionPage.jsx:66-76 | the previous value never matters |
| TransactionPage.ExpiryDateIdempotent | frontend/src/pages/TransactionPage/TransactionPage.jsx:66-76 | feeding the output back changes nothing |
| TransactionPage.CvvChange | frontend/src/pages/TransactionPage/TransactionPage.jsx:78-83 | the field takes the digits when there are at most three and otherwise keeps its value |
| TransactionPage.CvvFieldStaysValid | frontend/src/pages/TransactionPage/TransactionPage.jsx:78-83 | a CVV of at most three digits stays one, and feeding it back changes nothing |
| JsNumber.ToNumber | frontend/src/pages/CreateCourse/CreateCourse.jsx:130 | `Number(s)`: blank is 0, a decimal literal with an optional exponent part its value, a negative value starts with '-' |
| JsNumber.ParseInt | frontend/src/pages/CreateCourse/CreateCourse.jsx:161 | `parseInt` gives a number exactly when a digit follows the space and sign |
| JsNumber.ParseIntReadsMantissa | frontend/src/pages/CreateCourse/CreateCourse.jsx:161 | `parseInt` stops at an exponent mark: it reads the signed digits before it |
| JsNumber.NumberOfSignedMantissa | frontend/src/pages/CreateCourse/CreateCourse.jsx:130-132 | `Number` of a signed-digits mantissa with an exponent is that integer times ten to the exponent |
| JsNumber.IntegerTextRoundTrip | frontend/src/pages/AddSection/AddSectionContent.jsx:16-34 | `Number(String(n))` and `parseInt(String(n))` are `n` |
| JsNumber.ParseIntAgreesWithNumber | frontend/src/pages/CreateCourse/CreateCourse.jsx:130-161 | for text without '.' or exponent that `Number` reads, `parseInt` gives the same integer |
| JsNumber.DateOnly | frontend/src/pages/AddSection/AddSectionContent.jsx:258 | a date-only text that parses is a valid calendar day |
| CreateCoursePage.PriceInput | frontend/src/pages/CreateCourse/CreateCourse.jsx:82-92 | the price keeps exactly the text before its first '.' |
| CreateCoursePage.InputChange | frontend/src/pages/CreateCourse/CreateCourse.jsx:78-108 | only the edited field changes (the price truncated); its error is cleared, other errors are kept |
| CreateCoursePage.PriceAcceptedIff | frontend/src/pages/CreateCourse/CreateCourse.jsx:128-134 | the price passes exactly when, white space aside, it is signed digits with an optional exponent part, not below zero and without fraction |
| CreateCoursePage.AcceptedPriceParses | frontend/src/pages/CreateCourse/CreateCourse.jsx:128-161 | `parseInt` reads an accepted price as the non-negative digits before any exponent part, which is `Number`'s value when there is no exponent |
| CreateCoursePage.AcceptedPriceValue | frontend/src/pages/CreateCourse/CreateCourse.jsx:128-134 | `Number` of an accepted price is the whole value its digits and exponent denote |
| CreateCoursePage.Validate | frontend/src/pages/CreateCourse/CreateCourse.jsx:111-146 | a blank description is "required" and one under 50 UTF-16 code units once trimmed "too short"; the price message is the first failed check |
| CreateCoursePage.ValidateReportsFailedRules | frontend/src/pages/CreateCourse/CreateCourse.jsx:111-146 | an error is recorded for exactly the fields whose rule fails |
| CreateCoursePage.ValidIffAcceptable | frontend/src/pages/CreateCourse/CreateCourse.jsx:144-145 | the form is valid exactly when every rule passes |
| CreateCoursePage.Submit | frontend/src/pages/CreateCourse/CreateCourse.jsx:149-164 | a request is sent when valid or a draft; status "draft" or "pending"; the texts are sent as typed, and price and difficulty as `parseInt` reads them, a non-negative price when not a draft |
| CreateCoursePage.ExponentPriceSentAsMantissa | frontend/src/pages/CreateCourse/CreateCourse.jsx:128-161 | the price "1e3" passes as 1000 and is sent as 1 |
| CreateCoursePage.SubmitIntended | frontend/src/pages/CreateCourse/CreateCourse.jsx:149-164 | as Submit, but an accepted price is sent as the whole number it denotes |
| CreateCoursePage.IntendedPriceIsNumber | frontend/src/pages/CreateCourse/CreateCourse.jsx:128-164 | the intended submission sends an accepted price as `Number`'s value of it |
| CreateCoursePage.SubmitIntendedAgrees | frontend/src/pages/CreateCourse/CreateCourse.jsx:149-164 | without an exponent part the intended and the written submission send the same |
| CreateCoursePage.DraftAlwaysSaved | frontend/src/pages/CreateCourse/CreateCourse.jsx:149-164 | a draft is sent whatever the form holds |
| AddSectionContent.NextOrderNumber | frontend/src/pages/AddSection/AddSectionContent.jsx:65-69 | at least 1, above every order number, and 1 or one more than an existing order number |
| AddSectionContent.DefaultsMeetTaskRules | frontend/src/pages/AddSection/AddSectionContent.jsx:16-34 | the default passing grade, maximum time and percentage pass their rules |
| AddSectionContent.Processed | frontend/src/pages/AddSection/AddSectionContent.jsx:88-105 | the upload format keeps its longest prefix of at most 3 UTF-16 code units and the task type of at most 10; `visual_material` is stored as `visual` |
| Text.Utf16Prefix | frontend/src/pages/AddSection/AddSectionContent.jsx:92-99 | the longest prefix of at most `n` UTF-16 code units: it fits in `n` units, and the next character would not; the whole text when it fits |
| Text.Utf16PrefixOfBmp | frontend/src/pages/AddSection/AddSectionContent.jsx:92-99 | on text without characters above U+FFFF, `substring(0, n)` is the first `n` characters |
| Text.Utf16Length | frontend/src/pages/CreateCourse/CreateCourse.jsx:120 | `length` counts one unit per character up to U+FFFF and two above; it equals the character count exactly when there is none above |
| AddSectionContent.InputChange | frontend/src/pages/AddSection/AddSectionContent.jsx:84-127 | only the input changes; its error is cleared; "assessment" opens the editor and another task type closes it and drops the questions |
| AddSectionContent.FileChange | frontend/src/pages/AddSection/AddSectionContent.jsx:130-141 | choosing a file records it and clears the file error; an empty selection changes nothing |
| AddSectionContent.AddQuestion | frontend/src/pages/AddSection/AddSectionContent.jsx:144-159 | a blank question with the given id is appended |
| AddSectionContent.RemoveQuestion | frontend/src/pages/AddSection/AddSectionContent.jsx:161-163 | an order-preserving sublist holding every question with another id, with its multiplicity, and none with that id |
| AddSectionContent.AddThenRemoveQuestion | frontend/src/pages/AddSection/AddSectionContent.jsx:144-163 | adding a question under a new id and removing it gives back the list |
| AddSectionContent.MaxTimeEntry | frontend/src/pages/AddSection/AddSectionContent.jsx:698 | `parseInt(value) \|\| 5`: a non-zero integer prefix is kept, anything else gives 5, so the value is always a non-zero integer |
| AddSectionContent.MaxTimeEntryIdempotent | frontend/src/pages/AddSection/AddSectionContent.jsx:698 | re-entering the shown value changes nothing |
| AddSectionContent.ApplyEdit | frontend/src/pages/AddSection/AddSectionContent.jsx:165-169 | the named field takes the value and nothing else changes |
| AddSectionContent.UpdateQuestion | frontend/src/pages/AddSection/AddSectionContent.jsx:165-169 | only the matching questions change, and only in the named field |
| AddSectionContent.AddOption | frontend/src/pages/AddSection/AddSectionContent.jsx:171-182 | matching questions get a blank incorrect option at the end |
| AddSectionContent.RemoveOption | frontend/src/pages/AddSection/AddSectionContent.jsx:184-191 | matching questions lose exactly the options with that id |
| AddSectionContent.WithoutOption | frontend/src/pages/AddSection/AddSectionContent.jsx:184-191 | the question's options become an order-preserving sublist holding every option with another id, with its multiplicity, and none with that id |
| AddSectionContent.UpdateOption | frontend/src/pages/AddSection/AddSectionContent.jsx:193-202 | only the named option changes, in the named field |
| AddSectionContent.SetCorrectAnswer | frontend/src/pages/AddSection/AddSectionContent.jsx:204-214 | in matching questions an option is correct exactly when it has the chosen id; other questions are untouched |
| AddSectionContent.OnlyChosenIsCorrect | frontend/src/pages/AddSection/AddSectionContent.jsx:204-214 | with distinct option ids, the chosen option is the one and only correct option |
| AddSectionContent.SetCorrectAnswerIdempotent | frontend/src/pages/AddSection/AddSectionContent.jsx:204-214 | choosing the same option twice is the same as once |
| AddSectionContent.IntegerPositiveRule | frontend/src/pages/AddSection/AddSectionContent.jsx:225-227 | for integer text the positivity check fails exactly for integers not above zero |
| AddSectionContent.IntegerPercentRule | frontend/src/pages/AddSection/AddSectionContent.jsx:236-248 | for integer text the range check fails exactly outside 0..100 |
| AddSectionContent.QuestionErrorsEmpty | frontend/src/pages/AddSection/AddSectionContent.jsx:273-290 | a question raises no error exactly when it is complete |
| AddSectionContent.QuestionsErrorsEmpty | frontend/src/pages/AddSection/AddSectionContent.jsx:273-291 | the questions raise no error exactly when every one is complete |
| AddSectionContent.ValidIffAcceptable | frontend/src/pages/AddSection/AddSectionContent.jsx:217-304 | the form is valid exactly when all common, file, task, assignment and assessment rules pass |
| AddSectionContent.EndDateRule | frontend/src/pages/AddSection/AddSectionContent.jsx:251-265 | for readable dates the end-date check passes exactly when the end is after the start |
| AddSectionContent.NewQuestionIncomplete | frontend/src/pages/AddSection/AddSectionContent.jsx:144-159 | a new question blocks submission until its text is written |
| AddSectionContent.ChosenOptionSatisfiesCheck | frontend/src/pages/AddSection/AddSectionContent.jsx:204-214 | choosing an existing option satisfies the correct-answer check |
| AddSectionContent.Submit | frontend/src/pages/AddSection/AddSectionContent.jsx:306-333 | a form is sent exactly when valid, as it is, except that an assessment's question count becomes the number of questions |
| MyLearningPage.FilteredCourses | frontend/src/pages/MyLearning/MyLearningPage.jsx:39-48 | an order-preserving sublist with exactly the courses in progress, not started or completed; "all" or unknown filters return the list |
| MyLearningPage.FiltersPartition | frontend/src/pages/MyLearning/MyLearningPage.jsx:41-46 | for progress in 0..100 the three filters split the list, multiplicities included |
| MyLearningPage.TotalCompleted | frontend/src/pages/MyLearning/MyLearningPage.jsx:54 | the count of completed courses is the length of the completed filter |
| MyLearningPage.AverageCompletion | frontend/src/pages/MyLearning/MyLearningPage.jsx:55-57 | the mean rounded half up, and 0 for an empty list |
| MyLearningPage.AverageInRange | frontend/src/pages/MyLearning/MyLearningPage.jsx:55-57 | with progress in 0..100 the average is in 0..100 |
| MyLearningPage.AllCompletedAverage | frontend/src/pages/MyLearning/MyLearningPage.jsx:53-57 | a list of completed courses averages 100 and counts every course |
| NotificationPage.MarkAsRead | frontend/src/pages/NotificationPage/NotificationPage.jsx:67-73 | a notification is read afterwards exactly when it was read or has the id; nothing else changes |
| NotificationPage.MarkAllAsRead | frontend/src/pages/NotificationPage/NotificationPage.jsx:76-80 | every notification becomes read, with nothing else changed |
| NotificationPage.FilteredNotes | frontend/src/pages/NotificationPage/NotificationPage.jsx:83-87 | the "unread" tab is exactly the unread notifications in order; any other tab is the list |
| NotificationPage.UnreadCount | frontend/src/pages/NotificationPage/NotificationPage.jsx:108 | the counter is the length of the unread tab, and 0 exactly when all are read |
| NotificationPage.MarkAllClearsUnread | frontend/src/pages/NotificationPage/NotificationPage.jsx:76-80 | after marking all, the counter is 0 and the unread tab empty |
| NotificationPage.MarkAsReadCount | frontend/src/pages/NotificationPage/NotificationPage.jsx:67-73 | marking one id leaves unread exactly the unread notifications with other ids |
| NotificationPage.MarkIdempotent | frontend/src/pages/NotificationPage/NotificationPage.jsx:67-80 | both operations are idempotent |

## Left out

- SQL metric bodies (`generate_report.py:69-705`): AVG/ROUND, ages, achievement weights and `DISTINCT ON` tie-breaks are opaque `Metrics` values supplied by a `compute` parameter; the general endpoints take their summary as a parameter.
- `_dec2py` and JSON serialisation: a Decimal-to-float conversion with no decision logic.
- Randomness: `secrets.choice`, `uuid4` and `Date.now()` are parameters drawn from the stated alphabets; a random id that is already taken is modelled as the statement's failure (500).
- Concurrency: each SQL statement is atomic and requests are sequential; races between concurrent inserts are not modelled.
- Transactions: a failed request's rollback is modelled by returning the input state unchanged on any error.
- Flask routing, `jsonify` and response bodies: only status codes and state changes are modelled, not message texts.
- Json.Body: request bodies are JSON objects only. A `null` body (where `field in data` raises outside the `try`, a 500), a list or string body (where `field in data` tests membership, so the gates can pass and a later subscript fails), and Flask's own refusal of a body that is not JSON are not modelled.
- The report readers (`get_student_report`, `get_instructor_report`, `get_course_report`, `generate_report.py:1767-2276`): they only reshape stored rows.
- Time zones: "today" is a `Calendar.Date` parameter; `CURRENT_DATE` and `CURRENT_TIMESTAMP` are parameters too.
- Python's date range: years outside 1..9999 are only modelled where the handlers can reach them, namely parse failures and the month step after December 9999.
- `get_course_feedback` (`feedback.py:85-117`), `get_course_general_info` (`course_overview.py:7-64`), `get_student_info` and `get_enrolled_courses` (`student_home.py:7-35`, `274-311`): plain selects without decisions.
- The SQL text of the recommendation and category views: their rows are a `Views` parameter. The `UNION`, priorities, `ROW_NUMBER` winner and orderings over them are modelled.
- JsNumber.ToNumber: `Infinity`, and the `0x`/`0o`/`0b` literals, are read as `NaN`; values are exact, so floating-point rounding and the overflow of a huge exponent to `Infinity` (which the price check would then call not whole) are not modelled.
- Json.PyInt: `int()` of text with `_` digit separators or non-ASCII Unicode digits is read as a `ValueError`, and JSON numbers are integers here, so `int(4.7) == 4` on a fractional JSON number is not modelled.
- CourseFeedback.CheckRating: carries the gaps of `Json.PyInt`: a fractional JSON rating such as 4.7, which the source truncates to 4, and text such as "1_0" or Unicode digits are not modelled.
- FinancialAid.Apply: `float(income)` is modelled on decimal text only; exponent text ("1e3"), `inf`, `nan`, `infinity` and `_` separators, which `float` accepts, are refused here with the 500 of a failed conversion. The stored income is the request's value as given, not the float `float()` returns, because floating point is not modelled.
- Calendar.ParseMonth: the year is read from four ASCII digits; `%Y` in `strptime` also matches other Unicode decimal digits, which `int()` reads, so a year written in, for example, Arabic-Indic digits parses in the source and is refused here.
- Json.TextColumn: psycopg2 sends a list as an `ARRAY`, which PostgreSQL may store as its text form instead of failing as modelled; the tables' `NOT NULL` constraints are not part of the model, so a JSON `null` is stored as NULL.
- Notifications.CreateNotification: an id whose `str()` holds a `'` is modelled as the 500 of a broken statement; a quote-balanced id such as `a','b` splices extra ids into the `IN` list in the source and is not modelled. A boolean id is looked up as `True` but stored as `true`; a NULL recipient is taken to fail the insert; whether a foreign key refuses a recipient is not modelled.
- StudentHome.Search: `str.lower()` is modelled on ASCII letters only; Python lower-cases every cased Unicode letter (and 'İ' to two characters), so non-ASCII titles, categories or terms can match in the source where the model says they do not.
- AddSectionContent.Processed: a cut through a surrogate pair keeps its first half in JavaScript, which a character here cannot hold; the model drops that half, so the kept text can be one code unit shorter.
- The browser's own sanitising of `type="number"` inputs: the model takes the text the handler receives.
- JsNumber.DateOnly: only `YYYY-MM-DD` text is modelled; other formats `new Date` accepts are treated as invalid dates.
- AddSectionContent.InitialForm: the default numbers are stored as their decimal text, as the inputs show them.
- MyLearningPage.EnrolledCourse: `progress_rate` is an integer; fractional progress rates are not modelled.
- The question submission after a successful content upload (`AddSectionContent.jsx:353-380`) and every network error path: they are fetch calls with no effect on the page state the model covers.
- The mock notification data, `getNotificationIcon` and every presentational helper of the pages.
- `GenerateReportPage` month options: they depend on the local time zone.
- Authentication, uploads, grading and certificates (`auth.py`, `content_operations.py`, `grading.py`, `certificate.py`): foreign calls and file I/O, and certificate issuance always raises.

## Findings

| source | as written | input that shows it | evidently intended | confidence | as-written member | corrected member |
|---|---|---|---|---|---|---|
| backend/routes/generate_report.py:1641-1687 | the instructor ranged parent is stored for `(start, last_day(end))`; the monthly child upsert for the same triple runs `ON CONFLICT DO UPDATE SET parent_report_id`, so a one-month range makes the parent its own parent | `start=2024-01` (no `end`) for admin `A1` on an empty store: the response names a report that `list_reports` for `A1` never shows | the parent stays top-level and is listed for the admin | not executed | InstructorReports.InstructorOneMonthSelfParent | InstructorReports.InstructorRangedRunCorrected |
| frontend/src/pages/CreateCourse/CreateCourse.jsx:128-161 | the price check uses `parseFloat`, which reads an exponent part, but the request sends `parseInt(price, 10)`, which stops at the 'e' | the price "1e3" (a `type="number"` input accepts it): it passes as the whole number 1000 and the course is sent with price 1 | the price sent is the whole number the check accepted | not executed | CreateCoursePage.ExponentPriceSentAsMantissa | CreateCoursePage.SubmitIntended |
