# Music-school scheduler: booking and approval core

A Dafny model of the PHP backend of a music-school scheduler (students book
lessons with teachers in courses run by schools) and of the path and session
helpers of its frontend. Three parts are modelled:

- The lesson engine, `backend/models/Lesson.php`. It covers the conflict
  query, the recurring series of 52 generated lessons, partial updates and
  soft cancellation with their series cascade, and the ordered listing
  queries. The four lesson endpoints in `backend/api/lessons` sit on top,
  each a guard script with early exits.
- The request and approval state machine, `backend/models/Enrollment.php`.
  It is used twice: a student asking to join a course, and a teacher asking
  to join a school. The five endpoints in `backend/api/enrollments` and
  `backend/api/teacher_requests` sit on top.
- The user-update permission rule, `backend/api/users/update.php`, the
  validators and id generators of `backend/utils/helpers.php`, and the
  helpers of `frontend/config.php`.

Layout:

- `common.dfy` (module `Common`): JSON scalars and PHP's loose tests on them,
  roles, replies, refusals and notification events.
- `text.dfy` (`Text`): SQLite's TEXT order.
- `clock.dfy` (`Clock`) and `calendar.dfy` (`Calendar`): times of day and
  dates.
- `lesson.dfy` (`Lessons`): lesson rows and the table operations as values.
- `lesson_store.dfy` (`LessonStore`): the `LessonTable` class, which changes
  the table in place.
- `workflow.dfy` (`Approval`): the `Workflow` class.
- `helpers.dfy` (`Helpers`), `config.dfy` (`Config`).
- `lesson_api.dfy`, `request_api.dfy`, `user_api.dfy`: the endpoints.

How the endpoints are modelled:

- Every guard sequence is a function. It maps the tables, the caller and the
  request body to the refusal the script sends, in the script's own order.
- Every endpoint is a method. It is proved to refuse exactly as that function
  says and to leave the tables unchanged when it refuses.
- On success, the method changes the tables exactly as the model operations
  do.
- Notifications are the list of events the endpoint emits, in order.
- The caller (the authenticated user) is a parameter. So are today's date,
  the creation timestamp, random draws, `sanitizeInput` and `validateEmail`.
  Of `sanitizeInput` the model assumes only what its three steps (trim,
  strip_tags, htmlspecialchars) guarantee for dates and times: text made of
  digits, `-` and `:` comes back unchanged (`Common.KeepsPlain`).
- Ids and flags sent as text are read as PHP 8 and SQLite read numeric
  strings: blanks around the number, a sign, a fraction and an exponent are
  allowed, so `"5"`, `" 5"`, `"5.0"` and `"0.5e1"` all select lesson 5, and
  `intval("1e2")` is 100.
- Courses and schools are a `Directory`: the teacher of each course and the
  admin of each school.
- Enrolments and school memberships are the member sets of the two
  `Approval.Workflow` objects.

Behaviours a reader might not expect, which the model follows as coded:

- `start_time < end_time` is never checked.
- The generated lessons of a series are inserted without a conflict check;
  none is skipped.
- A create emits one notice, not one per occurrence.
- A generated lesson keeps the seed's recurrence pattern (`backend/models/Lesson.php:95`).
- Reject has no pending check and can flip an approved request.
- Status changes through update.php are unchecked.

## Model

| member | source | states |
|---|---|---|
| Text.BeforeTotal | backend/models/Lesson.php:441-477 | TEXT comparison, as the conflict and listing queries use it, is a total order: of two different strings one comes first |
| Text.BeforeConcat | backend/models/Lesson.php:449-453 | comparing texts with prefixes of equal length compares the prefixes first, then the rest |
| Clock.Seconds | backend/utils/helpers.php:103-116 | a valid time denotes a second of the day below 86400; HH:MM means HH:MM:00 |
| Clock.LongTextValid | backend/utils/helpers.php:103-116 | every second of the day has an HH:MM:SS text that Clock.ValidateTime (validateTime) accepts and that denotes that second |
| Clock.LongTextOfSeconds | backend/utils/helpers.php:103-116 | a valid HH:MM:SS time is the text of the second it denotes (round trip) |
| Clock.SameFormOrder | backend/models/Lesson.php:449-453 | for two times in the same form, text order is time order, and text equality is time equality |
| Clock.MixedFormsDisagree | backend/utils/helpers.php:105-106 | "10:00" and "10:00:00" are both valid and denote the same second, yet "10:00" sorts first as text |
| Clock.ShortHourRefused | backend/utils/helpers.php:105-106 | "9:00" is refused: the hour needs two digits |
| Clock.ValidTimeIsPlain | backend/utils/helpers.php:103-106 | a time validateTime accepts is made of digits and colons only, so sanitizeInput leaves it unchanged |
| Calendar.NextMonth | backend/models/Lesson.php:72-73 | '+1 month' always yields a real date; an overflowing day carries into the following month |
| Calendar.AddDays | backend/models/Lesson.php:70-71 | adding days to a real date ('+1 week' is seven of them) yields a real date |
| Calendar.AddDaysAdditive | backend/models/Lesson.php:70-71 | adding days in two steps is adding their sum |
| Calendar.NextMonthEarlyDay | backend/models/Lesson.php:72-73 | from a day of the month up to 28, '+1 month' keeps the day and moves exactly one month on |
| Calendar.NextMonthOverflows | backend/models/Lesson.php:72-73 | 2024-01-31 becomes 2024-03-02 (2023-03-03 in a common year), and the shift persists at the next step |
| Calendar.ValidatedDateReprints | backend/utils/helpers.php:95-98 | text accepted by validateDate prints back identically as Y-m-d |
| Calendar.FormattedDateValidates | backend/utils/helpers.php:95-98 | a real date with a four-digit year prints as text that validateDate accepts and that parses back to the date |
| Calendar.ValidateDateIsReprint | backend/utils/helpers.php:95-98 | Calendar.ValidateDate (validateDate) holds exactly for the Y-m-d text of a real date with a year of at most four digits |
| Calendar.LeapDayOverflowRefused | backend/utils/helpers.php:95-98 | 2024-02-29 is accepted; 2024-02-30 and 2023-02-29 are refused |
| Calendar.ValidDateIsPlain | backend/utils/helpers.php:95-98 | a date validateDate accepts is made of digits and dashes only, so sanitizeInput leaves it unchanged |
| Common.TextIdRoundTrip | backend/models/Lesson.php:109-127 | an id written in decimal selects that id again (Common.TextId, the integer affinity of the id column) |
| Common.PaddedId | backend/api/lessons/read.php:29-34 | blanks around an id's decimal text do not change the row it selects: " 5" selects lesson 5 |
| Common.FractionDigitId | backend/api/lessons/read.php:29-34 | an id with one fraction digit, blanks around it allowed, selects the id's row when the digit is 0 and no row otherwise: "5.0" selects lesson 5, "5.5" none |
| Common.IntVal | backend/api/lessons/read.php:77 | intval is 0 for text that does not start with a number, and always within the signed 64-bit range |
| Common.IntValOfNatText | backend/api/lessons/read.php:77 | intval reads back the decimal text of a number in the 64-bit range |
| Common.IntValExponent | backend/api/lessons/read.php:77 | intval reads an exponent: "1e2" is 100 |
| Common.IntValDropsFraction | backend/api/lessons/read.php:77 | intval drops a fraction: "5.9" is 5 |
| Common.DigitRun | backend/api/lessons/read.php:77 | the leading digits of the text, which the numeral reader takes as the whole part |
| Common.NumOfNatText | backend/api/lessons/read.php:77 | a digit string without a leading zero is the decimal text of the number it denotes |
| Lessons.ClashIsOverlap | backend/models/Lesson.php:449-453 | for an existing lesson whose start precedes its end, Lessons.Clashes, the three-way disjunction of the query, is exactly half-open interval overlap |
| Lessons.TouchingDoesNotClash | backend/models/Lesson.php:449-453 | a booking starting when an existing one ends, or ending when it starts, does not clash |
| Lessons.ClashInSeconds | backend/models/Lesson.php:449-453 | with all four times in one form, the clash test is overlap of the times of day |
| Lessons.ConflictIsOverlap | backend/models/Lesson.php:441-477 | on well-formed rows, Lessons.Conflict (hasConflict) holds iff some scheduled lesson of the teacher on the date, other than the excluded one, overlaps the interval; cancelled and completed lessons never conflict |
| Lessons.CheckedWriteKeepsNoOverlap | backend/models/Lesson.php:441-477 | writing a row that passed the conflict check, which excluded its own key, keeps the table free of overlapping scheduled lessons |
| Lessons.MixedFormsClash | backend/utils/helpers.php:105-106 | with mixed time forms, a touching booking (09:00:00-10:00:00 against 10:00-11:00) is refused |
| Lessons.Step | backend/models/Lesson.php:69-74 | one loop turn advances the date by '+1 week', '+1 month', or not at all for any other pattern, and always yields a real date |
| Lessons.WeeklyAdvance | backend/models/Lesson.php:66-74 | weekly: occurrence i falls 7·i days after the seed date |
| Lessons.MonthlyAdvance | backend/models/Lesson.php:66-74 | monthly from a day up to 28: occurrence i keeps the day and falls i months after the seed |
| Lessons.MonthlyDrift | backend/models/Lesson.php:66-74 | monthly from January 31: the first step overflows to March 2 and later occurrences stay shifted |
| Lessons.OtherPatternAdvance | backend/models/Lesson.php:66-74 | any other pattern: every occurrence falls on the seed date |
| Lessons.SeriesKeyed | backend/models/Lesson.php:51-53 | adding a series after the seed keeps every row under its own id, all below the id after the series |
| Lessons.SeriesSize | backend/models/Lesson.php:51-99 | a series is exactly 52 lessons, under ids seed+1..seed+52 |
| Lessons.SeriesMember | backend/models/Lesson.php:69-99 | an id belongs to the series iff it is one of the 52 ids after the seed's |
| Lessons.SeriesOccurrence | backend/models/Lesson.php:69-99 | occurrence i, for i from 1 to 52, is stored under id seed+i |
| Lessons.ChildFields | backend/models/Lesson.php:76-97 | each child (Lessons.Occurrence) points at the seed, is not recurring, is scheduled, and has the seed's times, course, student, teacher, classroom, notes, objectives, pattern and flag; child i's date is the seed date advanced i times |
| Lessons.Updated | backend/models/Lesson.php:132-198 | an update removes and adds no row; Lessons.UpdatedRow states what each row becomes |
| Lessons.SiblingsPatched | backend/models/Lesson.php:203-247 | the sibling cascade removes and adds no row; Lessons.UpdatedRow states what each sibling becomes |
| Lessons.UpdatedInSteps | backend/models/Lesson.php:183-192 | the row is written first; the cascade then starts from the written row (the children of a seed, or the other children of a child's parent) |
| Lessons.UpdatedRow | backend/models/Lesson.php:134-192 | the updated lesson gets every supplied field and keeps the rest; siblings get only start, end, classroom and objectives; every other row is unchanged |
| Lessons.CascadeReach | backend/models/Lesson.php:185-190 | a cascade from a child never reaches its seed; one from a recurring seed reaches exactly its children |
| Lessons.CancelledRows | backend/models/Lesson.php:252-274 | a cancellation removes no row; Lessons.CancelOnlyChangesStatus states what each row becomes |
| Lessons.SiblingsCancelled | backend/models/Lesson.php:279-294 | the sibling cancellation removes no row; Lessons.CancelOnlyChangesStatus states what each row becomes |
| Lessons.CancelledInSteps | backend/models/Lesson.php:252-274 | the lesson read before the write decides the cascade; the write cancels it, then its siblings are cancelled |
| Lessons.CancelOnlyChangesStatus | backend/models/Lesson.php:252-294 | cancelling removes no row, changes only statuses, cancels the lesson and with the cascade its siblings whatever their status, and leaves every other row alone |
| Lessons.KeyAtMostCases | backend/models/Lesson.php:353 | (date, start) order: a may come before b iff it sorts strictly first or ties |
| Lessons.KeyAtMostTransitive | backend/models/Lesson.php:353 | the listing order is transitive |
| Lessons.KeyAtMostTotal | backend/models/Lesson.php:353 | the listing order is total |
| Lessons.Redacted | backend/api/lessons/read.php:46-49 | a redacted lesson has no private notes and is otherwise the same lesson |
| LessonStore.LessonTable.constructor | backend/models/Lesson.php:13-15 | an empty table whose first id is 1 |
| LessonStore.LessonTable.Create | backend/models/Lesson.php:20-59 | inserts the seed (Lessons.SeedRow) under the next id and, when is_recurring == 1 with a pattern, its 52 occurrences; existing rows are untouched |
| LessonStore.LessonTable.CreateRecurring | backend/models/Lesson.php:64-104 | the 52-turn loop inserts exactly the series rows |
| LessonStore.LessonTable.Turn | backend/models/Lesson.php:69-97 | one turn advances the running date one step and inserts that occurrence |
| LessonStore.LessonTable.InsertOccurrence | backend/models/Lesson.php:76-97 | one occurrence is inserted under the next id |
| LessonStore.LessonTable.Update | backend/models/Lesson.php:132-198 | fails with "No fields to update" and changes nothing iff no field is supplied; otherwise the table becomes Lessons.Updated |
| LessonStore.LessonTable.WriteRow | backend/models/Lesson.php:134-180 | the UPDATE writes each supplied field of the row and keeps the others |
| LessonStore.LessonTable.UpdateSiblings | backend/models/Lesson.php:203-247 | writes the series fields to every row with the given parent except the excluded one |
| LessonStore.LessonTable.Delete | backend/models/Lesson.php:252-274 | the table becomes Lessons.CancelledRows |
| LessonStore.LessonTable.CancelSiblings | backend/models/Lesson.php:279-294 | cancels every row with the given parent except the excluded one |
| LessonStore.LessonTable.MarkCompleted | backend/models/Lesson.php:429-436 | sets the lesson's status to completed and changes nothing else |
| LessonStore.LessonTable.Listing | backend/models/Lesson.php:299-357 | lists exactly the selected rows, each once, in ascending (date, start) order |
| LessonStore.LessonTable.ByFilters | backend/models/Lesson.php:299-357 | getByFilters returns exactly the rows matching every given filter, without cancelled ones unless a status is given, in (date, start) order |
| LessonStore.LessonTable.NextLesson | backend/models/Lesson.php:362-382 | none iff the student has no scheduled lesson from today on; otherwise such a lesson that sorts no later than any other |
| LessonStore.LessonTable.History | backend/models/Lesson.php:387-405 | the student's lessons latest first, at most `limit` of them; a lesson left out comes no later than every lesson listed |
| LessonStore.Reversed | backend/models/Lesson.php:396 | the reversed list holds the same rows back to front |
| LessonStore.ReversedDescending | backend/models/Lesson.php:387-405 | reversing an ascending list with distinct ids gives a descending one with the same rows |
| LessonStore.LatestCut | backend/models/Lesson.php:387-405 | cutting a latest-first list at `limit` keeps its order, keeps at most `limit` rows, and leaves out only rows no later than every kept one |
| LessonStore.InsertSorted | backend/models/Lesson.php:353 | inserting keeps the list in (date, start) order |
| LessonStore.InsertedAt | backend/models/Lesson.php:353 | insertion adds exactly the one row and keeps ids distinct |
| Approval.SubmitKeepsConsistent | backend/models/Enrollment.php:49-56 | adding a pending request for a pair that is neither a member nor pending keeps the tables consistent |
| Approval.ApproveKeepsConsistent | backend/models/Enrollment.php:132-169 | approving a pending request and adding its pair keeps the tables consistent |
| Approval.RejectKeepsConsistent | backend/models/Enrollment.php:174-186 | rejecting any request keeps the tables consistent |
| Approval.RejectAfterApproval | backend/models/Enrollment.php:174-186 | rejecting an approved request flips its status but leaves the membership in place |
| Approval.Workflow.constructor | backend/models/Enrollment.php:13-15 | empty tables, first id 1 |
| Approval.Workflow.Find | backend/models/Enrollment.php:65-83 | finds exactly the stored request with that id |
| Approval.Workflow.Submit | backend/models/Enrollment.php:20-60 | "already enrolled" when the pair is a member, checked first; "already pending" when a pending request exists; otherwise exactly one new pending request with the given parties, whose id is returned; earlier approved or rejected requests do not block |
| Approval.Workflow.Approve | backend/models/Enrollment.php:132-169 | an unknown or non-pending request is refused and nothing changes; otherwise the request becomes approved and its pair a member, and no other request changes |
| Approval.Workflow.Reject | backend/models/Enrollment.php:174-186 | sets the status to rejected whatever it was; memberships are untouched |
| Approval.Workflow.PendingList | backend/models/Enrollment.php:88-105 | exactly the pending requests concerning the teacher, school or requester, each once, newest first |
| Approval.InsertNewestFirst | backend/models/Enrollment.php:98 | insertion keeps the list newest first |
| Approval.InsertedAt | backend/models/Enrollment.php:98 | insertion adds exactly the one request and keeps ids distinct |
| Helpers.RequiredErrors | backend/utils/helpers.php:189-199 | at most one error per listed field; Helpers.RequiredErrorsExact states which |
| Helpers.RequiredErrorsEmpty | backend/utils/helpers.php:189-199 | no errors iff every listed field is present and not blank under trim and empty |
| Helpers.RequiredErrorsExact | backend/utils/helpers.php:189-199 | an error is listed iff it names a listed field that is absent or blank |
| Helpers.RequiredErrorsIgnore | backend/utils/helpers.php:189-199 | keys outside the list do not affect the errors |
| Helpers.ValidateRequiredFields | backend/utils/helpers.php:189-199 | the loop returns one error per failing field, in list order |
| Helpers.AppendDrawn | backend/utils/helpers.php:15-18 | appends one alphabet character per draw after the prefix |
| Helpers.GenerateUniqueUserId | backend/utils/helpers.php:11-21 | a user id is eight characters from [A-Z0-9], one per draw (Helpers.Draws: eight draws below 36) |
| Helpers.FourDigitText | backend/utils/helpers.php:29 | a number from 1000 to 9999 has four digits |
| Helpers.PadLeft | backend/utils/helpers.php:29 | padding keeps the text at the end and fills with '0' up to the width |
| Helpers.GenerateUniqueSchoolId | backend/utils/helpers.php:27-37 | a school id is "SC", the drawn number as four digits, then four characters from [A-Z0-9] |
| Helpers.GenerateAvailableUniqueId | backend/utils/helpers.php:53-69 | returns the first of ten candidates not taken, and fails after ten taken ones |
| Config.LTrimSlash | frontend/config.php:48 | ltrim('/') removes exactly the leading slashes |
| Config.RTrimSlash | frontend/config.php:49 | rtrim('/') removes exactly the trailing slashes |
| Config.LTrimSlashAll | frontend/config.php:48 | a text of slashes trims to nothing |
| Config.BaseUrl | frontend/config.php:47-56 | an empty path gives the trimmed base or "/"; otherwise rtrim(base) + "/" + ltrim(path) |
| Config.BaseUrlLeadingSlashes | frontend/config.php:47-56 | baseUrl("/x") == baseUrl("x") and baseUrl("///") == baseUrl("") |
| Config.BaseUrlRoot | frontend/config.php:47-53 | the root is "/" iff the trimmed base is empty under PHP's empty |
| Config.BaseUrlZeroPath | frontend/config.php:51-53 | the path "0" counts as empty and yields the root |
| Config.AssetUrlIsBaseUrl | frontend/config.php:61-65 | Config.AssetUrl (assetUrl(p)) is the base URL of "assets/" + ltrim(p) |
| Config.BasePath | frontend/config.php:24 | the base path is a prefix of the script path |
| Config.BasePathDropsRole | frontend/config.php:24 | one trailing /admin, /teacher or /student is dropped |
| Config.BasePathKeepsOthers | frontend/config.php:24 | any other directory is kept |
| Config.ReplaceAbsent | frontend/config.php:30 | str_replace leaves text without an occurrence unchanged |
| Config.ApiPathOfFrontend | frontend/config.php:30-31 | Config.ApiPath: a frontend under a prefix talks to the backend under the same prefix |
| Config.Session.constructor | frontend/config.php:8-10 | a fresh session has no user and no values |
| Config.Session.UserRole | frontend/config.php:95-112 | the role is present iff a user record with a user_type is in the session (the login token is not consulted), and it is that user_type |
| Config.Session.SetSuccessMessage | frontend/config.php:238-240 | stores the message and changes nothing else |
| Config.Session.SetErrorMessage | frontend/config.php:245-247 | stores the message and changes nothing else |
| Config.Session.Take | frontend/config.php:252-256 | returns the entry, if any, and removes it |
| Config.Session.GetSuccessMessage | frontend/config.php:252-256 | returns the last message set, then clears it |
| Config.Session.GetErrorMessage | frontend/config.php:261-265 | returns the last message set, then clears it |
| Config.FlashShownOnce | frontend/config.php:238-265 | a message set and read twice is returned once, then nothing; the login state (Config.Session.IsLoggedIn) is unchanged |
| Config.RoleLabels | frontend/config.php:154-209 | with Config.RoleOrSession choosing the given role over the session's: admin is "Amministratore" in #2C3E50/#3498DB, teacher "Docente" in #27AE60/#16A085, student "Studente" in #E67E22/#F39C12; any other or no role is "Utente" in #333333/#666666; the three names, colours and secondary colours are pairwise different |
| LessonApi.CreateAccepted | backend/api/lessons/create.php:20-71 | LessonApi.CreateRefusal is none iff: the caller is staff; the five fields are present and not blank; the date and times are well formed; the student is enrolled in an existing course; a teacher caller owns it; and the course teacher's slot, read from the sanitized date and times, is free |
| LessonApi.CreateMissingField | backend/api/lessons/create.php:27-32 | a missing or blank field is refused with 400 and its error listed |
| LessonApi.FormatsBeforeLookups | backend/api/lessons/create.php:35-41 | a format refusal is the same whatever the tables hold |
| LessonApi.EnrolmentBeforeCourse | backend/api/lessons/create.php:44-53 | once fields and formats pass, a student who is not enrolled is refused as such, whether or not the course exists |
| LessonApi.SameVerdict | backend/api/lessons/create.php:20-71 | the verdict reads the body only through the required fields, the date and times, and the two ids |
| LessonApi.TeacherIdIgnored | backend/api/lessons/create.php:61-62 | the supplied teacher_id changes neither the verdict nor the inserted data; the stored teacher is the course's |
| LessonApi.CreateData | backend/api/lessons/create.php:60-62 | with a sanitize that keeps plain text, a validated date and validated times are stored exactly as sent |
| LessonApi.CreatedSeed | backend/models/Lesson.php:20-46 | an accepted create stores the course and student found, the course's teacher, the date and times as sent, and for absent fields no parent, is_recurring 0, skip_notification 0 and status scheduled |
| LessonApi.SwappedFieldsPresent | backend/api/lessons/create.php:27-32 | exchanging start and end keeps the required fields present |
| LessonApi.TimeOrderNotChecked | backend/api/lessons/create.php:35-41 | an accepted booking with start and end exchanged is still accepted on an empty table: their order is never checked |
| LessonApi.CreateKeepsSeedClear | backend/api/lessons/create.php:65-71 | an accepted create keeps the seed free of overlaps |
| LessonApi.CheckCreate | backend/api/lessons/create.php:20-71 | the guard statements refuse exactly as LessonApi.CreateRefusal says |
| LessonApi.CreateLesson | backend/api/lessons/create.php:20-94 | a refusal changes nothing and notifies no one; otherwise the sanitized data is inserted as the seed and any series, 201 returns the stored lesson, and the student is notified unless the sanitized skip_notification is loosely 1 |
| LessonApi.LessonGuard | backend/api/lessons/update.php:21-41 | passes iff the caller is staff, the lesson exists, and a teacher caller teaches it |
| LessonApi.UpdateAccepted | backend/api/lessons/update.php:21-100 | LessonApi.UpdateRefusal is none iff the guard passes, every supplied date and time is well formed, a request with a date, start or end leaves the slot it describes (stored values filling the gaps) free of the teacher's other lessons, and some field is supplied |
| LessonApi.CheckLesson | backend/api/lessons/delete.php:21-41 | the guard statements refuse exactly as LessonGuard says |
| LessonApi.UntimedUpdateSkipsCheck | backend/api/lessons/update.php:57 | an update without date, start or end is never refused for a clash |
| LessonApi.UpdateKeepsNoOverlap | backend/api/lessons/update.php:57-65 | an accepted update with a date, start or end and no cascade keeps the table free of overlaps: the check used the effective values and excluded the lesson |
| LessonApi.RevivalBreaksNoOverlap | backend/api/lessons/update.php:94-96 | a status-only update can set a cancelled lesson back to scheduled in an occupied slot |
| LessonApi.GatherPatch | backend/api/lessons/update.php:67-96 | the update data holds exactly the supplied fields among date, start, end, classroom, notes, objectives and status; classroom, notes and objectives sanitized, the status read by Lessons.StatusOf |
| LessonApi.CheckUpdate | backend/api/lessons/update.php:21-100 | the guard statements refuse exactly as LessonApi.UpdateRefusal says, and an accepted request carries the supplied fields |
| LessonApi.UpdateLesson | backend/api/lessons/update.php:19-128 | a refusal changes nothing; otherwise Lessons.Updated with the cascade when update_recurring is truthy, and a notice iff a date, start or end was supplied and skip_notification != 1 |
| LessonApi.DeleteLesson | backend/api/lessons/delete.php:19-77 | a refusal changes nothing; otherwise a soft cancel with the delete_recurring cascade; a truthy skip_notification means no notice; otherwise exactly one cancellation notice to the lesson's student, then a free-slot notice unless no_assign == 1 |
| LessonApi.Shown | backend/api/lessons/read.php:30-136 | the lessons a reply carries |
| LessonApi.ForRole | backend/api/lessons/read.php:46-49 | a student's copy has no private notes; nothing else changes |
| LessonApi.ReadById | backend/api/lessons/read.php:30-52 | the id text selects a lesson as the id column's integer affinity reads it (Common.TextId: "5", " 5" and "5.0" all select lesson 5); 404 when it selects none; 403 for a student reading another's lesson or a teacher reading a lesson they do not teach; otherwise the lesson, redacted for students |
| LessonApi.StripNotes | backend/api/lessons/read.php:81-85 | the loop redacts every lesson of the list |
| LessonApi.ForRoleAll | backend/api/lessons/read.php:130-134 | every lesson of the list is as the caller may see it |
| LessonApi.ReadNext | backend/api/lessons/read.php:55-68 | a student only about themselves; otherwise the earliest upcoming scheduled lesson, or none |
| LessonApi.HistoryShown | backend/api/lessons/read.php:73-87 | the history as shown keeps the latest-first order, holds only the student's rows, leaves out a lesson of the student's only when `limit` lessons are shown and it sorts no later than each of them, and gives a student asking about themselves only their own lessons without notes |
| LessonApi.ReadHistory | backend/api/lessons/read.php:71-88 | a student only about themselves (403); otherwise the student's lessons as the caller may see them, latest first, at most `limit`, and every lesson of the student's is shown unless the limit is reached and it sorts no later than every lesson shown |
| LessonApi.FilteredShown | backend/api/lessons/read.php:121-136 | the filter listing as shown keeps the (date, start) order, shows every matching row and only matching rows, and gives a student filtering on their own id only their own lessons without notes |
| LessonApi.ReadFiltered | backend/api/lessons/read.php:91-136 | 400 without a filter; 403 for a student without their own student_id; otherwise exactly the matching lessons in (date, start) order |
| LessonApi.ReadLessons | backend/api/lessons/read.php:23-140 | the paths take precedence id, next, history, filters, and each path's reply is the whole of what its read promises: ReadById, LessonApi.NextReply, LessonApi.HistoryReply under LessonApi.HistoryLimit (intval of limit, else 50), and LessonApi.FilteredReply under the filters LessonApi.FiltersOf reads; on every path a student receives only their own lessons and never private notes |
| RequestApi.SubmitError | backend/models/Enrollment.php:20-46 | no error iff the pair is neither a member nor pending; the error is "already member" or "already pending" |
| RequestApi.EnrolRequestRefusal | backend/api/enrollments/request.php:23-43 | passes iff the caller is a student, course_id is present and not blank, and names an existing course; past the first two checks, the refusal is 404 |
| RequestApi.RequestEnrolment | backend/api/enrollments/request.php:21-67 | a refusal changes nothing; a model error becomes a 500 with its message and no notice; otherwise one pending request from the caller with the course's teacher as approver, 201 with its id, and one notice to that teacher |
| RequestApi.FindEnrolment | backend/models/Enrollment.php:65-83 | the request is found iff its id is stored and its course still exists |
| RequestApi.EnrolApproveRefusal | backend/api/enrollments/approve.php:22-43 | passes iff the caller is a teacher, the request exists, and the caller is its teacher |
| RequestApi.ApproveEnrolment | backend/api/enrollments/approve.php:20-60 | a refusal changes nothing; a processed request gives a 500 and no notice; otherwise approved, enrolled, and the student notified after the approval |
| RequestApi.SchoolRequestRefusal | backend/api/teacher_requests/request.php:23-43 | passes iff the caller is a teacher, school_id is present and not blank, and names an existing school; past the first two checks, the refusal is 404 |
| RequestApi.RequestSchool | backend/api/teacher_requests/request.php:21-72 | a refusal changes nothing; a model error becomes a 500 and no notice; otherwise one pending request for the calling teacher, 201 with its id, and one notice to the school's admin |
| RequestApi.FindAffiliation | backend/models/Enrollment.php:236-252 | the request is found iff its id is stored and its school still exists |
| RequestApi.SchoolDecisionRefusal | backend/api/teacher_requests/approve.php:22-43 | passes iff the caller is an admin, the request exists, and the caller is its school's admin |
| RequestApi.ApproveSchool | backend/api/teacher_requests/approve.php:20-55 | a refusal changes nothing; a processed request gives a 500 and no notice; otherwise approved, the teacher joins the school and is notified after the approval |
| RequestApi.RejectSchool | backend/api/teacher_requests/reject.php:19-51 | a refusal changes nothing; otherwise the request is rejected whatever its status, memberships are unchanged, and no one is notified |
| RequestApi.DecisionIgnoresStatus | backend/api/enrollments/approve.php:26-43 | the approve and reject guards never read a request's status |
| RequestApi.SubmittedEnrolmentApprovable | backend/api/enrollments/request.php:47-51 | a request just created passes every approve guard for the course's teacher and is pending |
| RequestApi.ApprovedStudentEnrolled | backend/models/Enrollment.php:155-160 | after approval the student passes the enrolment check of lesson creation for that course |
| RequestApi.ApprovalSurvivesReject | backend/models/Enrollment.php:174-186 | approve then reject keeps the tables consistent; the membership stays and the request ends rejected |
| UserApi.Patched | backend/models/User.php:114-157 | the UPDATE writes exactly the given columns, and never the id or role |
| UserApi.UserTable.constructor | backend/models/User.php:13-15 | an empty users table |
| UserApi.UserTable.Find | backend/models/User.php:63-75 | finds exactly the stored user with that id |
| UserApi.UserTable.Update | backend/models/User.php:114-157 | "No fields to update" iff no writable column is given, and nothing changes; otherwise the row is patched |
| UserApi.Permission | backend/api/users/update.php:40-107 | forwarded iff a teacher edits a student they teach while in a school; otherwise modify iff the caller edits their own profile, is an admin, or is a teacher editing a student they teach; forbidden in every other case |
| UserApi.AdminsNonEmpty | backend/api/users/update.php:62-80 | the teacher has a school iff the admin list is not empty |
| UserApi.NotifyAdmins | backend/api/users/update.php:82-91 | one notice per admin, each admin once, all about the student |
| UserApi.UpdateData | backend/api/users/update.php:110-136 | only writable columns; the email only for one's own profile; every other field iff supplied; the birth date as given |
| UserApi.FieldRefusal | backend/api/users/update.php:120-140 | passes iff the birth date (if given) is valid, one's own email (if given) is valid, and some field is written; refusals are 400 |
| UserApi.UserRefusal | backend/api/users/update.php:26-140 | not refused iff the user exists and the decision is not forbidden, and for a modify the fields pass |
| UserApi.DecidePermission | backend/api/users/update.php:40-103 | the canModify flag and the forwarding branch give UserApi.Permission |
| UserApi.CollectUpdateData | backend/api/users/update.php:110-140 | builds updateData field by field, refusing exactly as UserApi.FieldRefusal |
| UserApi.UpdateUser | backend/api/users/update.php:20-156 | a refusal changes nothing; a forwarded change writes nothing and notifies each admin of the teacher's schools once; a permitted change writes updateData and returns the row |
| UserApi.OthersEmailIgnored | backend/api/users/update.php:131-136 | another user's email in the body is ignored: same verdict, same data as without it |
| UserApi.RoleNeverChanges | backend/api/users/update.php:110-142 | an update never changes a user's id or role |
| UserApi.StudentsEditOnlyThemselves | backend/api/users/update.php:43-107 | a student editing another user's profile gets 403 |

## Left out

- Authentication: JWT signing and checking, password hashing, and the session login. The caller is a parameter.
- Requests refused with 405 for a wrong HTTP method.
- `sanitizeInput` and `validateEmail` are parameters: the user endpoint and lessons/create.php and lessons/update.php take `sanitize`, and its effect on free text (trimming, tag stripping, escaping) is not modelled. Only Common.KeepsPlain is assumed of it.
- The email service and the notification table. Notifications are modelled as event values only; their texts and the recipients of the free-slot broadcast, which come from a SQL join, are not.
- `updateStudentPreferences` in users/update.php. The preference tables are not part of this model.
- Failures of the database (PDOException) and the 500 replies they cause. Also the unique-email constraint of the users table.
- Approval.Consistent: other writers of course_enrollments and teacher_schools are not modelled, namely Course::enrollStudent and Course::unenrollStudent (backend/models/Course.php:162-189) and School::addTeacher and School::removeTeacher (backend/models/School.php:285-312). The invariant that an approved request's pair is a member and a pending request's pair is not holds only while approval is the sole writer; a direct enrolment or removal through those calls can break it.
- Concurrency. The conflict check before an insert and the duplicate check before a submit are atomic in the model.
- `getUpcomingLessons` and the other read-only getters: getAllRequestsForTeacher, getAllTeacherRequestsForSchool and getEnrollmentsByCourse. None of the core rules reads them.
- The join columns that getById queries add (names and emails). A row missing from a join is modelled only where it decides a 404: a request whose course or school is gone.
- JSON null, booleans and floats in a request body. A value is an integer or a string.
- Common.TextId: reads a numeric string exactly, as a decimal; PHP and SQLite go through a double, so a text beyond 2^53 that is not exactly a whole number may round to one, and text beyond the double range is not refused as it would be.
- Common.IntVal: saturates an oversized numeral at the 64-bit bounds; the double rounding of a numeral with a fraction or exponent beyond 2^53, and the 0 that intval gives for text past the double range, are not modelled.
- A `$` that matches before a trailing newline in the time patterns.
- Date formatting for display (formatDate, formatTime, formatDateTime).
- The clock. Today's date and creation timestamps are parameters.
- Years above 9999 in dates.
- Lessons.ConflictIsOverlap: states half-open overlap only for well-formed rows, where start sorts before end, because the source does not enforce that order.
- LessonApi.CreateData: stores the course and student ids the checks looked up, not the sanitized text of the two ids; the two select the same rows.
- LessonApi.CreateData: a parent_lesson_id that is not the text of a non-negative id (say "abc" or -3) is stored by backend/models/Lesson.php:43 as sent. It is truthy, so the update and delete cascades (backend/models/Lesson.php:185-188 and 261-264) treat the row as a child of that text and match siblings by it (Lesson.php:235 and 281). The model stores no parent for such a value, so `Lessons.CascadeReach` lets a seed created with it reach its 52 occurrences, which the source does not. Only a crafted request sends this field.
- Clock.SameFormOrder: relates text order to time order only for times in the same form, because mixed forms disagree (Clock.MixedFormsDisagree).
