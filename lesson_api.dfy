/** The four lesson endpoints of backend/api/lessons: create.php,
    update.php, delete.php and read.php. Each is a guard script with early
    exits followed by calls into `LessonStore.LessonTable`; the guards are
    stated as functions from the table, the caller and the request body to
    the refusal they produce, and the endpoints are proved to refuse exactly
    as those functions say and otherwise to change the table as the model
    operations do. Notifications come back as the list of events the
    endpoint emits. */
module LessonApi {
  import opened Common
  import opened Text
  import Clock
  import Calendar
  import opened Lessons
  import opened LessonStore
  import Approval
  import opened Helpers

  const IdRequired: string := "Lesson ID is required"
  const LessonNotFound: string := "Lesson not found"
  const BadDate: string := "Invalid date format. Use YYYY-MM-DD"
  const BadTime: string := "Invalid time format. Use HH:MM or HH:MM:SS"
  const NotEnrolled: string := "Student is not enrolled in this course"
  const CourseNotFound: string := "Course not found"
  const Busy: string := "Schedule conflict: Teacher already has a lesson at this time"

  /** `requireRole(['teacher', 'admin'])`. */
  predicate IsStaff(c: Caller)
  {
    c.role == Teacher || c.role == Admin
  }

  function Field(body: Payload, k: string): string
  {
    AsText(Arg(body, k))
  }

  /** `$data[k]` after `$data = sanitizeInput($input)`: the text
      `sanitize` makes of the supplied value, if any. `sanitize` is
      `sanitizeInput` on one value (`trim`, `strip_tags`,
      `htmlspecialchars`), which turns every value into text. */
  function Clean(body: Payload, k: string, sanitize: string -> string): Option<string>
  {
    if k in body then Some(sanitize(AsText(body[k]))) else None
  }

  /** `$data[k] ?? $default` for a column the insert copies as given. */
  function CleanOr(body: Payload, k: string, sanitize: string -> string, default: Value): Value
  {
    if k in body then Str(sanitize(AsText(body[k]))) else default
  }

  // ---------------------------------------------------------------------
  // create.php

  const CreateFields: seq<string> := ["course_id", "student_id", "lesson_date", "start_time", "end_time"]

  function Course(body: Payload): Option<nat>
  {
    AsId(Arg(body, "course_id"))
  }

  function StudentOf(body: Payload): Option<nat>
  {
    AsId(Arg(body, "student_id"))
  }

  /** `isStudentEnrolled(course_id, student_id)`: the pair is a row of
      `course_enrollments`; text that is not an id matches no row. */
  predicate Enrolled(enrolled: set<Approval.Member>, body: Payload)
  {
    Course(body).Some? && StudentOf(body).Some? && (StudentOf(body).value, Course(body).value) in enrolled
  }

  /** The refusal create.php answers with, in the order of its checks, or
      None when it goes on to insert. `enrolled` is the enrolment table and
      `dir` maps each course to its teacher. The format checks read the
      body as sent; the conflict check reads the sanitized `$data`. */
  function CreateRefusal(rows: Rows, enrolled: set<Approval.Member>, dir: Directory, caller: Caller, body: Payload,
                         sanitize: string -> string): Option<Refusal>
  {
    Verdict(rows, enrolled, dir, caller, RequiredErrors(body, CreateFields), Field(body, "lesson_date"),
      Field(body, "start_time"), Field(body, "end_time"), Course(body), StudentOf(body), sanitize)
  }

  /** CreateRefusal on what it reads of the body: the required-field
      errors, the date and time texts and the two ids. */
  function Verdict(rows: Rows, enrolled: set<Approval.Member>, dir: Directory, caller: Caller, errors: seq<string>,
                   date: string, start: string, end: string, course: Option<nat>, student: Option<nat>,
                   sanitize: string -> string): Option<Refusal>
  {
    if !IsStaff(caller) then Some(Refusal(403, Forbidden, []))
    else if errors != [] then Some(Refusal(400, "Validation failed", errors))
    else if !Calendar.ValidateDate(date) then Some(Refusal(400, BadDate, []))
    else if !Clock.ValidateTime(start) || !Clock.ValidateTime(end) then Some(Refusal(400, BadTime, []))
    else if !(course.Some? && student.Some? && (student.value, course.value) in enrolled) then
      Some(Refusal(400, NotEnrolled, []))
    else if course.value !in dir.courseTeacher then Some(Refusal(404, CourseNotFound, []))
    else if caller.role == Teacher && dir.courseTeacher[course.value] != caller.id then
      Some(Refusal(403, Forbidden, []))
    else if Conflict(rows, dir.courseTeacher[course.value], sanitize(date), sanitize(start), sanitize(end), None) then
      Some(Refusal(400, Busy, []))
    else None
  }

  /** The `$data` handed to `Lesson::create`: the sanitized body with
      `teacher_id` replaced by the course's teacher and the optional
      columns at their defaults. The course and student are the rows the
      checks found: sanitizing the text of an id that selects a row leaves
      it selecting that row. */
  function CreateData(dir: Directory, body: Payload, sanitize: string -> string): (r: NewLesson)
    requires Course(body).Some? && StudentOf(body).Some? && Course(body).value in dir.courseTeacher
    ensures KeepsPlain(sanitize) ==>
      (Calendar.ValidateDate(Field(body, "lesson_date")) ==> r.date == Field(body, "lesson_date"))
      && (Clock.ValidateTime(Field(body, "start_time")) ==> r.start == Field(body, "start_time"))
      && (Clock.ValidateTime(Field(body, "end_time")) ==> r.end == Field(body, "end_time"))
  {
    Calendar.ValidDateIsPlain(Field(body, "lesson_date"));
    Clock.ValidTimeIsPlain(Field(body, "start_time"));
    Clock.ValidTimeIsPlain(Field(body, "end_time"));
    NewLesson(Course(body).value, StudentOf(body).value, dir.courseTeacher[Course(body).value],
      sanitize(Field(body, "lesson_date")), sanitize(Field(body, "start_time")), sanitize(Field(body, "end_time")),
      Clean(body, "classroom", sanitize), Clean(body, "private_notes", sanitize), Clean(body, "objectives", sanitize),
      CleanOr(body, "is_recurring", sanitize, Int(0)), Clean(body, "recurrence_pattern", sanitize),
      if "parent_lesson_id" in body then TextId(sanitize(AsText(body["parent_lesson_id"]))) else None,
      if "status" in body then Some(StatusOf(sanitize(AsText(body["status"])))) else None,
      CleanOr(body, "skip_notification", sanitize, Int(0)))
  }

  /** A create is accepted exactly when the caller is staff, the five
      fields are present and not blank, the date and both times are well
      formed, the student is enrolled in an existing course, a teacher
      owns that course, and the course's teacher has no clashing lesson. */
  lemma CreateAccepted(rows: Rows, enrolled: set<Approval.Member>, dir: Directory, caller: Caller, body: Payload, sanitize: string -> string)
    ensures CreateRefusal(rows, enrolled, dir, caller, body, sanitize).None? <==>
      IsStaff(caller)
      && (forall i :: 0 <= i < |CreateFields| ==> !Missing(body, CreateFields[i]))
      && Calendar.ValidateDate(Field(body, "lesson_date"))
      && Clock.ValidateTime(Field(body, "start_time")) && Clock.ValidateTime(Field(body, "end_time"))
      && Enrolled(enrolled, body) && Course(body).value in dir.courseTeacher
      && (caller.role == Teacher ==> dir.courseTeacher[Course(body).value] == caller.id)
      && !Conflict(rows, dir.courseTeacher[Course(body).value], sanitize(Field(body, "lesson_date")),
           sanitize(Field(body, "start_time")), sanitize(Field(body, "end_time")), None)
  {
    RequiredErrorsEmpty(body, CreateFields);
  }

  /** A missing or blank required field is refused with its error listed,
      before any format check or lookup. */
  lemma CreateMissingField(rows: Rows, enrolled: set<Approval.Member>, dir: Directory, caller: Caller, body: Payload, i: nat, sanitize: string -> string)
    requires IsStaff(caller) && i < |CreateFields| && Missing(body, CreateFields[i])
    ensures var r := CreateRefusal(rows, enrolled, dir, caller, body, sanitize);
      r.Some? && r.value.code == 400 && r.value.message == "Validation failed"
      && RequiredError(CreateFields[i]) in r.value.errors
  {
    RequiredErrorsExact(body, CreateFields, RequiredError(CreateFields[i]));
  }

  /** The format checks come before any lookup: a refusal for a malformed
      date or time is the same whatever the tables hold. */
  lemma FormatsBeforeLookups(rows: Rows, enrolled: set<Approval.Member>, dir: Directory,
    rows': Rows, enrolled': set<Approval.Member>, dir': Directory, caller: Caller, body: Payload, sanitize: string -> string)
    requires var r := CreateRefusal(rows, enrolled, dir, caller, body, sanitize);
      r.Some? && (r.value.message == BadDate || r.value.message == BadTime)
    ensures CreateRefusal(rows', enrolled', dir', caller, body, sanitize) == CreateRefusal(rows, enrolled, dir, caller, body, sanitize)
  {
    FormatVerdict(rows, enrolled, dir, rows', enrolled', dir', caller, RequiredErrors(body, CreateFields),
      Field(body, "lesson_date"), Field(body, "start_time"), Field(body, "end_time"), Course(body), StudentOf(body), sanitize);
  }

  /** FormatsBeforeLookups on what the verdict reads of the body. */
  lemma FormatVerdict(rows: Rows, enrolled: set<Approval.Member>, dir: Directory,
    rows': Rows, enrolled': set<Approval.Member>, dir': Directory, caller: Caller, errors: seq<string>,
    date: string, start: string, end: string, course: Option<nat>, student: Option<nat>, sanitize: string -> string)
    requires var r := Verdict(rows, enrolled, dir, caller, errors, date, start, end, course, student, sanitize);
      r.Some? && (r.value.message == BadDate || r.value.message == BadTime)
    ensures Verdict(rows', enrolled', dir', caller, errors, date, start, end, course, student, sanitize)
      == Verdict(rows, enrolled, dir, caller, errors, date, start, end, course, student, sanitize)
  {
    FormatMessages();
  }

  /** The two format messages differ from every other message of create.php. */
  lemma FormatMessages()
    ensures BadDate != Forbidden && BadTime != Forbidden
    ensures BadDate != "Validation failed" && BadTime != "Validation failed"
    ensures BadDate != NotEnrolled && BadTime != NotEnrolled
    ensures BadDate != CourseNotFound && BadTime != CourseNotFound
    ensures BadDate != Busy && BadTime != Busy
  {
    assert BadDate[2] == BadTime[2] == 'v' && Forbidden[2] == 's';
    assert BadDate[0] == BadTime[0] == 'I';
    assert "Validation failed"[0] == 'V' && NotEnrolled[0] == 'S' && CourseNotFound[0] == 'C';
  }

  /** The enrolment check comes before the course lookup: once the fields
      and formats pass, a student who is not enrolled is refused as such,
      whether or not the course exists. */
  lemma EnrolmentBeforeCourse(rows: Rows, enrolled: set<Approval.Member>, dir: Directory, caller: Caller, body: Payload, sanitize: string -> string)
    requires IsStaff(caller) && RequiredErrors(body, CreateFields) == []
    requires Calendar.ValidateDate(Field(body, "lesson_date"))
    requires Clock.ValidateTime(Field(body, "start_time")) && Clock.ValidateTime(Field(body, "end_time"))
    requires !Enrolled(enrolled, body)
    ensures CreateRefusal(rows, enrolled, dir, caller, body, sanitize) == Some(Refusal(400, NotEnrolled, []))
  {
  }

  /** The verdict reads the body only through the required-field errors,
      the date and time texts and the two ids. */
  lemma SameVerdict(rows: Rows, enrolled: set<Approval.Member>, dir: Directory, caller: Caller, b1: Payload, b2: Payload, sanitize: string -> string)
    requires RequiredErrors(b1, CreateFields) == RequiredErrors(b2, CreateFields)
    requires Field(b1, "lesson_date") == Field(b2, "lesson_date")
    requires Field(b1, "start_time") == Field(b2, "start_time") && Field(b1, "end_time") == Field(b2, "end_time")
    requires Course(b1) == Course(b2) && StudentOf(b1) == StudentOf(b2)
    ensures CreateRefusal(rows, enrolled, dir, caller, b1, sanitize) == CreateRefusal(rows, enrolled, dir, caller, b2, sanitize)
  {
  }

  /** The `teacher_id` a caller supplies has no effect: neither the
      verdict nor the inserted data depend on it, and the stored teacher is
      always the course's. */
  lemma TeacherIdIgnored(rows: Rows, enrolled: set<Approval.Member>, dir: Directory, caller: Caller, body: Payload, v: Value, sanitize: string -> string)
    ensures CreateRefusal(rows, enrolled, dir, caller, body["teacher_id" := v], sanitize)
      == CreateRefusal(rows, enrolled, dir, caller, body, sanitize)
    ensures CreateRefusal(rows, enrolled, dir, caller, body, sanitize).None? ==>
      CreateData(dir, body["teacher_id" := v], sanitize) == CreateData(dir, body, sanitize)
      && CreateData(dir, body, sanitize).teacher == dir.courseTeacher[Course(body).value]
  {
    var b := body["teacher_id" := v];
    RequiredErrorsIgnore(body, CreateFields, "teacher_id", v);
    assert Arg(b, "course_id") == Arg(body, "course_id");
    assert Arg(b, "student_id") == Arg(body, "student_id");
    assert Arg(b, "lesson_date") == Arg(body, "lesson_date");
    assert Arg(b, "start_time") == Arg(body, "start_time");
    assert Arg(b, "end_time") == Arg(body, "end_time");
    SameVerdict(rows, enrolled, dir, caller, b, body, sanitize);
  }

  /** The seed row an accepted create inserts: the course and student the
      checks found, the course's teacher, the date and times exactly as
      sent, and the defaults of `Lesson::create` for what the body leaves
      out: no parent, not recurring, notifications on, status scheduled. */
  lemma CreatedSeed(rows: Rows, enrolled: set<Approval.Member>, dir: Directory, caller: Caller, body: Payload,
                    sanitize: string -> string, id: nat)
    requires KeepsPlain(sanitize)
    requires CreateRefusal(rows, enrolled, dir, caller, body, sanitize).None?
    ensures Course(body).Some? && StudentOf(body).Some? && Course(body).value in dir.courseTeacher
    ensures var l := SeedRow(id, CreateData(dir, body, sanitize));
      l.id == id && l.course == Course(body).value && l.student == StudentOf(body).value
      && l.teacher == dir.courseTeacher[l.course]
      && l.date == Field(body, "lesson_date") && l.start == Field(body, "start_time") && l.end == Field(body, "end_time")
      && ("parent_lesson_id" !in body ==> l.parent.None?)
      && ("is_recurring" !in body ==> l.isRecurring == Int(0))
      && ("skip_notification" !in body ==> l.skipNotification == Int(0))
      && ("status" !in body ==> l.status == Scheduled)
  {
    CreateAccepted(rows, enrolled, dir, caller, body, sanitize);
  }

  /** The body with start and end exchanged. */
  function Swapped(body: Payload): Payload
  {
    body["start_time" := Arg(body, "end_time")]["end_time" := Arg(body, "start_time")]
  }

  lemma SwappedFieldsPresent(body: Payload)
    requires RequiredErrors(body, CreateFields) == []
    ensures RequiredErrors(Swapped(body), CreateFields) == []
  {
    var swapped := Swapped(body);
    RequiredErrorsEmpty(body, CreateFields);
    RequiredErrorsEmpty(swapped, CreateFields);
    assert !Missing(body, CreateFields[3]) && !Missing(body, CreateFields[4]);
    forall i | 0 <= i < |CreateFields|
      ensures !Missing(swapped, CreateFields[i])
    {
      assert !Missing(body, CreateFields[i]);
    }
  }

  /** Only the formats of the times are checked, not their order: when a
      booking is accepted, the same booking with start and end exchanged is
      accepted on an empty table. */
  lemma TimeOrderNotChecked(rows: Rows, enrolled: set<Approval.Member>, dir: Directory, caller: Caller, body: Payload, sanitize: string -> string)
    requires CreateRefusal(rows, enrolled, dir, caller, body, sanitize).None?
    ensures CreateRefusal(map[], enrolled, dir, caller, Swapped(body), sanitize).None?
  {
    var swapped := Swapped(body);
    assert IsStaff(caller) && RequiredErrors(body, CreateFields) == [];
    CreateAccepted(rows, enrolled, dir, caller, body, sanitize);
    CreateAccepted(map[], enrolled, dir, caller, swapped, sanitize);
    SwappedFieldsPresent(body);
    RequiredErrorsEmpty(swapped, CreateFields);
    SwappedArgs(body);
    assert Field(swapped, "lesson_date") == Field(body, "lesson_date");
    assert Field(swapped, "start_time") == Field(body, "end_time");
    assert Field(swapped, "end_time") == Field(body, "start_time");
    assert Course(swapped) == Course(body) && StudentOf(swapped) == StudentOf(body);
    var course := Course(body).value;
    assert course in dir.courseTeacher;
    assert !Conflict(map[], dir.courseTeacher[course], sanitize(Field(swapped, "lesson_date")),
      sanitize(Field(swapped, "start_time")), sanitize(Field(swapped, "end_time")), None);
  }

  lemma SwappedArgs(body: Payload)
    ensures Arg(Swapped(body), "course_id") == Arg(body, "course_id")
    ensures Arg(Swapped(body), "student_id") == Arg(body, "student_id")
    ensures Arg(Swapped(body), "lesson_date") == Arg(body, "lesson_date")
    ensures Arg(Swapped(body), "start_time") == Arg(body, "end_time")
    ensures Arg(Swapped(body), "end_time") == Arg(body, "start_time")
  {
    assert "student_id"[2] != "start_time"[2];
    assert "lesson_date"[0] != "start_time"[0] && "course_id"[0] != "start_time"[0];
  }

  /** An accepted create keeps the seed row clear of every scheduled lesson
      of its teacher; the generated occurrences are not checked. */
  lemma CreateKeepsSeedClear(rows: Rows, next: nat, enrolled: set<Approval.Member>, dir: Directory, caller: Caller, body: Payload, sanitize: string -> string)
    requires NoOverlap(rows) && KeyedBelow(rows, next)
    requires CreateRefusal(rows, enrolled, dir, caller, body, sanitize).None?
    ensures NoOverlap(rows[next := SeedRow(next, CreateData(dir, body, sanitize))])
  {
    assert next !in rows;
    CheckedWriteKeepsNoOverlap(rows, next, SeedRow(next, CreateData(dir, body, sanitize)), None);
  }

  /** The checks of create.php, in their order, up to the insert. */
  method CheckCreate(table: LessonTable, enrolments: Approval.Workflow, dir: Directory, caller: Caller, body: Payload, sanitize: string -> string)
    returns (r: Option<Refusal>)
    ensures r == CreateRefusal(table.rows, enrolments.members, dir, caller, body, sanitize)
  {
    if !IsStaff(caller) {
      return Some(Refusal(403, Forbidden, []));
    }
    var errors := ValidateRequiredFields(body, CreateFields);
    if errors != [] {
      return Some(Refusal(400, "Validation failed", errors));
    }
    var date := Field(body, "lesson_date");
    if !Calendar.ValidateDate(date) {
      return Some(Refusal(400, BadDate, []));
    }
    var start := Field(body, "start_time");
    var end := Field(body, "end_time");
    if !Clock.ValidateTime(start) || !Clock.ValidateTime(end) {
      return Some(Refusal(400, BadTime, []));
    }
    if !Enrolled(enrolments.members, body) {
      return Some(Refusal(400, NotEnrolled, []));
    }
    var course := Course(body).value;
    if course !in dir.courseTeacher {
      return Some(Refusal(404, CourseNotFound, []));
    }
    var teacher := dir.courseTeacher[course];
    if caller.role == Teacher && teacher != caller.id {
      return Some(Refusal(403, Forbidden, []));
    }
    if Conflict(table.rows, teacher, sanitize(date), sanitize(start), sanitize(end), None) {
      return Some(Refusal(400, Busy, []));
    }
    r := None;
  }

  /** create.php. A refused request changes nothing and notifies no one;
      an accepted one inserts the lesson, with its series when it recurs,
      answers 201 with the stored lesson, and notifies the student unless
      the sanitized `skip_notification` is loosely 1. */
  method CreateLesson(table: LessonTable, enrolments: Approval.Workflow, dir: Directory, caller: Caller, body: Payload, sanitize: string -> string)
    returns (reply: Reply<Lesson>, notices: seq<Notice>)
    requires table.Valid() && KeepsPlain(sanitize)
    modifies table
    ensures table.Valid()
    ensures var r := CreateRefusal(old(table.rows), enrolments.members, dir, caller, body, sanitize);
      r.Some? ==> (reply == Refused(r.value) && notices == []
        && table.rows == old(table.rows) && table.nextId == old(table.nextId))
    ensures CreateRefusal(old(table.rows), enrolments.members, dir, caller, body, sanitize).None? ==>
      var data := CreateData(dir, body, sanitize);
      var id := old(table.nextId);
      table.rows == old(table.rows)[id := SeedRow(id, data)]
        + (if Recurs(data) then SeriesRows(id, data) else map[])
      && reply == Reply(201, "Lesson created successfully", [], Some(SeedRow(id, data)))
      && notices == (if LooselyOne(data.skipNotification) then [] else [LessonCreated(data.student, id)])
  {
    var refusal := CheckCreate(table, enrolments, dir, caller, body, sanitize);
    if refusal.Some? {
      return Refused(refusal.value), [];
    }
    var data := CreateData(dir, body, sanitize);
    var id := table.Create(data);
    if Recurs(data) {
      SeriesSize(id, data);
    }
    var lesson := table.Find(Some(id));
    reply := Reply(201, "Lesson created successfully", [], lesson);
    notices := [];
    if !LooselyOne(data.skipNotification) {
      notices := notices + [LessonCreated(data.student, id)];
    }
  }

  // ---------------------------------------------------------------------
  // The guard shared by update.php and delete.php

  /** Staff only, an id, an existing lesson, and a teacher only on their
      own lessons. */
  function LessonGuard(rows: Rows, caller: Caller, body: Payload): (r: Option<Refusal>)
    ensures r.None? <==> (IsStaff(caller) && Target(rows, body).Some?
      && (caller.role == Teacher ==> rows[Target(rows, body).value].teacher == caller.id))
  {
    if !IsStaff(caller) then Some(Refusal(403, Forbidden, []))
    else if "id" !in body then Some(Refusal(400, IdRequired, []))
    else if Target(rows, body).None? then Some(Refusal(404, LessonNotFound, []))
    else if caller.role == Teacher && rows[Target(rows, body).value].teacher != caller.id then
      Some(Refusal(403, Forbidden, []))
    else None
  }

  /** The first checks of update.php and delete.php, in their order. */
  method CheckLesson(table: LessonTable, caller: Caller, body: Payload) returns (r: Result<nat, Refusal>)
    requires table.Valid()
    ensures r.Err? <==> LessonGuard(table.rows, caller, body).Some?
    ensures r.Err? ==> r.error == LessonGuard(table.rows, caller, body).value
    ensures r.Ok? ==> Target(table.rows, body) == Some(r.value)
  {
    if !IsStaff(caller) {
      return Err(Refusal(403, Forbidden, []));
    }
    if "id" !in body {
      return Err(Refusal(400, IdRequired, []));
    }
    var lessonId := AsId(body["id"]);
    var lesson := table.Find(lessonId);
    if lesson.None? {
      return Err(Refusal(404, LessonNotFound, []));
    }
    if caller.role == Teacher && lesson.value.teacher != caller.id {
      return Err(Refusal(403, Forbidden, []));
    }
    r := Ok(lessonId.value);
  }

  // ---------------------------------------------------------------------
  // update.php

  /** Any of date, start or end is supplied. */
  predicate TimesGiven(body: Payload)
  {
    "lesson_date" in body || "start_time" in body || "end_time" in body
  }

  /** The value the conflict check uses: the supplied one, else the stored
      one. */
  function Effective(body: Payload, k: string, stored: string): string
  {
    if k in body then AsText(body[k]) else stored
  }

  /** `$updateData`: every supplied field among date, start, end,
      classroom, notes, objectives and status; the classroom, notes and
      objectives pass through `sanitize`, the others are copied as sent. */
  function PatchOf(body: Payload, sanitize: string -> string): Patch
  {
    Patch(TextField(body, "lesson_date"), TextField(body, "start_time"), TextField(body, "end_time"),
      Clean(body, "classroom", sanitize), Clean(body, "private_notes", sanitize), Clean(body, "objectives", sanitize),
      if "status" in body then Some(StatusOf(AsText(body["status"]))) else None)
  }

  /** The refusal update.php answers with, in the order of its checks. */
  function UpdateRefusal(rows: Rows, caller: Caller, body: Payload, sanitize: string -> string): Option<Refusal>
  {
    var g := LessonGuard(rows, caller, body);
    if g.Some? then g
    else
      var k := Target(rows, body).value;
      var l := rows[k];
      if "lesson_date" in body && !Calendar.ValidateDate(AsText(body["lesson_date"])) then
        Some(Refusal(400, BadDate, []))
      else if "start_time" in body && !Clock.ValidateTime(AsText(body["start_time"])) then
        Some(Refusal(400, BadTime, []))
      else if "end_time" in body && !Clock.ValidateTime(AsText(body["end_time"])) then
        Some(Refusal(400, BadTime, []))
      else if TimesGiven(body) && Conflict(rows, l.teacher, Effective(body, "lesson_date", l.date),
        Effective(body, "start_time", l.start), Effective(body, "end_time", l.end), Some(k)) then
        Some(Refusal(400, Busy, []))
      else if NoFields(PatchOf(body, sanitize)) then Some(Refusal(400, "No fields to update", []))
      else None
  }

  /** An update is accepted exactly when the guard passes, every supplied
      date and time is well formed, a request supplying a date, start or
      end leaves the slot it describes (stored values filling the gaps)
      free of the teacher's other lessons, and some field is supplied. */
  lemma UpdateAccepted(rows: Rows, caller: Caller, body: Payload, sanitize: string -> string)
    ensures UpdateRefusal(rows, caller, body, sanitize).None? <==>
      LessonGuard(rows, caller, body).None?
      && ("lesson_date" in body ==> Calendar.ValidateDate(AsText(body["lesson_date"])))
      && ("start_time" in body ==> Clock.ValidateTime(AsText(body["start_time"])))
      && ("end_time" in body ==> Clock.ValidateTime(AsText(body["end_time"])))
      && (TimesGiven(body) ==>
            var l := rows[Target(rows, body).value];
            !Conflict(rows, l.teacher, Effective(body, "lesson_date", l.date), Effective(body, "start_time", l.start),
              Effective(body, "end_time", l.end), Target(rows, body)))
      && !NoFields(PatchOf(body, sanitize))
  {
  }

  /** The fields that need no conflict check: an update that supplies no
      date, start or end is never refused for a clash, whatever the table
      holds. */
  lemma UntimedUpdateSkipsCheck(rows: Rows, caller: Caller, body: Payload, sanitize: string -> string)
    requires !TimesGiven(body)
    ensures UpdateRefusal(rows, caller, body, sanitize) != Some(Refusal(400, Busy, []))
    ensures UpdateRefusal(rows, caller, body, sanitize).None? <==>
      LessonGuard(rows, caller, body).None? && !NoFields(PatchOf(body, sanitize))
  {
  }

  /** An accepted update that supplies a date, start or end, without the
      cascade, keeps the table free of overlaps: the check used the values
      the row ends up with. */
  lemma UpdateKeepsNoOverlap(rows: Rows, caller: Caller, body: Payload, sanitize: string -> string)
    requires NoOverlap(rows)
    requires UpdateRefusal(rows, caller, body, sanitize).None? && TimesGiven(body)
    ensures NoOverlap(Updated(rows, Target(rows, body).value, PatchOf(body, sanitize), false))
  {
    var k := Target(rows, body).value;
    var p := PatchOf(body, sanitize);
    var l := Patched(rows[k], p);
    assert Updated(rows, k, p, false) == rows[k := l];
    CheckedWriteKeepsNoOverlap(rows, k, l, Some(k));
  }

  /** A status-only update is not checked, so setting a cancelled lesson
      back to scheduled can put two scheduled lessons of one teacher in the
      same slot. */
  lemma RevivalBreaksNoOverlap(sanitize: string -> string)
    ensures var a := Lesson(1, 1, 2, 7, "2024-01-01", "10:00", "11:00", None, None, None,
        Int(0), None, None, Scheduled, Int(0));
      var rows := map[1 := a, 2 := a.(id := 2, status := Cancelled)];
      var body := map["id" := Int(2), "status" := Str("scheduled")];
      NoOverlap(rows) && UpdateRefusal(rows, Caller(9, Admin), body, sanitize).None?
      && !NoOverlap(Updated(rows, 2, PatchOf(body, sanitize), false))
  {
    var a := Lesson(1, 1, 2, 7, "2024-01-01", "10:00", "11:00", None, None, None,
      Int(0), None, None, Scheduled, Int(0));
    RevivalAccepted(a, sanitize);
    RevivalClashes(a, sanitize);
  }

  lemma RevivalAccepted(a: Lesson, sanitize: string -> string)
    requires a.id == 1 && a.teacher == 7 && a.status == Scheduled
    ensures var rows := map[1 := a, 2 := a.(id := 2, status := Cancelled)];
      var body := map["id" := Int(2), "status" := Str("scheduled")];
      NoOverlap(rows) && UpdateRefusal(rows, Caller(9, Admin), body, sanitize).None?
  {
    var rows := map[1 := a, 2 := a.(id := 2, status := Cancelled)];
    var body := map["id" := Int(2), "status" := Str("scheduled")];
    assert Target(rows, body) == Some(2);
    assert !TimesGiven(body);
    assert PatchOf(body, sanitize).status == Some(Scheduled);
  }

  lemma RevivalClashes(a: Lesson, sanitize: string -> string)
    requires a == Lesson(1, 1, 2, 7, "2024-01-01", "10:00", "11:00", None, None, None,
      Int(0), None, None, Scheduled, Int(0))
    ensures var rows := map[1 := a, 2 := a.(id := 2, status := Cancelled)];
      var body := map["id" := Int(2), "status" := Str("scheduled")];
      !NoOverlap(Updated(rows, 2, PatchOf(body, sanitize), false))
  {
    var rows := map[1 := a, 2 := a.(id := 2, status := Cancelled)];
    var body := map["id" := Int(2), "status" := Str("scheduled")];
    var after := Updated(rows, 2, PatchOf(body, sanitize), false);
    assert after[2] == a.(id := 2);
    TenBeforeEleven();
    assert after[1] == a;
    assert Overlaps(after[1].start, after[1].end, after[2].start, after[2].end);
  }

  lemma TenBeforeEleven()
    ensures Before("10:00", "11:00")
  {
    assert "10:00"[0] == "11:00"[0] && "10:00"[1] < "11:00"[1];
    assert "10:00"[1..] == "0:00" && "11:00"[1..] == "1:00";
  }

  /** `$updateData`: the supplied fields among the seven update.php copies. */
  method GatherPatch(body: Payload, sanitize: string -> string) returns (updateData: Patch)
    ensures updateData == PatchOf(body, sanitize)
  {
    updateData := Patch(None, None, None, None, None, None, None);
    if "lesson_date" in body {
      updateData := updateData.(date := Some(AsText(body["lesson_date"])));
    }
    if "start_time" in body {
      updateData := updateData.(start := Some(AsText(body["start_time"])));
    }
    if "end_time" in body {
      updateData := updateData.(end := Some(AsText(body["end_time"])));
    }
    if "classroom" in body {
      updateData := updateData.(classroom := Some(sanitize(AsText(body["classroom"]))));
    }
    if "private_notes" in body {
      updateData := updateData.(privateNotes := Some(sanitize(AsText(body["private_notes"]))));
    }
    if "objectives" in body {
      updateData := updateData.(objectives := Some(sanitize(AsText(body["objectives"]))));
    }
    if "status" in body {
      updateData := updateData.(status := Some(StatusOf(AsText(body["status"]))));
    }
  }

  /** The checks of update.php, in their order, and the `$updateData`
      it gathers from the body before the last of them. */
  method CheckUpdate(table: LessonTable, caller: Caller, body: Payload, sanitize: string -> string)
    returns (r: Result<nat, Refusal>, updateData: Patch)
    requires table.Valid()
    ensures r.Err? <==> UpdateRefusal(table.rows, caller, body, sanitize).Some?
    ensures r.Err? ==> r.error == UpdateRefusal(table.rows, caller, body, sanitize).value
    ensures r.Ok? ==> Target(table.rows, body) == Some(r.value) && updateData == PatchOf(body, sanitize)
  {
    updateData := Patch(None, None, None, None, None, None, None);
    var checked := CheckLesson(table, caller, body);
    if checked.Err? {
      return Err(checked.error), updateData;
    }
    var lessonId := checked.value;
    var lesson := table.rows[lessonId];
    if "lesson_date" in body && !Calendar.ValidateDate(AsText(body["lesson_date"])) {
      return Err(Refusal(400, BadDate, [])), updateData;
    }
    if "start_time" in body && !Clock.ValidateTime(AsText(body["start_time"])) {
      return Err(Refusal(400, BadTime, [])), updateData;
    }
    if "end_time" in body && !Clock.ValidateTime(AsText(body["end_time"])) {
      return Err(Refusal(400, BadTime, [])), updateData;
    }
    if TimesGiven(body) {
      var checkDate := if "lesson_date" in body then AsText(body["lesson_date"]) else lesson.date;
      var checkStart := if "start_time" in body then AsText(body["start_time"]) else lesson.start;
      var checkEnd := if "end_time" in body then AsText(body["end_time"]) else lesson.end;
      if Conflict(table.rows, lesson.teacher, checkDate, checkStart, checkEnd, Some(lessonId)) {
        return Err(Refusal(400, Busy, [])), updateData;
      }
    }
    updateData := GatherPatch(body, sanitize);
    if NoFields(updateData) {
      return Err(Refusal(400, "No fields to update", [])), updateData;
    }
    return Ok(lessonId), updateData;
  }

  /** update.php. A refused request changes nothing and notifies no one;
      an accepted one applies the supplied fields, with the cascade when
      `update_recurring` is truthy, answers with the stored lesson, and
      notifies the student when a date, start or end was supplied and
      `skip_notification != 1`. */
  method UpdateLesson(table: LessonTable, caller: Caller, body: Payload, sanitize: string -> string)
    returns (reply: Reply<Lesson>, notices: seq<Notice>)
    requires table.Valid()
    modifies table
    ensures table.Valid() && table.nextId == old(table.nextId)
    ensures var r := UpdateRefusal(old(table.rows), caller, body, sanitize);
      r.Some? ==> reply == Refused(r.value) && notices == [] && table.rows == old(table.rows)
    ensures UpdateRefusal(old(table.rows), caller, body, sanitize).None? ==>
      var k := Target(old(table.rows), body).value;
      table.rows == Updated(old(table.rows), k, PatchOf(body, sanitize), FlagTruthy(body, "update_recurring"))
      && reply == Reply(200, "Lesson updated successfully", [], Some(table.rows[k]))
      && notices == (if !FlagIsOne(body, "skip_notification") && TimesGiven(body)
                     then [LessonModified(old(table.rows)[k].student, k)] else [])
  {
    var checked, updateData := CheckUpdate(table, caller, body, sanitize);
    if checked.Err? {
      return Refused(checked.error), [];
    }
    var lessonId := checked.value;
    var lesson := table.rows[lessonId];
    var updateRecurring := FlagTruthy(body, "update_recurring");
    var _ := table.Update(lessonId, updateData, updateRecurring);
    var updated := table.Find(Some(lessonId));
    notices := [];
    if !FlagIsOne(body, "skip_notification") {
      if TimesGiven(body) {
        notices := notices + [LessonModified(lesson.student, lessonId)];
      }
    }
    reply := Reply(200, "Lesson updated successfully", [], updated);
  }

  // ---------------------------------------------------------------------
  // delete.php

  /** delete.php. A refused request changes nothing and notifies no one. An
      accepted one cancels the lesson, and with a truthy `delete_recurring`
      the rest of its series. With a truthy `skip_notification` nobody is
      notified; otherwise the lesson's student gets exactly one
      cancellation notice, and unless `no_assign == 1` a free-slot notice
      for the lesson's course, teacher, date and times follows. */
  method DeleteLesson(table: LessonTable, caller: Caller, body: Payload)
    returns (reply: Reply<()>, notices: seq<Notice>)
    requires table.Valid()
    modifies table
    ensures table.Valid() && table.nextId == old(table.nextId)
    ensures var g := LessonGuard(old(table.rows), caller, body);
      g.Some? ==> reply == Refused(g.value) && notices == [] && table.rows == old(table.rows)
    ensures LessonGuard(old(table.rows), caller, body).None? ==>
      var k := Target(old(table.rows), body).value;
      var l := old(table.rows)[k];
      table.rows == CancelledRows(old(table.rows), k, FlagTruthy(body, "delete_recurring"))
      && reply == Reply(200, "Lesson cancelled successfully", [], None)
      && (FlagTruthy(body, "skip_notification") ==> notices == [])
      && (!FlagTruthy(body, "skip_notification") ==>
            |notices| == (if FlagIsOne(body, "no_assign") then 1 else 2)
            && notices[0] == LessonCancelled(l.student, k)
            && (!FlagIsOne(body, "no_assign") ==> notices[1] == FreeSlot(l.course, l.teacher, l.date, l.start, l.end)))
  {
    var checked := CheckLesson(table, caller, body);
    if checked.Err? {
      return Refused(checked.error), [];
    }
    var lessonId := checked.value;
    var lesson := table.rows[lessonId];
    var deleteRecurring := FlagTruthy(body, "delete_recurring");
    var skipNotification := FlagTruthy(body, "skip_notification");
    table.Delete(lessonId, deleteRecurring);
    notices := [];
    if !skipNotification {
      notices := notices + [LessonCancelled(lesson.student, lessonId)];
      if !FlagIsOne(body, "no_assign") {
        notices := notices + [FreeSlot(lesson.course, lesson.teacher, lesson.date, lesson.start, lesson.end)];
      }
    }
    reply := Reply(200, "Lesson cancelled successfully", [], None);
  }

  // ---------------------------------------------------------------------
  // read.php

  /** What a read answers with: one lesson, the next lesson if any, or a
      list. */
  datatype Found = One(lesson: Lesson) | MaybeOne(next: Option<Lesson>) | Many(lessons: seq<Lesson>)

  /** The lessons a reply shows. */
  function Shown(f: Found): (r: seq<Lesson>)
    ensures forall l :: l in r <==>
      (f.One? && l == f.lesson) || (f.MaybeOne? && f.next == Some(l)) || (f.Many? && l in f.lessons)
  {
    match f
    case One(l) => [l]
    case MaybeOne(o) => if o.Some? then [o.value] else []
    case Many(s) => s
  }

  /** What a student may receive: only their own lessons, never with
      their private notes. */
  predicate OwnLessonsOnly(caller: Caller, reply: Reply<Found>)
  {
    caller.role == Student && reply.body.Some? ==>
      forall l :: l in Shown(reply.body.value) ==> l.privateNotes.None? && l.student == caller.id
  }

  /** The lesson as the caller receives it: students without private
      notes. */
  function ForRole(caller: Caller, l: Lesson): (r: Lesson)
    ensures caller.role == Student ==> r.privateNotes.None?
    ensures r.(privateNotes := l.privateNotes) == l
  {
    if caller.role == Student then Redacted(l) else l
  }

  /** The per-role test of a read by id. */
  predicate MayRead(caller: Caller, l: Lesson)
  {
    match caller.role
    case Student => l.student == caller.id
    case Teacher => l.teacher == caller.id
    case Admin => true
  }

  /** The read by id: 404 for an unknown id, 403 for a student's read of
      another's lesson or a teacher's read of a lesson they do not teach,
      otherwise the lesson, without notes for a student. */
  function ReadById(rows: Rows, caller: Caller, id: string): (r: Reply<Found>)
    ensures TextId(id).None? || TextId(id).value !in rows ==> r == Fail(404, LessonNotFound)
    ensures TextId(id).Some? && TextId(id).value in rows ==>
      var l := rows[TextId(id).value];
      if MayRead(caller, l) then r == Reply(200, "Lesson retrieved successfully", [], Some(One(ForRole(caller, l))))
      else r == Fail(403, Forbidden)
    ensures OwnLessonsOnly(caller, r)
  {
    var key := TextId(id);
    if key.None? || key.value !in rows then Fail(404, LessonNotFound)
    else
      var l := rows[key.value];
      if caller.role == Student && l.student != caller.id then Fail(403, Forbidden)
      else if caller.role == Teacher && l.teacher != caller.id then Fail(403, Forbidden)
      else Reply(200, "Lesson retrieved successfully", [], Some(One(ForRole(caller, l))))
  }

  /** `foreach ($lessons as &$lesson) unset($lesson['private_notes'])`. */
  method StripNotes(s: seq<Lesson>) returns (r: seq<Lesson>)
    ensures |r| == |s|
    ensures forall i :: 0 <= i < |s| ==> r[i] == Redacted(s[i])
  {
    r := s;
    var i := 0;
    while i < |r|
      invariant |r| == |s| && 0 <= i <= |s|
      invariant forall j :: 0 <= j < i ==> r[j] == Redacted(s[j])
      invariant forall j :: i <= j < |s| ==> r[j] == s[j]
    {
      r := r[i := Redacted(r[i])];
      i := i + 1;
    }
  }

  /** The list as the caller receives it. */
  method ForRoleAll(caller: Caller, s: seq<Lesson>) returns (r: seq<Lesson>)
    ensures |r| == |s|
    ensures forall i :: 0 <= i < |s| ==> r[i] == ForRole(caller, s[i])
  {
    if caller.role == Student {
      r := StripNotes(s);
    } else {
      r := s;
    }
  }

  /** The read of a student's next lesson: a student may ask only about
      themselves; the answer is the earliest upcoming scheduled lesson, or
      none. */
  method ReadNext(table: LessonTable, caller: Caller, student: string, today: string) returns (reply: Reply<Found>)
    requires table.Valid()
    ensures NextReply(table.rows, caller, student, today, reply)
    ensures OwnLessonsOnly(caller, reply)
  {
    if caller.role == Student && TextId(student) != Some(caller.id) {
      return Fail(403, Forbidden);
    }
    var next := table.NextLesson(student, today);
    if next.Some? {
      var k :| k in table.rows && table.rows[k] == next.value;
      next := Some(ForRole(caller, next.value));
    }
    reply := Reply(200, "Next lesson retrieved successfully", [], Some(MaybeOne(next)));
  }

  /** The reply of the next-lesson read: 403 for a student asking about
      someone else; otherwise none exactly when no lesson of the student's
      is upcoming, and else one that sorts no later than every upcoming
      one, as the caller may see it. */
  ghost predicate NextReply(rows: Rows, caller: Caller, student: string, today: string, reply: Reply<Found>)
  {
    if caller.role == Student && TextId(student) != Some(caller.id) then reply == Fail(403, Forbidden)
    else
      reply.code == 200 && reply.message == "Next lesson retrieved successfully" && reply.errors == []
      && reply.body.Some? && reply.body.value.MaybeOne?
      && var o := reply.body.value.next;
      (o.None? <==> forall k :: k in rows ==> !Upcoming(student, today, rows[k]))
      && (o.Some? ==> exists k: nat :: (k in rows && Upcoming(student, today, rows[k])
            && o.value == ForRole(caller, rows[k])
            && forall j :: j in rows && Upcoming(student, today, rows[j]) ==> KeyAtMost(rows[k], rows[j])))
  }

  /** The history limit: `intval($_GET['limit'])`, or 50. */
  function HistoryLimit(query: map<string, string>): int
  {
    if "limit" in query then IntVal(query["limit"]) else 50
  }

  /** The read of a student's history: a student may ask only about
      themselves; the answer lists the student's lessons latest first, at
      most `limit` of them when it is not negative. */
  method ReadHistory(table: LessonTable, caller: Caller, student: string, limit: int) returns (reply: Reply<Found>)
    requires table.Valid()
    ensures HistoryReply(table.rows, caller, student, limit, reply)
    ensures OwnLessonsOnly(caller, reply)
  {
    if caller.role == Student && TextId(student) != Some(caller.id) {
      return Fail(403, Forbidden);
    }
    var history := table.History(student, limit);
    var shown := ForRoleAll(caller, history);
    reply := Reply(200, "Lesson history retrieved successfully", [], Some(Many(shown)));
    HistoryShown(table.rows, caller, student, limit, history, shown);
    assert reply.body.value.lessons == shown;
  }

  /** The reply of the history read: 403 for a student asking about
      someone else; otherwise the student's lessons as the caller may see
      them, latest first and at most `limit` of them; a lesson of the
      student's that is not shown means the limit was reached, and it sorts
      no later than every lesson shown. */
  ghost predicate HistoryReply(rows: Rows, caller: Caller, student: string, limit: int, reply: Reply<Found>)
  {
    if caller.role == Student && TextId(student) != Some(caller.id) then reply == Fail(403, Forbidden)
    else
      reply.code == 200 && reply.message == "Lesson history retrieved successfully" && reply.errors == []
      && reply.body.Some? && reply.body.value.Many?
      && var s := reply.body.value.lessons;
      (0 <= limit ==> |s| <= limit) && Descending(s)
      && (forall i :: 0 <= i < |s| ==> StudentRowAsShown(rows, caller, student, s[i]))
      && HistoryComplete(rows, caller, student, limit, s)
  }

  /** Every lesson of the student's is shown, unless `limit` lessons are
      shown and it sorts no later than each of them. */
  ghost predicate HistoryComplete(rows: Rows, caller: Caller, student: string, limit: int, s: seq<Lesson>)
  {
    forall k :: k in rows && TextId(student) == Some(rows[k].student) ==>
      ForRole(caller, rows[k]) in s || (0 <= limit == |s| && forall x :: x in s ==> KeyAtMost(rows[k], x))
  }

  /** `x` is a row of the student's, as the caller may see it. */
  ghost predicate StudentRowAsShown(rows: Rows, caller: Caller, student: string, x: Lesson)
  {
    exists k: nat :: k in rows && TextId(student) == Some(rows[k].student) && x == ForRole(caller, rows[k])
  }

  /** The history as shown: still latest first, each entry one of the
      student's rows as the caller may see it, and for a student asking
      about themselves only their own lessons without private notes. */
  lemma HistoryShown(rows: Rows, caller: Caller, student: string, limit: int, history: seq<Lesson>, shown: seq<Lesson>)
    requires forall l :: l in history ==> l in rows.Values && TextId(student) == Some(l.student)
    requires Descending(history)
    requires forall l :: l in rows.Values && TextId(student) == Some(l.student) && l !in history ==>
      0 <= limit == |history| && forall x :: x in history ==> KeyAtMost(l, x)
    requires |shown| == |history| && forall i :: 0 <= i < |history| ==> shown[i] == ForRole(caller, history[i])
    ensures Descending(shown)
    ensures forall i :: 0 <= i < |shown| ==> StudentRowAsShown(rows, caller, student, shown[i])
    ensures HistoryComplete(rows, caller, student, limit, shown)
    ensures caller.role == Student && TextId(student) == Some(caller.id) ==>
      forall l :: l in shown ==> l.privateNotes.None? && l.student == caller.id
  {
    forall i | 0 <= i < |shown|
      ensures StudentRowAsShown(rows, caller, student, shown[i])
    {
      var l := history[i];
      assert l in history;
      var k :| k in rows && rows[k] == l;
      assert shown[i] == ForRole(caller, rows[k]);
    }
    forall i, j | 0 <= i < j < |shown|
      ensures KeyAtMost(shown[j], shown[i])
    {
      assert KeyAtMost(history[j], history[i]);
    }
    forall k | k in rows && TextId(student) == Some(rows[k].student)
      ensures ForRole(caller, rows[k]) in shown
        || (0 <= limit == |shown| && forall x :: x in shown ==> KeyAtMost(rows[k], x))
    {
      if rows[k] in history {
        var i :| 0 <= i < |history| && history[i] == rows[k];
        assert shown[i] == ForRole(caller, rows[k]);
      } else {
        assert rows[k] in rows.Values;
        forall x | x in shown
          ensures KeyAtMost(rows[k], x)
        {
          var i :| 0 <= i < |shown| && shown[i] == x;
          assert history[i] in history;
          assert KeyAtMost(rows[k], history[i]);
        }
      }
    }
    if caller.role == Student && TextId(student) == Some(caller.id) {
      forall l | l in shown
        ensures l.privateNotes.None? && l.student == caller.id
      {
        var i :| 0 <= i < |shown| && shown[i] == l;
        assert history[i] in history;
      }
    }
  }

  /** `x` is a row matching the filters, as the caller may see it. */
  ghost predicate MatchAsShown(rows: Rows, caller: Caller, f: Filters, x: Lesson)
  {
    exists k: nat :: k in rows && Matches(f, rows[k]) && x == ForRole(caller, rows[k])
  }

  /** The filter listing as shown: every entry is a matching row as the
      caller may see it, every matching row is shown, the order is kept,
      and a student filtering on their own id sees only their own lessons
      without private notes. */
  lemma FilteredShown(rows: Rows, caller: Caller, f: Filters, lessons: seq<Lesson>, shown: seq<Lesson>)
    requires forall l :: l in lessons <==> l in rows.Values && Matches(f, l)
    requires Ascending(lessons)
    requires |shown| == |lessons| && forall i :: 0 <= i < |lessons| ==> shown[i] == ForRole(caller, lessons[i])
    ensures Ascending(shown)
    ensures forall i :: 0 <= i < |shown| ==> MatchAsShown(rows, caller, f, shown[i])
    ensures forall k :: k in rows && Matches(f, rows[k]) ==> ForRole(caller, rows[k]) in shown
    ensures caller.role == Student && f.student.Some? && TextId(f.student.value) == Some(caller.id) ==>
      forall l :: l in shown ==> l.privateNotes.None? && l.student == caller.id
  {
    forall i | 0 <= i < |shown|
      ensures MatchAsShown(rows, caller, f, shown[i])
    {
      assert lessons[i] in lessons;
      var k :| k in rows && rows[k] == lessons[i];
      assert shown[i] == ForRole(caller, rows[k]);
    }
    forall k | k in rows && Matches(f, rows[k])
      ensures ForRole(caller, rows[k]) in shown
    {
      assert rows[k] in lessons;
      var i :| 0 <= i < |lessons| && lessons[i] == rows[k];
      assert shown[i] == ForRole(caller, rows[k]);
    }
    forall i, j | 0 <= i < j < |shown|
      ensures KeyAtMost(shown[i], shown[j])
    {
      assert KeyAtMost(lessons[i], lessons[j]);
    }
    if caller.role == Student && f.student.Some? && TextId(f.student.value) == Some(caller.id) {
      forall l | l in shown
        ensures l.privateNotes.None? && l.student == caller.id
      {
        var i :| 0 <= i < |shown| && shown[i] == l;
        assert lessons[i] in lessons;
      }
    }
  }

  function Param(query: map<string, string>, k: string): Option<string>
  {
    if k in query then Some(query[k]) else None
  }

  /** The filters read.php collects from the query string. */
  function FiltersOf(query: map<string, string>): Filters
  {
    Filters(Param(query, "teacher_id"), Param(query, "student_id"), Param(query, "course_id"),
      Param(query, "date_from"), Param(query, "date_to"), Param(query, "status"))
  }

  /** The reply of the filter listing: 400 without a filter, 403 for a
      student not filtering on their own id, otherwise exactly the matching
      lessons as the caller may see them, in (date, start) order. */
  ghost predicate FilteredReply(rows: Rows, caller: Caller, f: Filters, reply: Reply<Found>)
  {
    if NoFilter(f) then reply == Fail(400, "Please provide at least one filter parameter")
    else if caller.role == Student && (f.student.None? || TextId(f.student.value) != Some(caller.id)) then
      reply == Fail(403, Forbidden)
    else
      reply.code == 200 && reply.message == "Lessons retrieved successfully" && reply.errors == []
      && reply.body.Some? && reply.body.value.Many?
      && var s := reply.body.value.lessons;
      Ascending(s)
      && (forall i :: 0 <= i < |s| ==> MatchAsShown(rows, caller, f, s[i]))
      && (forall k :: k in rows && Matches(f, rows[k]) ==> ForRole(caller, rows[k]) in s)
  }

  /** The filter listing: at least one filter, a student only with their
      own `student_id` among them; the answer is every matching lesson, in
      (date, start) order. */
  method ReadFiltered(table: LessonTable, caller: Caller, f: Filters) returns (reply: Reply<Found>)
    requires table.Valid()
    ensures FilteredReply(table.rows, caller, f, reply)
    ensures OwnLessonsOnly(caller, reply)
  {
    if NoFilter(f) {
      return Fail(400, "Please provide at least one filter parameter");
    }
    if caller.role == Student && (f.student.None? || TextId(f.student.value) != Some(caller.id)) {
      return Fail(403, Forbidden);
    }
    var lessons := table.ByFilters(f);
    var shown := ForRoleAll(caller, lessons);
    FilteredShown(table.rows, caller, f, lessons, shown);
    reply := Reply(200, "Lessons retrieved successfully", [], Some(Many(shown)));
  }

  /** read.php: the query selects the read by id, else the next lesson,
      else the history, else the filter listing. Whatever the path, a
      student receives only their own lessons and never their private
      notes. */
  method ReadLessons(table: LessonTable, caller: Caller, query: map<string, string>, today: string)
    returns (reply: Reply<Found>)
    requires table.Valid()
    ensures "id" in query ==> reply == ReadById(table.rows, caller, query["id"])
    ensures "id" !in query && "student_id" in query && "next" in query ==>
      NextReply(table.rows, caller, query["student_id"], today, reply)
    ensures "id" !in query && "student_id" in query && "next" !in query && "history" in query ==>
      HistoryReply(table.rows, caller, query["student_id"], HistoryLimit(query), reply)
    ensures "id" !in query && !("student_id" in query && ("next" in query || "history" in query)) ==>
      FilteredReply(table.rows, caller, FiltersOf(query), reply)
    ensures OwnLessonsOnly(caller, reply)
  {
    if "id" in query {
      return ReadById(table.rows, caller, query["id"]);
    }
    if "student_id" in query && "next" in query {
      reply := ReadNext(table, caller, query["student_id"], today);
      return;
    }
    if "student_id" in query && "history" in query {
      var limit := HistoryLimit(query);
      reply := ReadHistory(table, caller, query["student_id"], limit);
      return;
    }
    var filters := FiltersOf(query);
    reply := ReadFiltered(table, caller, filters);
  }
}
