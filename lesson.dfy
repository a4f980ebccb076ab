/** The lessons table of backend/models/Lesson.php as values: a lesson row,
    the conflict predicate of `hasConflict`, the dates of a generated series,
    what an update or a cancellation does to the table, and the filters and
    the order of the listing queries. The class that changes the table step
    by step is `LessonStore.LessonTable`. */
module Lessons {
  import opened Common
  import opened Text
  import Clock
  import Calendar

  /** The `status` column. The update endpoint writes any text it is given,
      so text other than the three known states is kept as `Other`. */
  datatype Status = Scheduled | Completed | Cancelled | Other(name: string)

  function StatusOf(text: string): Status
  {
    if text == "scheduled" then Scheduled
    else if text == "completed" then Completed
    else if text == "cancelled" then Cancelled
    else Other(text)
  }

  function StatusText(s: Status): string
  {
    match s
    case Scheduled => "scheduled"
    case Completed => "completed"
    case Cancelled => "cancelled"
    case Other(name) => name
  }

  /** A row of the lessons table. `date` is Y-m-d text and `start`/`end`
      are HH:MM or HH:MM:SS text, compared as text. `parent` is
      `parent_lesson_id`; `is_recurring` and `skip_notification` hold the
      value they were written with. */
  datatype Lesson = Lesson(
    id: nat,
    course: nat,
    student: nat,
    teacher: nat,
    date: string,
    start: string,
    end: string,
    classroom: Option<string>,
    privateNotes: Option<string>,
    objectives: Option<string>,
    isRecurring: Value,
    pattern: Option<string>,
    parent: Option<nat>,
    status: Status,
    skipNotification: Value)

  type Rows = map<nat, Lesson>

  // ---------------------------------------------------------------------
  // Conflicts (Lesson::hasConflict)

  /** Half-open `[s1, e1)` and `[s2, e2)` share a point, in text order. */
  predicate Overlaps(s1: string, e1: string, s2: string, e2: string)
  {
    Before(s1, e2) && Before(s2, e1)
  }

  /** The three-way disjunction of the conflict query, for an existing
      lesson `l` and a proposed interval from `start` to `end`. */
  predicate Clashes(l: Lesson, start: string, end: string)
  {
    (Before(l.start, end) && Before(start, l.end))
    || (AtMost(start, l.start) && Before(l.start, end))
    || (Before(start, l.end) && AtMost(l.end, end))
  }

  /** Row `k` counts against a proposed booking. */
  predicate Blocks(rows: Rows, k: nat, teacher: nat, date: string, start: string, end: string, exclude: Option<nat>)
    requires k in rows
  {
    var l := rows[k];
    l.teacher == teacher && l.date == date && l.status == Scheduled
    && Clashes(l, start, end)
    && (exclude.Some? ==> k != exclude.value)
  }

  /** `hasConflict`: the count of blocking rows is positive. */
  predicate Conflict(rows: Rows, teacher: nat, date: string, start: string, end: string, exclude: Option<nat>)
  {
    exists k :: k in rows && Blocks(rows, k, teacher, date, start, end, exclude)
  }

  /** For an existing lesson whose start comes before its end, the three-way
      disjunction is exactly half-open overlap. */
  lemma ClashIsOverlap(l: Lesson, start: string, end: string)
    requires Before(l.start, l.end)
    ensures Clashes(l, start, end) <==> Overlaps(l.start, l.end, start, end)
  {
    if AtMost(start, l.start) && Before(l.start, end) {
      AtMostIsBeforeOrEqual(start, l.start);
      if Before(start, l.start) {
        BeforeTransitive(start, l.start, l.end);
      }
    }
    if Before(start, l.end) && AtMost(l.end, end) {
      AtMostIsBeforeOrEqual(l.end, end);
      if Before(l.end, end) {
        BeforeTransitive(l.start, l.end, end);
      }
    }
  }

  /** Touching intervals do not conflict: a booking that starts when the
      existing one ends, or ends when it starts, is accepted. */
  lemma TouchingDoesNotClash(l: Lesson, start: string, end: string)
    requires Before(l.start, l.end)
    requires start == l.end || end == l.start
    ensures !Clashes(l, start, end)
  {
    ClashIsOverlap(l, start, end);
    BeforeIrreflexive(start);
    BeforeIrreflexive(end);
  }

  /** When all four times are written in the same form, the text comparison
      of the conflict query is the comparison of times of day. */
  lemma ClashInSeconds(l: Lesson, start: string, end: string)
    requires Clock.SameForm(l.start, l.end) && Clock.SameForm(start, end)
    requires Clock.SameForm(l.start, end) && Clock.SameForm(start, l.end)
    requires Clock.Seconds(l.start) < Clock.Seconds(l.end)
    ensures Clashes(l, start, end) <==>
      Clock.Seconds(l.start) < Clock.Seconds(end) && Clock.Seconds(start) < Clock.Seconds(l.end)
  {
    Clock.SameFormOrder(l.start, l.end);
    Clock.SameFormOrder(l.start, end);
    Clock.SameFormOrder(start, l.end);
    ClashIsOverlap(l, start, end);
  }

  /** Every row's start comes before its end. */
  ghost predicate WellFormed(rows: Rows)
  {
    forall k :: k in rows ==> Before(rows[k].start, rows[k].end)
  }

  /** On well-formed rows, `hasConflict` holds exactly when some scheduled
      lesson of the same teacher on the same date, other than the excluded
      one, overlaps the proposed half-open interval. */
  lemma ConflictIsOverlap(rows: Rows, teacher: nat, date: string, start: string, end: string, exclude: Option<nat>)
    requires WellFormed(rows)
    ensures Conflict(rows, teacher, date, start, end, exclude) <==>
      exists k :: k in rows && rows[k].teacher == teacher && rows[k].date == date
        && rows[k].status == Scheduled && (exclude.Some? ==> k != exclude.value)
        && Overlaps(rows[k].start, rows[k].end, start, end)
  {
    forall k | k in rows {
      ClashIsOverlap(rows[k], start, end);
    }
  }

  /** No two scheduled lessons of one teacher on one date overlap. */
  ghost predicate NoOverlap(rows: Rows)
  {
    forall j, k :: j in rows && k in rows && j != k
      && rows[j].status == Scheduled && rows[k].status == Scheduled
      && rows[j].teacher == rows[k].teacher && rows[j].date == rows[k].date
      ==> !Overlaps(rows[j].start, rows[j].end, rows[k].start, rows[k].end)
  }

  /** A row written at `k` after a conflict check that excluded `k` (or at a
      new key, with no exclusion) keeps the table free of overlaps. */
  lemma CheckedWriteKeepsNoOverlap(rows: Rows, k: nat, l: Lesson, exclude: Option<nat>)
    requires NoOverlap(rows)
    requires exclude == (if k in rows then Some(k) else None)
    requires l.status == Scheduled ==> !Conflict(rows, l.teacher, l.date, l.start, l.end, exclude)
    ensures NoOverlap(rows[k := l])
  {
    var rows' := rows[k := l];
    forall i, j | i in rows' && j in rows' && i != j
      && rows'[i].status == Scheduled && rows'[j].status == Scheduled
      && rows'[i].teacher == rows'[j].teacher && rows'[i].date == rows'[j].date
      ensures !Overlaps(rows'[i].start, rows'[i].end, rows'[j].start, rows'[j].end)
    {
      if i == k {
        assert !Blocks(rows, j, l.teacher, l.date, l.start, l.end, exclude);
      } else if j == k {
        assert !Blocks(rows, i, l.teacher, l.date, l.start, l.end, exclude);
      }
    }
  }

  /** Where stored times mix the two forms, a booking that touches an
      existing one can be refused: 09:00:00-10:00:00 clashes with
      10:00-11:00 because "10:00" sorts before "10:00:00". */
  lemma MixedFormsClash(l: Lesson)
    requires l.start == "10:00" && l.end == "11:00"
    ensures Clashes(l, "09:00:00", "10:00:00")
    ensures Clock.Seconds("10:00:00") == Clock.Seconds(l.start)
  {
    Clock.MixedFormsDisagree();
    assert Before("09:00:00", "11:00") by {
      assert "09:00:00"[0] < "11:00"[0];
    }
  }

  // ---------------------------------------------------------------------
  // Recurring series (Lesson::create, Lesson::createRecurringLessons)

  /** The number of lessons generated after the seed. */
  const Occurrences: nat := 52

  /** The `$data` array handed to `create`. */
  datatype NewLesson = NewLesson(
    course: nat,
    student: nat,
    teacher: nat,
    date: string,
    start: string,
    end: string,
    classroom: Option<string>,
    privateNotes: Option<string>,
    objectives: Option<string>,
    isRecurring: Value,
    pattern: Option<string>,
    parent: Option<nat>,
    status: Option<Status>,
    skipNotification: Value)

  /** `is_recurring == 1` and a pattern is set. */
  predicate Recurs(data: NewLesson)
  {
    LooselyOne(data.isRecurring) && data.pattern.Some?
  }

  /** The row inserted for the lesson itself. */
  function SeedRow(id: nat, data: NewLesson): Lesson
  {
    Lesson(id, data.course, data.student, data.teacher, data.date, data.start, data.end,
      data.classroom, data.privateNotes, data.objectives, data.isRecurring,
      data.pattern, data.parent,
      match data.status case Some(s) => s case None => Scheduled,
      data.skipNotification)
  }

  /** One turn of the generation loop: '+1 week', '+1 month', or no change
      for any other pattern. */
  function Step(pattern: string, d: Calendar.Date): (r: Calendar.Date)
    requires Calendar.Valid(d)
    ensures Calendar.Valid(r)
  {
    if pattern == "weekly" then Calendar.NextWeek(d)
    else if pattern == "monthly" then Calendar.NextMonth(d)
    else d
  }

  /** The running date after `i` turns of the loop. */
  function Advance(pattern: string, d: Calendar.Date, i: nat): (r: Calendar.Date)
    requires Calendar.Valid(d)
    ensures Calendar.Valid(r)
  {
    if i == 0 then d else Step(pattern, Advance(pattern, d, i - 1))
  }

  /** Weekly: occurrence `i` falls `7 * i` days after the seed. */
  lemma {:induction false} WeeklyAdvance(d: Calendar.Date, i: nat)
    requires Calendar.Valid(d)
    ensures Advance("weekly", d, i) == Calendar.AddDays(d, 7 * i)
  {
    if i > 0 {
      WeeklyAdvance(d, i - 1);
      Calendar.AddDaysAdditive(d, 7 * (i - 1), 7);
    }
  }

  /** Monthly from a day every month has: occurrence `i` keeps the day of
      the month and falls `i` months after the seed. */
  lemma {:induction false} MonthlyAdvance(d: Calendar.Date, i: nat)
    requires Calendar.Valid(d) && d.day <= 28
    ensures Advance("monthly", d, i).day == d.day
    ensures Calendar.MonthIndex(Advance("monthly", d, i)) == Calendar.MonthIndex(d) + i
  {
    if i > 0 {
      MonthlyAdvance(d, i - 1);
      Calendar.NextMonthEarlyDay(Advance("monthly", d, i - 1));
    }
  }

  /** Monthly from the 31st of January: the overflow of the first step
      carries into every later occurrence. */
  lemma MonthlyDrift()
    ensures Advance("monthly", Calendar.Date(2024, 1, 31), 1) == Calendar.Date(2024, 3, 2)
    ensures Advance("monthly", Calendar.Date(2024, 1, 31), 2) == Calendar.Date(2024, 4, 2)
  {
    Calendar.NextMonthOverflows();
  }

  /** Any other pattern: every occurrence falls on the seed's date. */
  lemma {:induction false} OtherPatternAdvance(pattern: string, d: Calendar.Date, i: nat)
    requires Calendar.Valid(d) && pattern != "weekly" && pattern != "monthly"
    ensures Advance(pattern, d, i) == d
  {
    if i > 0 {
      OtherPatternAdvance(pattern, d, i - 1);
    }
  }

  /** The running date of the series after `i` turns of the loop. */
  function RunningDate(data: NewLesson, i: nat): (r: Calendar.Date)
    requires Recurs(data) && Calendar.ValidateDate(data.date)
    ensures Calendar.Valid(r)
  {
    Advance(data.pattern.value, Calendar.Parse(data.date), i)
  }

  /** One more turn of the loop takes the running date one step. */
  lemma RunningStep(data: NewLesson, n: nat)
    requires Recurs(data) && Calendar.ValidateDate(data.date)
    ensures Step(data.pattern.value, RunningDate(data, n)) == RunningDate(data, n + 1)
  {
  }

  /** The Y-m-d text of occurrence `i`. */
  function OccurrenceDate(data: NewLesson, i: nat): string
    requires Recurs(data) && Calendar.ValidateDate(data.date)
  {
    Calendar.Format(RunningDate(data, i))
  }

  /** The row the recurring loop inserts under `id` for the series seeded
      at `seedId`, on the date text `date`. */
  function Occurrence(id: nat, seedId: nat, data: NewLesson, date: string): Lesson
  {
    Lesson(id, data.course, data.student, data.teacher, date,
      data.start, data.end, data.classroom, data.privateNotes, data.objectives,
      Int(0), data.pattern, Some(seedId), Scheduled, data.skipNotification)
  }

  /** Occurrence `i` (1 to 52) of the series seeded at `seedId`, stored with
      id `seedId + i`. */
  function ChildRow(seedId: nat, data: NewLesson, i: nat): Lesson
    requires Recurs(data) && Calendar.ValidateDate(data.date)
  {
    Occurrence(seedId + i, seedId, data, OccurrenceDate(data, i))
  }

  /** The rows `seedId + 1` to `seedId + n`, row `seedId + i` being
      `rowOf(i)`, added in that order. */
  function Prefix(rowOf: nat -> Lesson, seedId: nat, n: nat): Rows
  {
    if n == 0 then map[] else Prefix(rowOf, seedId, n - 1)[seedId + n := rowOf(n)]
  }

  /** `Prefix` holds exactly the `n` ids after `seedId`. */
  lemma {:induction false} PrefixKeys(rowOf: nat -> Lesson, seedId: nat, n: nat)
    ensures |Prefix(rowOf, seedId, n)| == n
    ensures forall k :: k in Prefix(rowOf, seedId, n) <==> seedId < k <= seedId + n
  {
    if n > 0 {
      PrefixKeys(rowOf, seedId, n - 1);
      assert seedId + n !in Prefix(rowOf, seedId, n - 1);
    }
  }

  /** Row `i` of the first `n` is stored under `seedId + i`. */
  lemma {:induction false} PrefixAt(rowOf: nat -> Lesson, seedId: nat, n: nat, i: nat)
    requires 1 <= i <= n
    ensures seedId + i in Prefix(rowOf, seedId, n)
    ensures Prefix(rowOf, seedId, n)[seedId + i] == rowOf(i)
  {
    if i < n {
      PrefixAt(rowOf, seedId, n - 1, i);
    }
  }

  /** When row `i` carries id `seedId + i`, every row of `Prefix` is
      stored under its own id. */
  lemma {:induction false} PrefixSelfKeyed(rowOf: nat -> Lesson, seedId: nat, n: nat)
    requires forall i: nat :: 1 <= i <= n ==> rowOf(i).id == seedId + i
    ensures forall k :: k in Prefix(rowOf, seedId, n) ==> Prefix(rowOf, seedId, n)[k].id == k
  {
    if n > 0 {
      PrefixSelfKeyed(rowOf, seedId, n - 1);
    }
  }

  /** Occurrence `i` of the series seeded at `seedId`, as a function of `i`. */
  function ChildOf(seedId: nat, data: NewLesson): nat -> Lesson
    requires Recurs(data) && Calendar.ValidateDate(data.date)
  {
    (i: nat) => ChildRow(seedId, data, i)
  }

  /** The first `n` occurrences of the series seeded at `seedId`, in the
      order they are inserted. */
  function SeriesPrefix(seedId: nat, data: NewLesson, n: nat): Rows
    requires Recurs(data) && Calendar.ValidateDate(data.date)
  {
    Prefix(ChildOf(seedId, data), seedId, n)
  }

  /** The 52 rows `createRecurringLessons` inserts. */
  function SeriesRows(seedId: nat, data: NewLesson): Rows
    requires Recurs(data) && Calendar.ValidateDate(data.date)
  {
    SeriesPrefix(seedId, data, Occurrences)
  }

  /** Inserting occurrence `i` after the first `i - 1` gives the first `i`. */
  lemma SeriesStep(seedId: nat, data: NewLesson, i: nat)
    requires Recurs(data) && Calendar.ValidateDate(data.date) && i >= 1
    ensures SeriesPrefix(seedId, data, i - 1)[seedId + i := ChildRow(seedId, data, i)]
      == SeriesPrefix(seedId, data, i)
  {
    assert ChildOf(seedId, data)(i) == ChildRow(seedId, data, i);
  }

  /** Occurrence `i` is the row built on the running date after `i` turns. */
  lemma ChildOn(seedId: nat, data: NewLesson, i: nat, current: Calendar.Date)
    requires Recurs(data) && Calendar.ValidateDate(data.date)
    requires current == RunningDate(data, i)
    ensures ChildOf(seedId, data)(i) == Occurrence(seedId + i, seedId, data, Calendar.Format(current))
  {
  }

  /** Every row is stored under its own id, and every id lies below `next`. */
  ghost predicate KeyedBelow(rows: Rows, next: nat)
  {
    forall k :: k in rows ==> 1 <= k < next && rows[k].id == k
  }

  /** The series holds the ids after the seed's, and nothing else. */
  lemma SeriesMember(seedId: nat, data: NewLesson, k: nat)
    requires Recurs(data) && Calendar.ValidateDate(data.date)
    ensures k in SeriesRows(seedId, data) <==> seedId < k <= seedId + Occurrences
  {
    PrefixKeys(ChildOf(seedId, data), seedId, Occurrences);
  }

  /** Occurrence `i` is stored under id `seedId + i`. */
  lemma SeriesOccurrence(seedId: nat, data: NewLesson, i: nat)
    requires Recurs(data) && Calendar.ValidateDate(data.date)
    requires 1 <= i <= Occurrences
    ensures seedId + i in SeriesRows(seedId, data)
    ensures SeriesRows(seedId, data)[seedId + i] == ChildRow(seedId, data, i)
  {
    var rowOf := ChildOf(seedId, data);
    PrefixAt(rowOf, seedId, Occurrences, i);
    assert rowOf(i) == ChildRow(seedId, data, i);
  }

  /** Adding a series after the seed's id keeps rows under their own ids,
      all below the id after the series. */
  lemma SeriesKeyed(base: Rows, seedId: nat, data: NewLesson)
    requires Recurs(data) && Calendar.ValidateDate(data.date)
    requires KeyedBelow(base, seedId + 1)
    ensures KeyedBelow(base + SeriesRows(seedId, data), seedId + 1 + Occurrences)
  {
    var rowOf := ChildOf(seedId, data);
    var series := SeriesRows(seedId, data);
    forall i: nat | 1 <= i <= Occurrences
      ensures rowOf(i).id == seedId + i
    {
      assert rowOf(i) == ChildRow(seedId, data, i);
    }
    PrefixSelfKeyed(rowOf, seedId, Occurrences);
    PrefixKeys(rowOf, seedId, Occurrences);
    forall k | k in base + series
      ensures 1 <= k < seedId + 1 + Occurrences && (base + series)[k].id == k
    {
      if k in series {
        assert (base + series)[k] == series[k];
      } else {
        assert (base + series)[k] == base[k];
      }
    }
  }

  /** A series is exactly 52 generated lessons, with the ids after the
      seed's. */
  lemma SeriesSize(seedId: nat, data: NewLesson)
    requires Recurs(data) && Calendar.ValidateDate(data.date)
    ensures |SeriesRows(seedId, data)| == Occurrences
    ensures forall k :: k in SeriesRows(seedId, data) <==> seedId < k <= seedId + Occurrences
  {
    PrefixKeys(ChildOf(seedId, data), seedId, Occurrences);
  }

  /** Each generated lesson points at the seed, is not itself recurring, is
      scheduled, and has the seed's times, course, student, teacher,
      classroom, notes, objectives, pattern and notification flag;
      occurrence `i` falls on the seed date advanced `i` times. */
  lemma ChildFields(seedId: nat, data: NewLesson, i: nat)
    requires Recurs(data) && Calendar.ValidateDate(data.date)
    ensures var c := ChildRow(seedId, data, i);
      c.id == seedId + i && c.parent == Some(seedId) && c.isRecurring == Int(0) && c.status == Scheduled
      && c.start == data.start && c.end == data.end && c.course == data.course
      && c.student == data.student && c.teacher == data.teacher
      && c.classroom == data.classroom && c.privateNotes == data.privateNotes
      && c.objectives == data.objectives && c.pattern == data.pattern
      && c.skipNotification == data.skipNotification
      && c.date == OccurrenceDate(data, i)
  {
  }

  // ---------------------------------------------------------------------
  // Updates (Lesson::update, Lesson::updateRecurringSiblings)

  /** The supplied fields of an update, as `$updateData` holds them. */
  datatype Patch = Patch(
    date: Option<string>,
    start: Option<string>,
    end: Option<string>,
    classroom: Option<string>,
    privateNotes: Option<string>,
    objectives: Option<string>,
    status: Option<Status>)

  predicate NoFields(p: Patch)
  {
    p.date.None? && p.start.None? && p.end.None? && p.classroom.None?
    && p.privateNotes.None? && p.objectives.None? && p.status.None?
  }

  /** The fields that propagate to the rest of a series. */
  predicate NoSeriesFields(p: Patch)
  {
    p.start.None? && p.end.None? && p.classroom.None? && p.objectives.None?
  }

  function Pick<T>(given: Option<T>, old_: T): T
  {
    match given case Some(v) => v case None => old_
  }

  function PickOpt<T>(given: Option<T>, old_: Option<T>): Option<T>
  {
    if given.Some? then given else old_
  }

  /** The lesson with every supplied field written. */
  function Patched(l: Lesson, p: Patch): Lesson
  {
    l.(date := Pick(p.date, l.date), start := Pick(p.start, l.start), end := Pick(p.end, l.end),
       classroom := PickOpt(p.classroom, l.classroom),
       privateNotes := PickOpt(p.privateNotes, l.privateNotes),
       objectives := PickOpt(p.objectives, l.objectives),
       status := Pick(p.status, l.status))
  }

  /** A sibling with the series fields of the patch written. */
  function SeriesPatched(l: Lesson, p: Patch): Lesson
  {
    l.(start := Pick(p.start, l.start), end := Pick(p.end, l.end),
       classroom := PickOpt(p.classroom, l.classroom),
       objectives := PickOpt(p.objectives, l.objectives))
  }

  /** A truthy `parent_lesson_id`. */
  predicate IsChild(l: Lesson)
  {
    l.parent.Some? && l.parent.value != 0
  }

  /** Row `k` is a sibling reached by a cascade started at `id`: the other
      children of the same seed when `id` is a child, the children of `id`
      when it is a recurring seed. */
  predicate InCascade(rows: Rows, id: nat, k: nat)
    requires id in rows && k in rows
  {
    var l := rows[id];
    if IsChild(l) then rows[k].parent == l.parent && k != id
    else Truthy(l.isRecurring) && rows[k].parent == Some(id)
  }

  /** The table after `update($id, $data, $updateRecurring)` with at least one
      field supplied. */
  function Updated(rows: Rows, id: nat, p: Patch, cascade: bool): (r: Rows)
    ensures r.Keys == rows.Keys
  {
    map k | k in rows ::
      if k == id then Patched(rows[k], p)
      else if cascade && id in rows && InCascade(rows, id, k) then SeriesPatched(rows[k], p)
      else rows[k]
  }

  /** `updateRecurringSiblings($parent, $data, $except)`: the series fields
      of the patch go to every row whose parent is `parent`, except row
      `except`; a patch without series fields changes nothing. */
  function SiblingsPatched(rows: Rows, parent: nat, p: Patch, except: Option<nat>): (r: Rows)
    ensures r.Keys == rows.Keys
  {
    if NoSeriesFields(p) then rows
    else
      (map k | k in rows ::
        if rows[k].parent == Some(parent) && (except.None? || k != except.value)
        then SeriesPatched(rows[k], p) else rows[k])
  }

  /** The two statements of `update`: the row is written first, then the
      cascade reads the written row and updates its siblings; together they
      give `Updated`. */
  lemma UpdatedInSteps(rows: Rows, id: nat, p: Patch, cascade: bool)
    ensures var written := if id in rows then rows[id := Patched(rows[id], p)] else rows;
      Updated(rows, id, p, cascade) ==
        if cascade && id in rows && IsChild(written[id]) then
          SiblingsPatched(written, written[id].parent.value, p, Some(id))
        else if cascade && id in rows && Truthy(written[id].isRecurring) then
          SiblingsPatched(written, id, p, None)
        else written
  {
    var written := if id in rows then rows[id := Patched(rows[id], p)] else rows;
    var u := Updated(rows, id, p, cascade);
    if cascade && id in rows && (IsChild(written[id]) || Truthy(written[id].isRecurring)) {
      var parent := if IsChild(written[id]) then written[id].parent.value else id;
      var except := if IsChild(written[id]) then Some(id) else None;
      var s := SiblingsPatched(written, parent, p, except);
      forall k | k in rows
        ensures u[k] == s[k]
      {
        if k == id {
          assert SeriesPatched(Patched(rows[k], p), p) == Patched(rows[k], p);
        }
      }
      assert u == s;
    } else {
      assert u == written;
    }
  }

  /** What an update does, row by row: the updated lesson gets every supplied
      field and keeps the others; with the cascade, every sibling gets only
      start, end, classroom and objectives; every other row, and the seed
      when the cascade starts at a child, is unchanged. */
  lemma UpdatedRow(rows: Rows, id: nat, p: Patch, cascade: bool, k: nat)
    requires k in rows
    ensures var r := Updated(rows, id, p, cascade)[k]; var l := rows[k];
      r.id == l.id && r.course == l.course && r.student == l.student && r.teacher == l.teacher
      && r.isRecurring == l.isRecurring && r.parent == l.parent && r.pattern == l.pattern
      && (k == id ==>
            r.date == Pick(p.date, l.date) && r.start == Pick(p.start, l.start)
            && r.end == Pick(p.end, l.end) && r.status == Pick(p.status, l.status)
            && r.classroom == PickOpt(p.classroom, l.classroom)
            && r.privateNotes == PickOpt(p.privateNotes, l.privateNotes)
            && r.objectives == PickOpt(p.objectives, l.objectives))
      && (k != id && cascade && id in rows && InCascade(rows, id, k) ==>
            r.date == l.date && r.status == l.status && r.privateNotes == l.privateNotes
            && r.start == Pick(p.start, l.start) && r.end == Pick(p.end, l.end)
            && r.classroom == PickOpt(p.classroom, l.classroom)
            && r.objectives == PickOpt(p.objectives, l.objectives))
      && (k != id && !(cascade && id in rows && InCascade(rows, id, k)) ==> r == l)
  {
  }

  /** A cascade started at a child never reaches its seed (a row that is
      not itself a child), and one started at a seed reaches exactly its
      children. */
  lemma CascadeReach(rows: Rows, id: nat, k: nat)
    requires id in rows && k in rows && k != id && k != 0
    ensures IsChild(rows[id]) && rows[id].parent == Some(k) && !IsChild(rows[k]) ==> !InCascade(rows, id, k)
    ensures !IsChild(rows[id]) && Truthy(rows[id].isRecurring) ==>
      (InCascade(rows, id, k) <==> rows[k].parent == Some(id))
  {
    if IsChild(rows[id]) && rows[id].parent == Some(k) && InCascade(rows, id, k) {
      assert rows[k].parent == Some(k);
    }
  }

  // ---------------------------------------------------------------------
  // Cancellation (Lesson::delete, Lesson::deleteRecurringSiblings)

  /** The table after `delete($id, $deleteRecurring)`: the lesson, and with
      the cascade its siblings whatever their status, become cancelled. */
  function CancelledRows(rows: Rows, id: nat, cascade: bool): (r: Rows)
    ensures r.Keys == rows.Keys
  {
    map k | k in rows ::
      if k == id || (cascade && id in rows && InCascade(rows, id, k))
      then rows[k].(status := Cancelled)
      else rows[k]
  }

  /** `deleteRecurringSiblings($parent, $except)`. */
  function SiblingsCancelled(rows: Rows, parent: nat, except: Option<nat>): (r: Rows)
    ensures r.Keys == rows.Keys
  {
    map k | k in rows ::
      if rows[k].parent == Some(parent) && (except.None? || k != except.value)
      then rows[k].(status := Cancelled) else rows[k]
  }

  /** The two statements of `delete`: the lesson read before the write
      decides the cascade, the write cancels it, and the cascade cancels its
      siblings; together they give `CancelledRows`. */
  lemma CancelledInSteps(rows: Rows, id: nat, cascade: bool)
    ensures var written := if id in rows then rows[id := rows[id].(status := Cancelled)] else rows;
      CancelledRows(rows, id, cascade) ==
        if cascade && id in rows && IsChild(rows[id]) then
          SiblingsCancelled(written, rows[id].parent.value, Some(id))
        else if cascade && id in rows && Truthy(rows[id].isRecurring) then
          SiblingsCancelled(written, id, None)
        else written
  {
    var written := if id in rows then rows[id := rows[id].(status := Cancelled)] else rows;
    var c := CancelledRows(rows, id, cascade);
    if cascade && id in rows && (IsChild(rows[id]) || Truthy(rows[id].isRecurring)) {
      var parent := if IsChild(rows[id]) then rows[id].parent.value else id;
      var except := if IsChild(rows[id]) then Some(id) else None;
      var s := SiblingsCancelled(written, parent, except);
      forall k | k in rows
        ensures c[k] == s[k]
      {
      }
      assert c == s;
    } else {
      assert c == written;
    }
  }

  /** Cancelling removes no row and changes nothing but the status of the
      lesson and, with the cascade, of its siblings. */
  lemma CancelOnlyChangesStatus(rows: Rows, id: nat, cascade: bool)
    ensures CancelledRows(rows, id, cascade).Keys == rows.Keys
    ensures forall k :: k in rows ==>
      CancelledRows(rows, id, cascade)[k] == rows[k].(status := CancelledRows(rows, id, cascade)[k].status)
    ensures id in rows ==> CancelledRows(rows, id, cascade)[id].status == Cancelled
    ensures forall k :: k in rows && cascade && id in rows && InCascade(rows, id, k) ==>
      CancelledRows(rows, id, cascade)[k].status == Cancelled
    ensures forall k :: k in rows && k != id && !(cascade && id in rows && InCascade(rows, id, k)) ==>
      CancelledRows(rows, id, cascade)[k] == rows[k]
  {
  }

  // ---------------------------------------------------------------------
  // Listing (Lesson::getByFilters, getNextLesson, getHistory)

  /** `ORDER BY lesson_date, start_time`: `a` sorts strictly before `b`. */
  predicate KeyBefore(a: Lesson, b: Lesson)
  {
    Before(a.date, b.date) || (a.date == b.date && Before(a.start, b.start))
  }

  /** `a` may be listed before `b`. */
  predicate KeyAtMost(a: Lesson, b: Lesson)
  {
    !KeyBefore(b, a)
  }

  lemma KeyAtMostCases(a: Lesson, b: Lesson)
    ensures KeyAtMost(a, b) <==> KeyBefore(a, b) || (a.date == b.date && a.start == b.start)
  {
    AtMostIsBeforeOrEqual(a.date, b.date);
    AtMostIsBeforeOrEqual(a.start, b.start);
    BeforeTotal(a.date, b.date);
    BeforeTotal(a.start, b.start);
    BeforeIrreflexive(a.date);
    if Before(a.date, b.date) {
      BeforeAsymmetric(a.date, b.date);
    }
    if Before(a.start, b.start) {
      BeforeAsymmetric(a.start, b.start);
    }
  }

  lemma KeyAtMostTransitive(a: Lesson, b: Lesson, c: Lesson)
    requires KeyAtMost(a, b) && KeyAtMost(b, c)
    ensures KeyAtMost(a, c)
  {
    KeyAtMostCases(a, b);
    KeyAtMostCases(b, c);
    KeyAtMostCases(a, c);
    if Before(a.date, b.date) && Before(b.date, c.date) {
      BeforeTransitive(a.date, b.date, c.date);
    }
    if Before(a.start, b.start) && Before(b.start, c.start) {
      BeforeTransitive(a.start, b.start, c.start);
    }
  }

  lemma KeyAtMostTotal(a: Lesson, b: Lesson)
    ensures KeyAtMost(a, b) || KeyAtMost(b, a)
  {
    if KeyBefore(b, a) {
      KeyAtMostCases(b, a);
      KeyAtMostCases(a, b);
      if Before(b.date, a.date) {
        BeforeAsymmetric(b.date, a.date);
      } else {
        BeforeAsymmetric(b.start, a.start);
        BeforeIrreflexive(a.date);
      }
    }
  }

  /** Listed in ascending (date, start) order. */
  ghost predicate Ascending(s: seq<Lesson>)
  {
    forall i, j :: 0 <= i < j < |s| ==> KeyAtMost(s[i], s[j])
  }

  /** Listed in descending (date, start) order. */
  ghost predicate Descending(s: seq<Lesson>)
  {
    forall i, j :: 0 <= i < j < |s| ==> KeyAtMost(s[j], s[i])
  }

  /** No row listed twice. */
  ghost predicate DistinctIds(s: seq<Lesson>)
  {
    forall i, j :: 0 <= i < j < |s| ==> s[i].id != s[j].id
  }

  /** The filters of `getByFilters`, as query-string text. */
  datatype Filters = Filters(
    teacher: Option<string>,
    student: Option<string>,
    course: Option<string>,
    dateFrom: Option<string>,
    dateTo: Option<string>,
    status: Option<string>)

  predicate NoFilter(f: Filters)
  {
    f.teacher.None? && f.student.None? && f.course.None? && f.dateFrom.None?
    && f.dateTo.None? && f.status.None?
  }

  /** The WHERE clause of `getByFilters`: every given filter holds, and
      without a status filter cancelled lessons are left out. */
  predicate Matches(f: Filters, l: Lesson)
  {
    (f.teacher.Some? ==> TextId(f.teacher.value) == Some(l.teacher))
    && (f.student.Some? ==> TextId(f.student.value) == Some(l.student))
    && (f.course.Some? ==> TextId(f.course.value) == Some(l.course))
    && (f.dateFrom.Some? ==> AtMost(f.dateFrom.value, l.date))
    && (f.dateTo.Some? ==> AtMost(l.date, f.dateTo.value))
    && (if f.status.Some? then StatusText(l.status) == f.status.value
        else StatusText(l.status) != "cancelled")
  }

  /** The WHERE clause of `getNextLesson`, with today's date as a parameter. */
  predicate Upcoming(student: string, today: string, l: Lesson)
  {
    TextId(student) == Some(l.student) && AtMost(today, l.date) && l.status == Scheduled
  }

  /** A row set of one listing query. */
  datatype Selector = ByFilters(f: Filters) | HistoryOf(student: string)

  predicate Selects(sel: Selector, l: Lesson)
  {
    match sel
    case ByFilters(f) => Matches(f, l)
    case HistoryOf(student) => TextId(student) == Some(l.student)
  }

  /** Students never see private notes. */
  function Redacted(l: Lesson): (r: Lesson)
    ensures r.privateNotes.None?
    ensures r == l.(privateNotes := None)
  {
    l.(privateNotes := None)
  }
}
