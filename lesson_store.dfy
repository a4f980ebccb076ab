/** The `Lesson` model object of backend/models/Lesson.php: the lessons
    table as a map from id to row, changed in place by its methods, and the
    listing queries that read it. */
module LessonStore {
  import opened Common
  import opened Text
  import Calendar
  import opened Lessons

  class LessonTable {
    var rows: Rows
    /** The id the next insert receives (`lastInsertId` after it). */
    var nextId: nat

    ghost predicate Valid()
      reads this
    {
      1 <= nextId && KeyedBelow(rows, nextId)
    }

    constructor ()
      ensures Valid() && rows == map[] && nextId == 1
    {
      rows := map[];
      nextId := 1;
    }

    /** `getById`. */
    function Find(id: Option<nat>): Option<Lesson>
      reads this
    {
      if id.Some? && id.value in rows then Some(rows[id.value]) else None
    }

    /** `create`: inserts the lesson and, when `is_recurring == 1` and a
        pattern is set, its 52 occurrences; returns the lesson's id. Rows
        already present are left as they were. */
    method Create(data: NewLesson) returns (id: nat)
      requires Valid()
      requires Recurs(data) ==> Calendar.ValidateDate(data.date)
      modifies this
      ensures Valid()
      ensures id == old(nextId) && id !in old(rows)
      ensures rows == old(rows)[id := SeedRow(id, data)]
        + (if Recurs(data) then SeriesRows(id, data) else map[])
      ensures nextId == id + 1 + (if Recurs(data) then Occurrences else 0)
      ensures forall k :: k in old(rows) ==> k in rows && rows[k] == old(rows)[k]
    {
      id := nextId;
      rows := rows[id := SeedRow(id, data)];
      nextId := nextId + 1;
      if Recurs(data) {
        CreateRecurring(id, data);
        SeriesSize(id, data);
        Untouched(old(rows), id, SeedRow(id, data), SeriesRows(id, data));
      } else {
        Untouched(old(rows), id, SeedRow(id, data), map[]);
      }
    }

    /** `createRecurringLessons`: advances the running date one step per
        turn and inserts one occurrence per turn, 52 turns in all; `done`
        counts the turns taken (one less than the loop counter `$i`). */
    method CreateRecurring(seedId: nat, data: NewLesson)
      requires Valid() && Recurs(data) && Calendar.ValidateDate(data.date)
      requires nextId == seedId + 1
      modifies this
      ensures Valid()
      ensures rows == old(rows) + SeriesRows(seedId, data)
      ensures nextId == old(nextId) + Occurrences
    {
      ghost var rowOf := ChildOf(seedId, data);
      var current := Calendar.Parse(data.date);
      var done := 0;
      while done < Occurrences
        invariant done <= Occurrences
        invariant current == RunningDate(data, done)
        invariant nextId == seedId + done + 1
        invariant rows == old(rows) + Prefix(rowOf, seedId, done)
      {
        current := Turn(seedId, data, done, current, rowOf, old(rows));
        done := done + 1;
      }
      SeriesKeyed(old(rows), seedId, data);
    }

    /** One turn of the loop after `done` turns: the running date takes
        one step and occurrence `done + 1` is inserted on it. */
    method Turn(seedId: nat, data: NewLesson, done: nat, current: Calendar.Date,
                ghost rowOf: nat -> Lesson, ghost base: Rows)
      returns (next: Calendar.Date)
      requires Recurs(data) && Calendar.ValidateDate(data.date)
      requires rowOf == ChildOf(seedId, data)
      requires current == RunningDate(data, done)
      requires nextId == seedId + done + 1
      requires rows == base + Prefix(rowOf, seedId, done)
      modifies this
      ensures next == RunningDate(data, done + 1)
      ensures nextId == old(nextId) + 1
      ensures rows == base + Prefix(rowOf, seedId, done + 1)
    {
      next := Step(data.pattern.value, current);
      RunningStep(data, done);
      ChildOn(seedId, data, done + 1, next);
      InsertOccurrence(seedId, data, done, next, rowOf, base);
    }

    /** One turn's insert: occurrence `n + 1`, on the running date
        `current`, joins the first `n`; `rowOf` gives the rows of the
        series. */
    method InsertOccurrence(seedId: nat, data: NewLesson, n: nat, current: Calendar.Date,
                            ghost rowOf: nat -> Lesson, ghost base: Rows)
      requires Calendar.Valid(current)
      requires rowOf(n + 1) == Occurrence(seedId + n + 1, seedId, data, Calendar.Format(current))
      requires nextId == seedId + n + 1
      requires rows == base + Prefix(rowOf, seedId, n)
      modifies this
      ensures rows == base + Prefix(rowOf, seedId, n + 1)
      ensures nextId == old(nextId) + 1
    {
      var child := Occurrence(nextId, seedId, data, Calendar.Format(current));
      MergeUpdate(base, Prefix(rowOf, seedId, n), nextId, child);
      rows := rows[nextId := child];
      nextId := nextId + 1;
    }

    /** `update`: writes the supplied fields of lesson `id`, or fails with
        "No fields to update" and changes nothing; with the cascade flag the
        series fields then go to the rest of the series. An unknown id
        changes nothing. */
    method Update(id: nat, p: Patch, cascade: bool) returns (r: Result<(), string>)
      requires Valid()
      modifies this
      ensures Valid() && nextId == old(nextId)
      ensures r.Err? <==> NoFields(p)
      ensures r.Err? ==> r.error == "No fields to update" && rows == old(rows)
      ensures r.Ok? ==> rows == Updated(old(rows), id, p, cascade)
    {
      if NoFields(p) {
        return Err("No fields to update");
      }
      UpdatedInSteps(rows, id, p, cascade);
      if id in rows {
        WriteRow(id, p);
      }
      if cascade && id in rows {
        var lesson := rows[id];
        if IsChild(lesson) {
          UpdateSiblings(lesson.parent.value, p, Some(id));
        } else if Truthy(lesson.isRecurring) {
          UpdateSiblings(id, p, None);
        }
      }
      r := Ok(());
    }

    /** The `UPDATE ... WHERE id = ?` of `update`: each supplied field is
        written, the others are kept. */
    method WriteRow(id: nat, p: Patch)
      requires Valid() && id in rows
      modifies this
      ensures Valid() && nextId == old(nextId)
      ensures rows == old(rows)[id := Patched(old(rows)[id], p)]
    {
      var l := rows[id];
      if p.date.Some? { l := l.(date := p.date.value); }
      if p.start.Some? { l := l.(start := p.start.value); }
      if p.end.Some? { l := l.(end := p.end.value); }
      if p.classroom.Some? { l := l.(classroom := p.classroom); }
      if p.privateNotes.Some? { l := l.(privateNotes := p.privateNotes); }
      if p.objectives.Some? { l := l.(objectives := p.objectives); }
      if p.status.Some? { l := l.(status := p.status.value); }
      rows := rows[id := l];
    }

    /** `updateRecurringSiblings`: start, end, classroom and objectives of
        every row whose parent is `parent`, except row `except`. */
    method UpdateSiblings(parent: nat, p: Patch, except: Option<nat>)
      requires Valid()
      modifies this
      ensures Valid() && nextId == old(nextId)
      ensures rows == SiblingsPatched(old(rows), parent, p, except)
    {
      if NoSeriesFields(p) {
        return;
      }
      rows := map k | k in rows ::
        if rows[k].parent == Some(parent) && (except.None? || k != except.value)
        then SeriesPatched(rows[k], p) else rows[k];
    }

    /** `delete`: the soft cancel of lesson `id` and, with the cascade flag,
        of the rest of its series. */
    method Delete(id: nat, cascade: bool)
      requires Valid()
      modifies this
      ensures Valid() && nextId == old(nextId)
      ensures rows == CancelledRows(old(rows), id, cascade)
    {
      CancelledInSteps(rows, id, cascade);
      var found := Find(Some(id));
      if id in rows {
        rows := rows[id := rows[id].(status := Cancelled)];
      }
      if cascade && found.Some? {
        var lesson := found.value;
        if IsChild(lesson) {
          CancelSiblings(lesson.parent.value, Some(id));
        } else if Truthy(lesson.isRecurring) {
          CancelSiblings(id, None);
        }
      }
    }

    /** `deleteRecurringSiblings`. */
    method CancelSiblings(parent: nat, except: Option<nat>)
      requires Valid()
      modifies this
      ensures Valid() && nextId == old(nextId)
      ensures rows == SiblingsCancelled(old(rows), parent, except)
    {
      rows := map k | k in rows ::
        if rows[k].parent == Some(parent) && (except.None? || k != except.value)
        then rows[k].(status := Cancelled) else rows[k];
    }

    /** `markCompleted`. */
    method MarkCompleted(id: nat)
      requires Valid()
      modifies this
      ensures Valid() && nextId == old(nextId)
      ensures rows == if id in old(rows) then old(rows)[id := old(rows)[id].(status := Completed)] else old(rows)
    {
      if id in rows {
        rows := rows[id := rows[id].(status := Completed)];
      }
    }

    /** The rows one listing query selects, in ascending (date, start)
        order, each once. */
    method Listing(sel: Selector) returns (r: seq<Lesson>)
      requires Valid()
      ensures forall l :: l in r <==> l in rows.Values && Selects(sel, l)
      ensures Ascending(r) && DistinctIds(r)
    {
      r := [];
      var todo := rows.Keys;
      while todo != {}
        invariant todo <= rows.Keys
        invariant Ascending(r) && DistinctIds(r)
        invariant forall i :: 0 <= i < |r| ==>
          r[i].id in rows && r[i].id !in todo && rows[r[i].id] == r[i] && Selects(sel, r[i])
        invariant forall k :: k in rows && k !in todo && Selects(sel, rows[k]) ==> rows[k] in r
        decreases |todo|
      {
        var k :| k in todo;
        if Selects(sel, rows[k]) {
          var p;
          ghost var before := r;
          r, p := InsertSorted(r, rows[k]);
          InsertedAt(before, rows[k], p);
        }
        todo := todo - {k};
      }
      forall l | l in rows.Values && Selects(sel, l)
        ensures l in r
      {
        var k :| k in rows && rows[k] == l;
      }
    }

    /** `getByFilters`. */
    method ByFilters(f: Filters) returns (r: seq<Lesson>)
      requires Valid()
      ensures forall l :: l in r <==> l in rows.Values && Matches(f, l)
      ensures Ascending(r) && DistinctIds(r)
    {
      r := Listing(Selector.ByFilters(f));
    }

    /** `getNextLesson`, with today's date as a parameter: the earliest
        scheduled lesson of the student from today on, if there is one. */
    method NextLesson(student: string, today: string) returns (r: Option<Lesson>)
      requires Valid()
      ensures r.None? <==> forall k :: k in rows ==> !Upcoming(student, today, rows[k])
      ensures r.Some? ==> r.value in rows.Values && Upcoming(student, today, r.value)
      ensures r.Some? ==> forall k :: k in rows && Upcoming(student, today, rows[k]) ==>
        KeyAtMost(r.value, rows[k])
    {
      r := None;
      var todo := rows.Keys;
      while todo != {}
        invariant todo <= rows.Keys
        invariant r.None? <==> forall k :: k in rows && k !in todo ==> !Upcoming(student, today, rows[k])
        invariant r.Some? ==> r.value in rows.Values && Upcoming(student, today, r.value)
        invariant r.Some? ==> forall k :: k in rows && k !in todo && Upcoming(student, today, rows[k]) ==>
          KeyAtMost(r.value, rows[k])
        decreases |todo|
      {
        var k :| k in todo;
        var l := rows[k];
        if Upcoming(student, today, l) && (r.None? || KeyBefore(l, r.value)) {
          KeyAtMostTotal(l, l);
          if r.Some? {
            KeyAtMostTotal(l, r.value);
            forall j | j in rows && j !in todo && Upcoming(student, today, rows[j])
              ensures KeyAtMost(l, rows[j])
            {
              KeyAtMostTransitive(l, r.value, rows[j]);
            }
          }
          r := Some(l);
        }
        todo := todo - {k};
      }
    }

    /** `getHistory`: the student's lessons, latest first, at most `limit`
        of them (a negative limit is no limit). A lesson left out comes no
        later than every lesson listed. */
    method History(student: string, limit: int) returns (r: seq<Lesson>)
      requires Valid()
      ensures forall l :: l in r ==> l in rows.Values && TextId(student) == Some(l.student)
      ensures Descending(r) && DistinctIds(r)
      ensures 0 <= limit ==> |r| <= limit
      ensures forall l :: l in rows.Values && TextId(student) == Some(l.student) && l !in r ==>
        0 <= limit == |r| && forall x :: x in r ==> KeyAtMost(l, x)
    {
      var all := Listing(HistoryOf(student));
      var latestFirst := Reversed(all);
      r := if 0 <= limit < |latestFirst| then latestFirst[..limit] else latestFirst;
      ReversedDescending(all);
      LatestCut(latestFirst, limit, r);
    }
  }

  /** Keeping at most `limit` rows of a descending listing gives a
      descending listing whose rows all come no earlier than any row it
      leaves out. */
  lemma LatestCut(s: seq<Lesson>, limit: int, r: seq<Lesson>)
    requires Descending(s) && DistinctIds(s)
    requires r == if 0 <= limit < |s| then s[..limit] else s
    ensures forall l :: l in r ==> l in s
    ensures Descending(r) && DistinctIds(r)
    ensures 0 <= limit ==> |r| <= limit
    ensures forall l :: l in s && l !in r ==> 0 <= limit == |r| && forall x :: x in r ==> KeyAtMost(l, x)
  {
    forall l | l in s && l !in r
      ensures 0 <= limit == |r| && forall m :: 0 <= m < |r| ==> KeyAtMost(l, r[m])
    {
      var j :| 0 <= j < |s| && s[j] == l;
      forall m | 0 <= m < |r|
        ensures KeyAtMost(l, r[m])
      {
        assert r[m] == s[m];
      }
    }
  }

  /** An ascending listing read back to front is descending, and lists the
      same rows. */
  lemma ReversedDescending(s: seq<Lesson>)
    requires Ascending(s) && DistinctIds(s)
    ensures Descending(Reversed(s)) && DistinctIds(Reversed(s))
    ensures forall l :: l in Reversed(s) <==> l in s
  {
    var rev := Reversed(s);
    forall i, j | 0 <= i < j < |rev|
      ensures KeyAtMost(rev[j], rev[i]) && rev[i].id != rev[j].id
    {
      assert rev[i] == s[|s| - 1 - i] && rev[j] == s[|s| - 1 - j];
    }
    forall l | l in s
      ensures l in rev
    {
      var i :| 0 <= i < |s| && s[i] == l;
      assert rev[|s| - 1 - i] == l;
    }
  }

  /** Adding a row under `id` and rows above it keeps every row stored
      below `id`. */
  lemma Untouched(base: Rows, id: nat, row: Lesson, added: Rows)
    requires KeyedBelow(base, id)
    requires forall k :: k in added ==> id < k
    ensures forall k :: k in base ==> k in base[id := row] + added && (base[id := row] + added)[k] == base[k]
  {
  }

  /** Updating a merged table updates its right-hand part. */
  lemma MergeUpdate(a: Rows, b: Rows, x: nat, v: Lesson)
    ensures (a + b)[x := v] == a + b[x := v]
  {
  }

  /** `s` read back to front. */
  function Reversed(s: seq<Lesson>): (r: seq<Lesson>)
    ensures |r| == |s|
    ensures forall i :: 0 <= i < |s| ==> r[i] == s[|s| - 1 - i]
  {
    if |s| == 0 then [] else Reversed(s[1..]) + [s[0]]
  }

  /** Places `x` after every row that sorts no later than it. */
  method InsertSorted(s: seq<Lesson>, x: Lesson) returns (r: seq<Lesson>, p: nat)
    requires Ascending(s)
    ensures p <= |s| && r == s[..p] + [x] + s[p..]
    ensures Ascending(r)
  {
    p := 0;
    while p < |s| && KeyAtMost(s[p], x)
      invariant p <= |s|
      invariant forall i :: 0 <= i < p ==> KeyAtMost(s[i], x)
    {
      p := p + 1;
    }
    if p < |s| {
      KeyAtMostTotal(x, s[p]);
      forall j | p <= j < |s|
        ensures KeyAtMost(x, s[j])
      {
        if j > p {
          KeyAtMostTransitive(x, s[p], s[j]);
        }
      }
    }
    r := s[..p] + [x] + s[p..];
    forall i, j | 0 <= i < j < |r|
      ensures KeyAtMost(r[i], r[j])
    {
      if i < p && j > p {
        KeyAtMostTransitive(r[i], x, r[j]);
      }
    }
  }

  /** Inserting at one position adds exactly that row, and keeps the ids
      distinct when the row's id was not listed. */
  lemma InsertedAt(s: seq<Lesson>, x: Lesson, p: nat)
    requires p <= |s|
    ensures forall y :: y in s[..p] + [x] + s[p..] <==> y in s || y == x
    ensures DistinctIds(s) && (forall i :: 0 <= i < |s| ==> s[i].id != x.id) ==>
      DistinctIds(s[..p] + [x] + s[p..])
  {
    assert s == s[..p] + s[p..];
  }
}
