/**
 * The dashboard views that change or read tables: the study-plan page
 * (delete an entry, or add a subject or update its hours), the holiday page
 * (the stored dates become the selected ones), and the timetable page
 * (run the generator and report, or group the saved lessons by class).
 */
module Views {
  import opened Common
  import opened Calendar
  import opened Models
  import opened Tables
  import opened Validator
  import opened Scheduler
  import opened Filters

  // ---- study plans ----

  /** The position of the entry with primary key `id`. */
  function IndexOfId(es: seq<StudyPlanEntry>, id: EntryId): (r: Option<nat>)
    ensures r.Some? ==> r.value < |es| && es[r.value].id == id && forall j | 0 <= j < r.value :: es[j].id != id
    ensures r.None? <==> forall e <- es :: e.id != id
  {
    if es == [] then None
    else if es[0].id == id then Some(0)
    else
      var r := IndexOfId(es[1..], id);
      assert forall e <- es :: e == es[0] || e in es[1..];
      if r.None? then None
      else
        assert forall j | 1 <= j < r.value + 1 :: es[j] == es[1..][j - 1];
        Some(r.value + 1)
  }

  /** The position of the plan's entry for `subject` (`filter(...).first()`). */
  function IndexOfPair(es: seq<StudyPlanEntry>, plan: PlanId, subject: SubjectId): (r: Option<nat>)
    ensures r.Some? ==> r.value < |es| && es[r.value].plan == plan && es[r.value].subject == subject
    ensures r.None? <==> forall e <- es :: (e.plan, e.subject) != (plan, subject)
  {
    if es == [] then None
    else if es[0].plan == plan && es[0].subject == subject then Some(0)
    else
      var r := IndexOfPair(es[1..], plan, subject);
      assert forall e <- es :: e == es[0] || e in es[1..];
      if r.None? then None else Some(r.value + 1)
  }

  /** The table without position `i`. */
  function RemoveAt<T>(s: seq<T>, i: nat): (r: seq<T>)
    requires i < |s|
    ensures |r| == |s| - 1
    ensures forall j | 0 <= j < |r| :: r[j] == if j < i then s[j] else s[j + 1]
  {
    s[..i] + s[i + 1..]
  }

  /** `entry.delete()` after `get_object_or_404`: the table without the entry `id`, if there is one. */
  function DeletedEntry(es: seq<StudyPlanEntry>, id: EntryId): seq<StudyPlanEntry>
  {
    match IndexOfId(es, id)
    case None => es
    case Some(i) => RemoveAt(es, i)
  }

  /**
   * The add branch: the plan's entry for the subject gets the new hours;
   * without one, a new entry with a fresh key is appended.
   */
  function Upserted(es: seq<StudyPlanEntry>, plan: PlanId, subject: SubjectId, hours: nat, newId: EntryId): seq<StudyPlanEntry>
  {
    match IndexOfPair(es, plan, subject)
    case Some(i) => es[i := es[i].(hoursPerWeek := hours)]
    case None => es + [StudyPlanEntry(newId, plan, subject, hours)]
  }

  /**
   * Deleting removes exactly the entry with that key: every other entry
   * stays, in order, and the table stays valid.
   */
  lemma DeletedEntryFacts(es: seq<StudyPlanEntry>, id: EntryId)
    requires UniquePlanEntries(es)
    ensures UniquePlanEntries(DeletedEntry(es, id))
    ensures forall e <- DeletedEntry(es, id) :: e.id != id
    ensures forall e <- es :: e.id != id <==> e in DeletedEntry(es, id)
    ensures |DeletedEntry(es, id)| == if exists e <- es :: e.id == id then |es| - 1 else |es|
  {
    match IndexOfId(es, id)
    case None =>
    case Some(i) =>
      RemovedEntryFacts(es, i);
  }

  /** Removing position `i` of a table with unique keys drops exactly the entry with that position's key. */
  lemma RemovedEntryFacts(es: seq<StudyPlanEntry>, i: nat)
    requires UniquePlanEntries(es) && i < |es|
    ensures UniquePlanEntries(RemoveAt(es, i))
    ensures forall e <- RemoveAt(es, i) :: e.id != es[i].id
    ensures forall e <- es :: e.id != es[i].id <==> e in RemoveAt(es, i)
  {
    var r := RemoveAt(es, i);
    forall a, b | 0 <= a < |r| && 0 <= b < |r| && a != b
      ensures r[a].id != r[b].id && (r[a].plan, r[a].subject) != (r[b].plan, r[b].subject)
    {
      var a', b' := if a < i then a else a + 1, if b < i then b else b + 1;
      assert r[a] == es[a'] && r[b] == es[b'];
    }
    forall e <- es ensures e.id != es[i].id <==> e in r {
      var k :| 0 <= k < |es| && es[k] == e;
      if k < i {
        assert r[k] == e;
      } else if k > i {
        assert r[k - 1] == e;
      }
    }
    forall e <- r ensures e.id != es[i].id {
      var k :| 0 <= k < |r| && r[k] == e;
      assert e == es[if k < i then k else k + 1];
    }
  }

  /**
   * After the add branch the plan holds one entry for the subject, with
   * the submitted hours; every other entry is unchanged, and the table
   * grows by one exactly when the subject was not yet in the plan.
   */
  lemma UpsertedFacts(es: seq<StudyPlanEntry>, plan: PlanId, subject: SubjectId, hours: nat, newId: EntryId)
    requires UniquePlanEntries(es) && forall e <- es :: e.id != newId
    ensures UniquePlanEntries(Upserted(es, plan, subject, hours, newId))
    ensures exists e <- Upserted(es, plan, subject, hours, newId) :: e.plan == plan && e.subject == subject && e.hoursPerWeek == hours
    ensures forall e <- es | (e.plan, e.subject) != (plan, subject) :: e in Upserted(es, plan, subject, hours, newId)
    ensures forall e <- Upserted(es, plan, subject, hours, newId) | (e.plan, e.subject) != (plan, subject) :: e in es
    ensures |Upserted(es, plan, subject, hours, newId)| == if exists e <- es :: (e.plan, e.subject) == (plan, subject) then |es| else |es| + 1
  {
    var r := Upserted(es, plan, subject, hours, newId);
    match IndexOfPair(es, plan, subject)
    case Some(i) =>
      assert r[i] in r;
      forall e <- es | (e.plan, e.subject) != (plan, subject) ensures e in r {
        var k :| 0 <= k < |es| && es[k] == e;
        assert r[k] == e;
      }
      forall e <- r | (e.plan, e.subject) != (plan, subject) ensures e in es {
        var k :| 0 <= k < |r| && r[k] == e;
        assert es[k] == e;
      }
    case None =>
      assert r[|es|] in r;
  }

  /** The StudyPlanEntry table. */
  class StudyPlanEntryTable {
    var entries: seq<StudyPlanEntry>

    ghost predicate Valid()
      reads this
    {
      UniquePlanEntries(entries)
    }

    constructor ()
      ensures entries == [] && Valid()
    {
      entries := [];
    }

    /** `get_object_or_404(StudyPlanEntry, pk=id).delete()`; `found` is false for the 404. */
    method Delete(id: EntryId) returns (found: bool)
      modifies this
      requires Valid()
      ensures Valid()
      ensures found <==> exists e <- old(entries) :: e.id == id
      ensures entries == DeletedEntry(old(entries), id)
    {
      DeletedEntryFacts(entries, id);
      var i := IndexOfId(entries, id);
      match i
      case None =>
        found := false;
      case Some(k) =>
        assert entries[k] in entries;
        entries := RemoveAt(entries, k);
        found := true;
    }

    /** The add branch of the page: update the existing entry's hours, or save a new entry. */
    method Upsert(plan: PlanId, subject: SubjectId, hours: nat, newId: EntryId) returns (created: bool)
      modifies this
      requires Valid() && forall e <- entries :: e.id != newId
      ensures Valid()
      ensures created <==> forall e <- old(entries) :: (e.plan, e.subject) != (plan, subject)
      ensures entries == Upserted(old(entries), plan, subject, hours, newId)
    {
      UpsertedFacts(entries, plan, subject, hours, newId);
      var existing := IndexOfPair(entries, plan, subject);
      match existing
      case Some(i) =>
        entries := entries[i := entries[i].(hoursPerWeek := hours)];
        created := false;
      case None =>
        entries := entries + [StudyPlanEntry(newId, plan, subject, hours)];
        created := true;
    }
  }

  /** What the study-plan page is sent: a delete key, or the add form (valid or not). */
  datatype PlanPost =
    | DeletePost(id: EntryId)
    | AddPost(formValid: bool, subject: SubjectId, hours: nat)

  datatype Response = Redirect | NotFound | Rerender

  /** The POST branch of `study_plans_view` for the plan of the active tab. */
  method StudyPlansPost(table: StudyPlanEntryTable, plan: PlanId, post: PlanPost, newId: EntryId) returns (resp: Response)
    modifies table
    requires table.Valid() && forall e <- table.entries :: e.id != newId
    ensures table.Valid()
    ensures post.DeletePost? ==> table.entries == DeletedEntry(old(table.entries), post.id)
                                 && (resp == NotFound <==> forall e <- old(table.entries) :: e.id != post.id)
                                 && (resp != NotFound ==> resp == Redirect)
    ensures post.AddPost? && !post.formValid ==> resp == Rerender && table.entries == old(table.entries)
    ensures post.AddPost? && post.formValid ==> resp == Redirect
                                                && table.entries == Upserted(old(table.entries), plan, post.subject, post.hours, newId)
  {
    match post
    case DeletePost(id) =>
      var found := table.Delete(id);
      resp := if found then Redirect else NotFound;
    case AddPost(valid, subject, hours) =>
      if !valid {
        return Rerender;
      }
      var created := table.Upsert(plan, subject, hours, newId);
      resp := Redirect;
  }

  // ---- holidays ----

  function Dates(hs: seq<Holiday>): set<Date>
  {
    set h <- hs :: h.date
  }

  /** `Holiday.objects.exclude(date__in=selected).delete()`: the holidays on a selected date, in table order. */
  function KeepSelected(hs: seq<Holiday>, selected: seq<Date>): (r: seq<Holiday>)
    ensures forall h <- r :: h in hs && h.date in selected
    ensures forall h <- hs :: h.date in selected ==> h in r
  {
    if hs == [] then []
    else KeepSelected(hs[..|hs| - 1], selected) + (if hs[|hs| - 1].date in selected then [hs[|hs| - 1]] else [])
  }

  /** The `get_or_create(date=d)` loop: a holiday with an empty description for each date not yet stored. */
  function AddMissing(hs: seq<Holiday>, ds: seq<Date>): (r: seq<Holiday>)
    ensures hs <= r
    ensures forall h <- r :: h in hs || (h.date in ds && h.description == "")
  {
    if ds == [] then hs
    else
      var pre := AddMissing(hs, ds[..|ds| - 1]);
      var d := ds[|ds| - 1];
      if d in Dates(pre) then pre else pre + [Holiday(d, "")]
  }

  lemma UniqueAppend(hs: seq<Holiday>, h: Holiday)
    requires UniqueHolidays(hs) && h.date !in Dates(hs)
    ensures UniqueHolidays(hs + [h])
  {
    var r := hs + [h];
    forall i, j | 0 <= i < |r| && 0 <= j < |r| && i != j ensures r[i].date != r[j].date {
      if i == |hs| {
        assert r[j] in hs;
      } else if j == |hs| {
        assert r[i] in hs;
      }
    }
  }

  lemma {:induction false} KeepSelectedUnique(hs: seq<Holiday>, selected: seq<Date>)
    requires UniqueHolidays(hs)
    ensures UniqueHolidays(KeepSelected(hs, selected))
  {
    if hs != [] {
      var pre, last := hs[..|hs| - 1], hs[|hs| - 1];
      assert UniqueHolidays(pre);
      KeepSelectedUnique(pre, selected);
      if last.date in selected {
        forall h <- KeepSelected(pre, selected) ensures h.date != last.date {
          var k :| 0 <= k < |pre| && pre[k] == h;
          assert hs[k] == h;
        }
        UniqueAppend(KeepSelected(pre, selected), last);
      }
    }
  }

  lemma {:induction false} AddMissingFacts(hs: seq<Holiday>, ds: seq<Date>)
    requires UniqueHolidays(hs)
    ensures UniqueHolidays(AddMissing(hs, ds))
    ensures Dates(AddMissing(hs, ds)) == Dates(hs) + (set d | d in ds)
  {
    if ds != [] {
      var pre, d := ds[..|ds| - 1], ds[|ds| - 1];
      AddMissingFacts(hs, pre);
      var r := AddMissing(hs, pre);
      assert AddMissing(hs, ds) == if d in Dates(r) then r else r + [Holiday(d, "")];
      assert ds == pre + [d];
      DateSetSnoc(ds, pre, d);
      if d !in Dates(r) {
        UniqueAppend(r, Holiday(d, ""));
        DatesSnoc(r, Holiday(d, ""));
      }
    }
  }

  lemma DateSetSnoc(ds: seq<Date>, pre: seq<Date>, d: Date)
    requires ds == pre + [d]
    ensures (set x | x in ds) == (set x | x in pre) + {d}
  {
    forall x ensures x in ds <==> x in pre || x == d {
      assert x in ds <==> x in pre + [d];
    }
  }

  lemma DatesSnoc(hs: seq<Holiday>, h: Holiday)
    ensures Dates(hs + [h]) == Dates(hs) + {h.date}
  {
    var r := hs + [h];
    forall x | x in Dates(r) ensures x in Dates(hs) + {h.date} {
      var y :| y in r && y.date == x;
      assert y in hs || y == h;
    }
    forall x | x in Dates(hs) ensures x in Dates(r) {
      var y :| y in hs && y.date == x;
      assert y in r;
    }
    assert h in r;
  }

  /**
   * The holidays after the page's POST: the stored dates are exactly the
   * selected ones, each once; a holiday already stored on a selected date
   * keeps its description, and the others are new with an empty one.
   */
  lemma ReplacedHolidays(hs: seq<Holiday>, selected: seq<Date>)
    requires UniqueHolidays(hs)
    ensures var r := AddMissing(KeepSelected(hs, selected), selected);
      && UniqueHolidays(r)
      && Dates(r) == (set d | d in selected)
      && (forall h <- hs | h.date in selected :: h in r)
      && (forall h <- r :: h in hs || h.description == "")
  {
    KeepSelectedUnique(hs, selected);
    AddMissingFacts(KeepSelected(hs, selected), selected);
  }

  /** The Holiday table. */
  class HolidayTable {
    var holidays: seq<Holiday>

    ghost predicate Valid()
      reads this
    {
      UniqueHolidays(holidays)
    }

    constructor ()
      ensures holidays == [] && Valid()
    {
      holidays := [];
    }

    /** `Holiday.objects.get_or_create(date=d)`. */
    method GetOrCreate(d: Date)
      modifies this
      requires Valid()
      ensures Valid()
      ensures holidays == if d in Dates(old(holidays)) then old(holidays) else old(holidays) + [Holiday(d, "")]
    {
      if d !in Dates(holidays) {
        UniqueAppend(holidays, Holiday(d, ""));
        holidays := holidays + [Holiday(d, "")];
      }
    }

    /** The POST branch of `holidays_view`: delete the unselected dates, then `get_or_create` each selected one. */
    method Replace(selected: seq<Date>)
      modifies this
      requires Valid()
      ensures Valid()
      ensures holidays == AddMissing(KeepSelected(old(holidays), selected), selected)
    {
      KeepSelectedUnique(holidays, selected);
      holidays := KeepSelected(holidays, selected);
      ghost var kept := holidays;
      var i := 0;
      while i < |selected|
        invariant 0 <= i <= |selected|
        invariant Valid()
        invariant holidays == AddMissing(kept, selected[..i])
      {
        assert selected[..i + 1][..i] == selected[..i];
        GetOrCreate(selected[i]);
        i := i + 1;
      }
      assert selected[..i] == selected;
    }
  }

  // ---- the timetable page ----

  /** The flash message the page shows after a POST. */
  datatype Message = Success(text: string) | Error(text: string)

  const GeneratedText: string := "Расписание успешно сгенерировано!"
  const ErrorPrefix: string := "Ошибка при генерации: "

  /** The text of the exception `generate_schedule` raises for a failed run. */
  function ExceptionText(r: RunResult): string
  {
    match r
    case ValidationFailed(_) => "Data validation failed. Fix errors and rerun."
    case NoSolution(_) => "No solution found."
    case CapacitySumFailed => "unsupported operand type(s) for +: 'int' and 'list'"
    case WeeklyLoadFailed => "'<=' not supported between instances of 'int' and 'list'"
    case Generated(_) => ""
  }

  /**
   * The POST branch of `generate_schedule_view`: run the generator; a
   * failure becomes an error message, never an exception, and the page
   * redirects either way.
   */
  method GenerateView(table: LessonTable, snap: Snapshot, sol: Solution) returns (msg: Message)
    modifies table
    requires table.Valid() && SolverContract(snap, sol)
    ensures table.Valid()
    ensures msg.Success? <==> Outcome(snap, sol).Generated?
    ensures msg.Success? ==> msg.text == GeneratedText
    ensures msg.Error? ==> msg.text == ErrorPrefix + ExceptionText(Outcome(snap, sol)) && table.lessons == []
    ensures Rows(table.lessons) == LessonsAfterAsWritten(Rows(old(table.lessons)), snap, sol)
  {
    var result := GenerateSchedule(table, snap, sol);
    if result.Generated? {
      msg := Success(GeneratedText);
    } else {
      msg := Error(ErrorPrefix + ExceptionText(result));
    }
  }

  /** A row of the page's query: a lesson joined with its class. */
  datatype LessonRow = LessonRow(lesson: Lesson, cls: SchoolClass)

  /** `str(lesson.school_class)`, the key of every dictionary of the page. */
  function RowKey(r: LessonRow): string
  {
    ClassDisplay(r.cls)
  }

  function KeysOf(rows: seq<LessonRow>): set<string>
  {
    set r | r in rows :: RowKey(r)
  }

  /** The lessons of the rows with key `k`, in row order. */
  function GroupOf(rows: seq<LessonRow>, k: string): seq<Lesson>
  {
    if rows == [] then []
    else GroupOf(rows[..|rows| - 1], k) + (if RowKey(rows[|rows| - 1]) == k then [rows[|rows| - 1].lesson] else [])
  }

  lemma KeysOfStep(rows: seq<LessonRow>)
    requires rows != []
    ensures KeysOf(rows) == KeysOf(rows[..|rows| - 1]) + {RowKey(rows[|rows| - 1])}
  {
    var pre := rows[..|rows| - 1];
    assert rows == pre + [rows[|rows| - 1]];
    forall k ensures k in KeysOf(rows) <==> k in KeysOf(pre) || k == RowKey(rows[|rows| - 1]) {
      if k in KeysOf(rows) {
        var r :| r in rows && RowKey(r) == k;
        assert r in pre || r == rows[|rows| - 1];
      }
      if k in KeysOf(pre) {
        var r :| r in pre && RowKey(r) == k;
        assert r in rows;
      }
    }
  }

  /** The largest lesson number among the rows with key `k`: the `max_lessons` update rule. */
  function MaxOf(rows: seq<LessonRow>, k: string): int
    requires k in KeysOf(rows)
  {
    var pre, last := rows[..|rows| - 1], rows[|rows| - 1];
    KeysOfStep(rows);
    if RowKey(last) != k then MaxOf(pre, k)
    else if k !in KeysOf(pre) || last.lesson.lessonNumber > MaxOf(pre, k) then last.lesson.lessonNumber
    else MaxOf(pre, k)
  }

  /** The shift of the last row with key `k`: `shift_map[key]` is overwritten row by row. */
  function ShiftOf(rows: seq<LessonRow>, k: string): Shift
    requires k in KeysOf(rows)
  {
    var pre, last := rows[..|rows| - 1], rows[|rows| - 1];
    KeysOfStep(rows);
    if RowKey(last) == k then last.cls.shift else ShiftOf(pre, k)
  }

  ghost predicate GroupMap(rows: seq<LessonRow>, grouped: map<string, seq<Lesson>>)
  {
    grouped.Keys == KeysOf(rows) && forall k <- grouped :: grouped[k] == GroupOf(rows, k)
  }

  ghost predicate MaxMap(rows: seq<LessonRow>, maxLessons: map<string, int>)
  {
    maxLessons.Keys == KeysOf(rows) && forall k <- maxLessons :: maxLessons[k] == MaxOf(rows, k)
  }

  ghost predicate ShiftMap(rows: seq<LessonRow>, shiftMap: map<string, Shift>)
  {
    shiftMap.Keys == KeysOf(rows) && forall k <- shiftMap :: shiftMap[k] == ShiftOf(rows, k)
  }

  /** One more row changes only its own key's entries. */
  lemma RowStep(rows: seq<LessonRow>, i: nat)
    requires i < |rows|
    ensures rows[..i + 1][..i] == rows[..i] && rows[..i + 1][i] == rows[i]
    ensures KeysOf(rows[..i + 1]) == KeysOf(rows[..i]) + {RowKey(rows[i])}
    ensures forall k | k != RowKey(rows[i]) :: GroupOf(rows[..i + 1], k) == GroupOf(rows[..i], k)
    ensures forall k | k != RowKey(rows[i]) && k in KeysOf(rows[..i]) ::
              MaxOf(rows[..i + 1], k) == MaxOf(rows[..i], k) && ShiftOf(rows[..i + 1], k) == ShiftOf(rows[..i], k)
    ensures GroupOf(rows[..i + 1], RowKey(rows[i])) == GroupOf(rows[..i], RowKey(rows[i])) + [rows[i].lesson]
    ensures ShiftOf(rows[..i + 1], RowKey(rows[i])) == rows[i].cls.shift
    ensures MaxOf(rows[..i + 1], RowKey(rows[i])) ==
            if RowKey(rows[i]) !in KeysOf(rows[..i]) || rows[i].lesson.lessonNumber > MaxOf(rows[..i], RowKey(rows[i]))
            then rows[i].lesson.lessonNumber else MaxOf(rows[..i], RowKey(rows[i]))
  {
    assert rows[..i + 1][..i] == rows[..i];
    KeysOfStep(rows[..i + 1]);
  }

  /** `grouped.setdefault(key, []).append(lesson)`. */
  method AppendToGroup(rows: seq<LessonRow>, i: nat, grouped: map<string, seq<Lesson>>) returns (grouped': map<string, seq<Lesson>>)
    requires i < |rows| && GroupMap(rows[..i], grouped)
    ensures GroupMap(rows[..i + 1], grouped')
  {
    var key := RowKey(rows[i]);
    RowStep(rows, i);
    assert key !in KeysOf(rows[..i]) ==> GroupOf(rows[..i], key) == [] by {
      GroupOfMembers(rows[..i], key);
    }
    grouped' := grouped[key := (if key in grouped then grouped[key] else []) + [rows[i].lesson]];
    assert grouped'.Keys == grouped.Keys + {key};
    forall k <- grouped' ensures grouped'[k] == GroupOf(rows[..i + 1], k) {
      if k != key {
        assert k in grouped;
      }
    }
  }

  /** `if key not in max_lessons or lesson.lesson_number > max_lessons[key]: max_lessons[key] = lesson.lesson_number`. */
  method UpdateMax(rows: seq<LessonRow>, i: nat, maxLessons: map<string, int>) returns (maxLessons': map<string, int>)
    requires i < |rows| && MaxMap(rows[..i], maxLessons)
    ensures MaxMap(rows[..i + 1], maxLessons')
  {
    var key := RowKey(rows[i]);
    RowStep(rows, i);
    maxLessons' := maxLessons;
    if key !in maxLessons || rows[i].lesson.lessonNumber > maxLessons[key] {
      maxLessons' := maxLessons[key := rows[i].lesson.lessonNumber];
    }
    assert maxLessons'.Keys == maxLessons.Keys + {key};
    forall k <- maxLessons' ensures maxLessons'[k] == MaxOf(rows[..i + 1], k) {
      if k != key {
        assert k in maxLessons;
      }
    }
  }

  /** `shift_map[key] = lesson.school_class.shift`. */
  method SetShift(rows: seq<LessonRow>, i: nat, shiftMap: map<string, Shift>) returns (shiftMap': map<string, Shift>)
    requires i < |rows| && ShiftMap(rows[..i], shiftMap)
    ensures ShiftMap(rows[..i + 1], shiftMap')
  {
    var key := RowKey(rows[i]);
    RowStep(rows, i);
    shiftMap' := shiftMap[key := rows[i].cls.shift];
    assert shiftMap'.Keys == shiftMap.Keys + {key};
    forall k <- shiftMap' ensures shiftMap'[k] == ShiftOf(rows[..i + 1], k) {
      if k != key {
        assert k in shiftMap;
      }
    }
  }

  /** The loop over the page's rows that fills `grouped`, `max_lessons` and `shift_map`. */
  method GroupLessons(rows: seq<LessonRow>)
    returns (grouped: map<string, seq<Lesson>>, maxLessons: map<string, int>, shiftMap: map<string, Shift>)
    ensures grouped.Keys == KeysOf(rows) && maxLessons.Keys == KeysOf(rows) && shiftMap.Keys == KeysOf(rows)
    ensures forall k <- grouped :: grouped[k] == GroupOf(rows, k)
    ensures forall k <- maxLessons :: maxLessons[k] == MaxOf(rows, k)
    ensures forall k <- shiftMap :: shiftMap[k] == ShiftOf(rows, k)
  {
    grouped, maxLessons, shiftMap := map[], map[], map[];
    var i := 0;
    while i < |rows|
      invariant 0 <= i <= |rows|
      invariant GroupMap(rows[..i], grouped) && MaxMap(rows[..i], maxLessons) && ShiftMap(rows[..i], shiftMap)
    {
      grouped := AppendToGroup(rows, i, grouped);
      maxLessons := UpdateMax(rows, i, maxLessons);
      shiftMap := SetShift(rows, i, shiftMap);
      i := i + 1;
    }
    assert rows[..i] == rows;
  }

  /** A class's group holds exactly the lessons of its rows, and a key is present exactly when its group is not empty. */
  lemma GroupOfMembers(rows: seq<LessonRow>, k: string)
    ensures forall l :: l in GroupOf(rows, k) <==> exists r <- rows :: RowKey(r) == k && r.lesson == l
    ensures k in KeysOf(rows) <==> GroupOf(rows, k) != []
  {
    forall l ensures l in GroupOf(rows, k) <==> exists r <- rows :: RowKey(r) == k && r.lesson == l {
      GroupMember(rows, k, l);
    }
    GroupNonEmpty(rows, k);
  }

  /** One lesson is in the group of `k` iff a row with key `k` carries it. */
  lemma {:induction false} GroupMember(rows: seq<LessonRow>, k: string, l: Lesson)
    ensures l in GroupOf(rows, k) <==> exists r <- rows :: RowKey(r) == k && r.lesson == l
  {
    if rows != [] {
      var pre, last := rows[..|rows| - 1], rows[|rows| - 1];
      GroupMember(pre, k, l);
      DropLastMembers(rows);
      if l in GroupOf(rows, k) && l !in GroupOf(pre, k) {
        assert RowKey(last) == k && last.lesson == l;
      }
    }
  }

  /** A key is present iff its group is non-empty. */
  lemma {:induction false} GroupNonEmpty(rows: seq<LessonRow>, k: string)
    ensures k in KeysOf(rows) <==> GroupOf(rows, k) != []
  {
    if rows != [] {
      GroupNonEmpty(rows[..|rows| - 1], k);
      KeysOfStep(rows);
    }
  }

  /** `max_lessons[key]` is the largest lesson number of the class's group. */
  lemma {:induction false} MaxOfIsMax(rows: seq<LessonRow>, k: string)
    requires k in KeysOf(rows)
    ensures forall l <- GroupOf(rows, k) :: l.lessonNumber <= MaxOf(rows, k)
    ensures exists l <- GroupOf(rows, k) :: l.lessonNumber == MaxOf(rows, k)
  {
    var pre, last := rows[..|rows| - 1], rows[|rows| - 1];
    KeysOfStep(rows);
    GroupOfMembers(pre, k);
    if k in KeysOf(pre) {
      MaxOfIsMax(pre, k);
    }
    var g := GroupOf(rows, k);
    if RowKey(last) == k {
      assert g[|g| - 1] == last.lesson;
    }
  }

  /** Lessons come before one another by weekday, then by lesson number. */
  predicate TimeBefore(a: Lesson, b: Lesson)
  {
    a.weekday < b.weekday || (a.weekday == b.weekday && a.lessonNumber <= b.lessonNumber)
  }

  /** The query orders one class's rows by weekday and lesson number. */
  predicate TimeOrderedFor(rows: seq<LessonRow>, k: string)
  {
    forall i, j | 0 <= i < j < |rows| && RowKey(rows[i]) == k && RowKey(rows[j]) == k :: TimeBefore(rows[i].lesson, rows[j].lesson)
  }

  /** Appending keeps the query order: a class's group lists its lessons by weekday, then lesson number. */
  lemma {:induction false} GroupOrdered(rows: seq<LessonRow>, k: string)
    requires TimeOrderedFor(rows, k)
    ensures forall i, j | 0 <= i < j < |GroupOf(rows, k)| :: TimeBefore(GroupOf(rows, k)[i], GroupOf(rows, k)[j])
  {
    if rows != [] {
      var pre, last := rows[..|rows| - 1], rows[|rows| - 1];
      assert TimeOrderedFor(pre, k);
      GroupOrdered(pre, k);
      if RowKey(last) == k {
        var g := GroupOf(pre, k);
        GroupOfMembers(pre, k);
        forall l <- g ensures TimeBefore(l, last.lesson) {
          var r :| r in pre && RowKey(r) == k && r.lesson == l;
          var m :| 0 <= m < |pre| && pre[m] == r;
          assert rows[m] == r;
        }
        var g2 := GroupOf(rows, k);
        forall i, j | 0 <= i < j < |g2| ensures TimeBefore(g2[i], g2[j]) {
          if j == |g| {
            assert g2[i] == g[i] && g[i] in g;
          } else {
            assert g2[i] == g[i] && g2[j] == g[j];
          }
        }
      }
    }
  }

  /**
   * With the class table's unique (grade, letter) pairs and one-letter
   * letters, a class's key picks out its own rows, so `shift_map` records
   * that class's shift and its group is the lessons of its rows.
   */
  lemma ShiftOfIsClassShift(rows: seq<LessonRow>, classes: seq<SchoolClass>, c: SchoolClass)
    requires UniqueClasses(classes) && forall x <- classes :: |x.letter| == 1
    requires forall r <- rows :: r.cls in classes
    requires c in classes && ClassDisplay(c) in KeysOf(rows)
    ensures forall r <- rows :: RowKey(r) == ClassDisplay(c) <==> r.cls == c
    ensures ShiftOf(rows, ClassDisplay(c)) == c.shift
  {
    forall r <- rows ensures RowKey(r) == ClassDisplay(c) <==> r.cls == c {
      if r.cls != c {
        var i :| 0 <= i < |classes| && classes[i] == r.cls;
        var j :| 0 <= j < |classes| && classes[j] == c;
        UniqueClassesDisplayDistinct(classes, i, j);
      }
    }
    ShiftOfSameClass(rows, c);
  }

  lemma {:induction false} ShiftOfSameClass(rows: seq<LessonRow>, c: SchoolClass)
    requires ClassDisplay(c) in KeysOf(rows)
    requires forall r <- rows :: RowKey(r) == ClassDisplay(c) <==> r.cls == c
    ensures ShiftOf(rows, ClassDisplay(c)) == c.shift
  {
    var pre, last := rows[..|rows| - 1], rows[|rows| - 1];
    KeysOfStep(rows);
    if RowKey(last) != ClassDisplay(c) {
      assert forall r <- pre :: r in rows;
      ShiftOfSameClass(pre, c);
    }
  }

  /**
   * What the template reads: `grouped|get_item:key` is the class's group
   * (empty for a class without lessons), and `to_range 1 max` covers the
   * lesson number of every lesson of the group.
   */
  lemma TemplateLookups(rows: seq<LessonRow>, grouped: map<string, seq<Lesson>>, maxLessons: map<string, int>, k: string)
    requires grouped.Keys == KeysOf(rows) && maxLessons.Keys == KeysOf(rows)
    requires forall key <- grouped :: grouped[key] == GroupOf(rows, key)
    requires forall key <- maxLessons :: maxLessons[key] == MaxOf(rows, key)
    ensures GetItem(grouped, k) == GroupOf(rows, k)
    ensures k in maxLessons ==> forall l <- GetItem(grouped, k) | 1 <= l.lessonNumber :: l.lessonNumber in ToRange(1, maxLessons[k])
  {
    GroupOfMembers(rows, k);
    if k in maxLessons {
      MaxOfIsMax(rows, k);
      ToRangeMembers(1, maxLessons[k]);
    }
  }
}
