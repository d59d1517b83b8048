/**
 * The `fiftyfifty1` generator variant, run level: for every class in turn
 * its hours rows and lessons are deleted and the hours rebuilt from its
 * study plan; a run without an accepted solution raises after that; an
 * accepted one writes the decoded lessons class by class, cell by cell,
 * outside any transaction, so a draft without a teacher (the lesson's
 * teacher column is not nullable) stops the run with the earlier lessons
 * already written.
 */
module FiftyFiftyRun {
  import opened Common
  import opened Calendar
  import opened Models
  import opened Validator
  import opened Tables
  import opened Scheduler
  import opened FiftyFifty

  /** A solver answer: the status, each class's cell values, the binding booleans of each pair. */
  datatype FiftySolution = FiftySolution(status: SolverStatus, value: map<ClassId, map<Cell, nat>>,
                                         bound: map<(ClassId, SubjectId), seq<bool>>)

  /** How a run ends. `saved` counts the drafts written before the one without a teacher. */
  datatype FiftyOutcome =
    | FiftyGenerated
    | FiftyNoSolution(status: SolverStatus)
    | FiftyMissingTeacher(saved: nat)

  /** The hours rows a class gets from its study plan; none when it has no plan. */
  function PlanRowsOf(cls: SchoolClass, entries: seq<StudyPlanEntry>): seq<SubjectHours>
  {
    match cls.studyPlan
    case Some(p) => PlanRows(cls.id, PlanEntries(entries, p))
    case None => []
  }

  /** Every class of `classes` has a value map over its cells, each value a position or the sentinel. */
  predicate AllValued(classes: seq<SchoolClass>, subjects: seq<Subject>, sol: FiftySolution)
  {
    forall cls <- classes :: cls.id in sol.value && Valued(subjects, Cells(cls.shift), sol.value[cls.id])
  }

  /** An accepted status comes with values satisfying every class's constraints over its rebuilt rows. */
  ghost predicate FiftyContract(classes: seq<SchoolClass>, subjects: seq<Subject>, teachers: seq<Teacher>,
                                entries: seq<StudyPlanEntry>, sol: FiftySolution)
  {
    Accepted(sol.status) ==>
      && Shaped(sol.bound, teachers)
      && (forall cls <- classes :: cls.id in sol.value &&
            ClassConstraints(subjects, teachers, cls, PlanRowsOf(cls, entries), sol.value[cls.id], sol.bound))
  }

  lemma ContractValued(classes: seq<SchoolClass>, subjects: seq<Subject>, teachers: seq<Teacher>,
                       entries: seq<StudyPlanEntry>, sol: FiftySolution)
    requires FiftyContract(classes, subjects, teachers, entries, sol) && Accepted(sol.status)
    ensures AllValued(classes, subjects, sol)
  {
    forall cls <- classes ensures cls.id in sol.value && Valued(subjects, Cells(cls.shift), sol.value[cls.id]) {
      ConstrainedIsValued(subjects, teachers, cls, PlanRowsOf(cls, entries), sol.value[cls.id], sol.bound);
    }
  }

  // ---- the per-class reset ----

  function ClassIds(classes: seq<SchoolClass>): set<ClassId>
  {
    set cls <- classes :: cls.id
  }

  /** The hours table after the reset of `classes`, one class after the other. */
  function RebuiltRows(rows: seq<SubjectHours>, classes: seq<SchoolClass>, entries: seq<StudyPlanEntry>): seq<SubjectHours>
  {
    if classes == [] then rows
    else
      var last := classes[|classes| - 1];
      OtherClassRows(RebuiltRows(rows, classes[..|classes| - 1], entries), last.id) + PlanRowsOf(last, entries)
  }

  /** The lesson table after the reset of `classes`. */
  function Survivors(ls: seq<Lesson>, classes: seq<SchoolClass>): seq<Lesson>
  {
    if classes == [] then ls
    else OtherClassLessons(Survivors(ls, classes[..|classes| - 1]), classes[|classes| - 1].id)
  }

  /** The surviving lessons are exactly those of classes outside the run. */
  lemma {:induction false} SurvivorsMembers(ls: seq<Lesson>, classes: seq<SchoolClass>)
    ensures forall x :: x in Survivors(ls, classes) <==> x in ls && x.schoolClass !in ClassIds(classes)
  {
    if classes != [] {
      var pre := classes[..|classes| - 1];
      SurvivorsMembers(ls, pre);
      assert classes == pre + [classes[|classes| - 1]];
      assert ClassIds(classes) == ClassIds(pre) + {classes[|classes| - 1].id};
    }
  }

  lemma {:induction false} OtherRowsKeepClass(rows: seq<SubjectHours>, c: ClassId, d: ClassId)
    requires c != d
    ensures ClassRows(OtherClassRows(rows, c), d) == ClassRows(rows, d)
  {
    if rows != [] {
      var pre, last := rows[..|rows| - 1], rows[|rows| - 1];
      OtherRowsKeepClass(pre, c, d);
      var kept := OtherClassRows(pre, c);
      if last.schoolClass != c {
        assert OtherClassRows(rows, c) == kept + [last];
        ClassRowsSplit(kept, [last], d);
        assert [last][..0] == [];
      } else {
        assert OtherClassRows(rows, c) == kept;
        assert ClassRows(rows, d) == ClassRows(pre, d);
      }
    }
  }

  lemma {:induction false} PlanRowsOtherClass(c: ClassId, es: seq<StudyPlanEntry>, d: ClassId)
    requires c != d
    ensures ClassRows(PlanRows(c, es), d) == []
  {
    if es != [] {
      var pre := es[..|es| - 1];
      var last := SubjectHours(c, es[|es| - 1].subject, es[|es| - 1].hoursPerWeek);
      PlanRowsOtherClass(c, pre, d);
      assert PlanRows(c, es) == PlanRows(c, pre) + [last];
      ClassRowsSplit(PlanRows(c, pre), [last], d);
      assert [last][..0] == [];
    }
  }

  /** One reset step: the reset class gets its plan's rows, every other class keeps its rows. */
  lemma ResetStep(rows: seq<SubjectHours>, cls: SchoolClass, entries: seq<StudyPlanEntry>, d: ClassId)
    ensures ClassRows(OtherClassRows(rows, cls.id) + PlanRowsOf(cls, entries), d) ==
            if d == cls.id then PlanRowsOf(cls, entries) else ClassRows(rows, d)
  {
    var plan := PlanRowsOf(cls, entries);
    ClassRowsSplit(OtherClassRows(rows, cls.id), plan, d);
    if d == cls.id {
      OtherClassRowsHaveNoClassRows(rows, cls.id);
      match cls.studyPlan {
        case Some(p) => PlanRowsOfClass(cls.id, PlanEntries(entries, p));
        case None =>
      }
    } else {
      OtherRowsKeepClass(rows, cls.id, d);
      match cls.studyPlan {
        case Some(p) => PlanRowsOtherClass(cls.id, PlanEntries(entries, p), d);
        case None =>
      }
    }
  }

  lemma UniqueClassesPrefix(classes: seq<SchoolClass>, n: nat)
    requires UniqueClasses(classes) && n <= |classes|
    ensures UniqueClasses(classes[..n])
  {
    var pre := classes[..n];
    forall i, j | 0 <= i < |pre| && 0 <= j < |pre| && i != j
      ensures pre[i].id != pre[j].id && (pre[i].grade, pre[i].letter) != (pre[j].grade, pre[j].letter)
    {
      assert pre[i] == classes[i] && pre[j] == classes[j];
    }
  }

  /** After the reset, the rows of a class of the run are exactly its plan's (subject, hours) pairs. */
  lemma {:induction false} RebuiltRowsOfClass(rows: seq<SubjectHours>, classes: seq<SchoolClass>, entries: seq<StudyPlanEntry>, k: nat)
    requires UniqueClasses(classes) && k < |classes|
    ensures ClassRows(RebuiltRows(rows, classes, entries), classes[k].id) == PlanRowsOf(classes[k], entries)
  {
    var n := |classes| - 1;
    var pre, last := classes[..n], classes[n];
    ResetStep(RebuiltRows(rows, pre, entries), last, entries, classes[k].id);
    if k < n {
      UniqueClassesPrefix(classes, n);
      RebuiltRowsOfClass(rows, pre, entries, k);
      assert pre[k] == classes[k];
    }
  }

  /** After the reset, the rows of a class outside the run are unchanged. */
  lemma {:induction false} RebuiltRowsOfOtherClass(rows: seq<SubjectHours>, classes: seq<SchoolClass>, entries: seq<StudyPlanEntry>, d: ClassId)
    requires d !in ClassIds(classes)
    ensures ClassRows(RebuiltRows(rows, classes, entries), d) == ClassRows(rows, d)
  {
    if classes != [] {
      var n := |classes| - 1;
      var pre, last := classes[..n], classes[n];
      assert ClassIds(pre) <= ClassIds(classes) by {
        assert forall x <- pre :: x in classes;
      }
      RebuiltRowsOfOtherClass(rows, pre, entries, d);
      ResetStep(RebuiltRows(rows, pre, entries), last, entries, d);
    }
  }

  /** The reset of one class (the start of the body of the class loop). */
  method ResetClass(hours: SubjectHoursTable, lessons: LessonTable, cls: SchoolClass, entries: seq<StudyPlanEntry>)
    modifies hours, lessons
    requires hours.Valid() && lessons.Valid() && UniquePlanEntries(entries)
    ensures hours.Valid() && lessons.Valid()
    ensures hours.rows == OtherClassRows(old(hours.rows), cls.id) + PlanRowsOf(cls, entries)
    ensures lessons.lessons == OtherClassLessons(old(lessons.lessons), cls.id)
  {
    hours.DeleteForClass(cls.id);
    lessons.DeleteForClass(cls.id);
    match cls.studyPlan {
      case Some(p) =>
        PlanEntriesDistinctSubjects(entries, p);
        hours.CopyPlan(cls.id, PlanEntries(entries, p));
      case None =>
        assert hours.rows + [] == hours.rows;
    }
  }

  /** Resetting one more class: its rows are rebuilt and its lessons dropped, on top of the earlier classes. */
  lemma ResetPrefixStep(rows: seq<SubjectHours>, ls: seq<Lesson>, classes: seq<SchoolClass>, entries: seq<StudyPlanEntry>, i: nat)
    requires i < |classes|
    ensures RebuiltRows(rows, classes[..i + 1], entries)
            == OtherClassRows(RebuiltRows(rows, classes[..i], entries), classes[i].id) + PlanRowsOf(classes[i], entries)
    ensures Survivors(ls, classes[..i + 1]) == OtherClassLessons(Survivors(ls, classes[..i]), classes[i].id)
  {
    assert classes[..i + 1][..i] == classes[..i];
  }

  /** The class loop, as far as it touches the tables. */
  method ResetClasses(hours: SubjectHoursTable, lessons: LessonTable, classes: seq<SchoolClass>, entries: seq<StudyPlanEntry>)
    modifies hours, lessons
    requires hours.Valid() && lessons.Valid() && UniquePlanEntries(entries)
    ensures hours.Valid() && lessons.Valid()
    ensures hours.rows == RebuiltRows(old(hours.rows), classes, entries)
    ensures lessons.lessons == Survivors(old(lessons.lessons), classes)
  {
    var i := 0;
    while i < |classes|
      invariant 0 <= i <= |classes|
      invariant hours.Valid() && lessons.Valid()
      invariant hours.rows == RebuiltRows(old(hours.rows), classes[..i], entries)
      invariant lessons.lessons == Survivors(old(lessons.lessons), classes[..i])
    {
      ResetClass(hours, lessons, classes[i], entries);
      ResetPrefixStep(old(hours.rows), old(lessons.lessons), classes, entries, i);
      i := i + 1;
    }
    assert classes[..i] == classes;
  }

  // ---- the decode-and-save loop ----

  /** The `for i, t_var in enumerate(teacher_vars): if ...: break` loop. */
  method FirstBound(bs: seq<bool>) returns (r: Option<nat>)
    ensures r == FirstTrue(bs)
  {
    r := None;
    var i := 0;
    while i < |bs|
      invariant 0 <= i <= |bs|
      invariant forall j | 0 <= j < i :: !bs[j]
    {
      if bs[i] {
        r := Some(i);
        break;
      }
      i := i + 1;
    }
    if r.None? {
      assert forall j | 0 <= j < |bs| :: !bs[j];
    }
  }

  predicate Drafted(ds: seq<Draft>)
  {
    forall d <- ds :: d.teacher.Some?
  }

  /** The row `Lesson.objects.create` writes for a draft with a teacher; no room is given. */
  function LessonOfDraft(d: Draft): Lesson
    requires d.teacher.Some?
  {
    Lesson(d.schoolClass, d.subject, d.teacher.value, d.weekday, d.lessonNumber, None)
  }

  function LessonsOf(ds: seq<Draft>): (r: seq<Lesson>)
    requires Drafted(ds)
    ensures |r| == |ds|
    ensures forall i | 0 <= i < |ds| :: r[i] == LessonOfDraft(ds[i])
  {
    if ds == [] then []
    else
      assert Drafted(ds[..|ds| - 1]) by {
        assert forall d <- ds[..|ds| - 1] :: d in ds;
      }
      LessonsOf(ds[..|ds| - 1]) + [LessonOfDraft(ds[|ds| - 1])]
  }

  /**
   * The decode loop over one class's cells: a sentinel cell is skipped,
   * any other is written at once. It stops at the first draft without a
   * teacher; the drafts before it stay written.
   */
  method SaveClass(lessons: LessonTable, subjects: seq<Subject>, teachers: seq<Teacher>,
                   bound: map<(ClassId, SubjectId), seq<bool>>, cls: SchoolClass, v: map<Cell, nat>)
    returns (ok: bool, failedAt: nat)
    modifies lessons
    requires lessons.Valid() && Shaped(bound, teachers) && Valued(subjects, Cells(cls.shift), v)
    requires forall x <- lessons.lessons :: x.schoolClass != cls.id
    ensures lessons.Valid()
    ensures var ds := DecodeCells(subjects, teachers, bound, cls.id, v, Cells(cls.shift));
      && failedAt <= |ds| && Drafted(ds[..failedAt])
      && lessons.lessons == old(lessons.lessons) + LessonsOf(ds[..failedAt])
      && (ok <==> Drafted(ds))
      && (ok ==> failedAt == |ds|)
      && (!ok ==> failedAt < |ds| && ds[failedAt].teacher.None?)
  {
    CellsDistinct(cls.shift);
    ok, failedAt := SaveCells(lessons, subjects, teachers, bound, cls.id, v, Cells(cls.shift));
  }

  /** The cell loop of the decode for class `c`, over the cells in creation order. */
  method SaveCells(lessons: LessonTable, subjects: seq<Subject>, teachers: seq<Teacher>,
                   bound: map<(ClassId, SubjectId), seq<bool>>, c: ClassId, v: map<Cell, nat>, cells: seq<Cell>)
    returns (ok: bool, failedAt: nat)
    modifies lessons
    requires lessons.Valid() && Shaped(bound, teachers) && Valued(subjects, cells, v) && Distinct(cells)
    requires forall x <- lessons.lessons :: x.schoolClass != c
    ensures lessons.Valid()
    ensures var ds := DecodeCells(subjects, teachers, bound, c, v, cells);
      && failedAt <= |ds| && Drafted(ds[..failedAt])
      && lessons.lessons == old(lessons.lessons) + LessonsOf(ds[..failedAt])
      && (ok <==> Drafted(ds))
      && (ok ==> failedAt == |ds|)
      && (!ok ==> failedAt < |ds| && ds[failedAt].teacher.None?)
  {
    DecodeKeysDistinct(subjects, teachers, bound, c, v, cells);
    ghost var all := DecodeCells(subjects, teachers, bound, c, v, cells);
    assert cells[..|cells|] == cells;
    ghost var start := lessons.lessons;
    var i, saved := 0, 0;
    ghost var done: seq<Draft> := [];
    while i < |cells|
      invariant 0 <= i <= |cells| && saved == |done|
      invariant Valued(subjects, cells[..i], v)
      invariant done == DecodeCells(subjects, teachers, bound, c, v, cells[..i]) && Drafted(done)
      invariant lessons.Valid()
      invariant lessons.lessons == start + LessonsOf(done)
    {
      var ok, wrote;
      ok, wrote, done := SaveCellAt(lessons, subjects, teachers, bound, c, v, cells, i, start, all, done);
      if !ok {
        return false, saved;
      }
      if wrote {
        saved := saved + 1;
      }
      i := i + 1;
    }
    assert cells[..i] == cells;
    assert all[..|all|] == all;
    return true, saved;
  }

  /** The body of the cell loop at index `i`, stated on the decode of the cells before and through `i`. */
  method SaveCellAt(lessons: LessonTable, subjects: seq<Subject>, teachers: seq<Teacher>,
                    bound: map<(ClassId, SubjectId), seq<bool>>, c: ClassId, v: map<Cell, nat>, cells: seq<Cell>, i: nat,
                    ghost start: seq<Lesson>, ghost all: seq<Draft>, ghost done: seq<Draft>)
    returns (ok: bool, wrote: bool, ghost done': seq<Draft>)
    modifies lessons
    requires Shaped(bound, teachers) && Valued(subjects, cells, v) && i < |cells|
    requires all == DecodeCells(subjects, teachers, bound, c, v, cells) && DistinctSlots(all)
    requires Valued(subjects, cells[..i], v)
    requires done == DecodeCells(subjects, teachers, bound, c, v, cells[..i]) && Drafted(done)
    requires lessons.Valid() && lessons.lessons == start + LessonsOf(done)
    requires forall x <- start :: x.schoolClass != c
    ensures lessons.Valid()
    ensures ok ==> Valued(subjects, cells[..i + 1], v)
    ensures ok ==> done' == DecodeCells(subjects, teachers, bound, c, v, cells[..i + 1]) && Drafted(done')
    ensures ok ==> lessons.lessons == start + LessonsOf(done') && |done'| == |done| + (if wrote then 1 else 0)
    ensures !ok ==> |done| < |all| && all[..|done|] == done && all[|done|].teacher.None? && !Drafted(all)
    ensures !ok ==> lessons.lessons == old(lessons.lessons)
  {
    CellStep(subjects, teachers, bound, c, v, cells, i);
    ok, wrote, done' := SaveCell(lessons, subjects, teachers, bound, c, v, cells[i], start, all, done);
  }

  /**
   * Decode cell `x` and write its draft, if any.
   * Refused exactly when the draft has no teacher.
   */
  method SaveCell(lessons: LessonTable, subjects: seq<Subject>, teachers: seq<Teacher>,
                  bound: map<(ClassId, SubjectId), seq<bool>>, c: ClassId, v: map<Cell, nat>, x: Cell,
                  ghost start: seq<Lesson>, ghost all: seq<Draft>, ghost done: seq<Draft>)
    returns (ok: bool, wrote: bool, ghost done': seq<Draft>)
    modifies lessons
    requires Shaped(bound, teachers) && x in v && v[x] <= |subjects|
    requires done + DraftAt(subjects, teachers, bound, c, v, x) <= all && DistinctSlots(all)
    requires Drafted(done) && lessons.Valid() && lessons.lessons == start + LessonsOf(done)
    requires forall y <- start :: y.schoolClass != c
    ensures lessons.Valid()
    ensures ok ==> done' == done + DraftAt(subjects, teachers, bound, c, v, x) && Drafted(done')
    ensures ok ==> lessons.lessons == start + LessonsOf(done') && |done'| == |done| + (if wrote then 1 else 0)
    ensures !ok ==> |done| < |all| && all[..|done|] == done && all[|done|].teacher.None? && !Drafted(all)
    ensures !ok ==> lessons.lessons == old(lessons.lessons)
  {
    var step := DecodeCell(subjects, teachers, bound, c, v, x);
    done' := done + step;
    if step == [] {
      assert done' == done;
      return true, false, done';
    }
    var d := step[0];
    assert step == [d];
    DraftInPrefix(all, done');
    ok := WriteDraft(lessons, d, start, all, done);
    wrote := ok;
  }

  /** Decoding cell `i` extends the decode of the cells before it, within the decode of all cells. */
  lemma CellStep(subjects: seq<Subject>, teachers: seq<Teacher>, bound: map<(ClassId, SubjectId), seq<bool>>,
                 c: ClassId, v: map<Cell, nat>, cells: seq<Cell>, i: nat)
    requires Shaped(bound, teachers) && Valued(subjects, cells, v) && i < |cells|
    ensures cells[i] in v && v[cells[i]] <= |subjects|
    ensures Valued(subjects, cells[..i + 1], v)
    ensures DecodeCells(subjects, teachers, bound, c, v, cells[..i + 1]) ==
            DecodeCells(subjects, teachers, bound, c, v, cells[..i]) + DraftAt(subjects, teachers, bound, c, v, cells[i])
    ensures DecodeCells(subjects, teachers, bound, c, v, cells[..i + 1]) <= DecodeCells(subjects, teachers, bound, c, v, cells)
  {
    DecodePrefix(subjects, teachers, bound, c, v, cells, i);
    DecodeMonotone(subjects, teachers, bound, c, v, cells, i + 1, |cells|);
    assert cells[..|cells|] == cells;
  }

  /**
   * `Lesson.objects.create` for one draft: refused (the teacher column is not
   * nullable) when the draft has no teacher, else appended; its slot is free.
   */
  method WriteDraft(lessons: LessonTable, d: Draft, ghost start: seq<Lesson>, ghost all: seq<Draft>, ghost done: seq<Draft>)
    returns (ok: bool)
    modifies lessons
    requires lessons.Valid() && Drafted(done) && lessons.lessons == start + LessonsOf(done)
    requires done + [d] <= all && DistinctSlots(all)
    requires forall x <- start :: x.schoolClass != d.schoolClass
    ensures lessons.Valid()
    ensures ok <==> d.teacher.Some?
    ensures ok ==> Drafted(done + [d]) && lessons.lessons == start + LessonsOf(done + [d])
    ensures !ok ==> lessons.lessons == old(lessons.lessons)
  {
    if d.teacher.None? {
      return false;
    }
    NewDraftIsFree(start, all, done + [d], d.schoolClass);
    assert (done + [d])[..|done|] == done;
    ok := lessons.Create(LessonOfDraft(d));
    LessonsOfSnoc(done, d);
  }

  /** The decode of one cell, with the teacher lookup loop. */
  method DecodeCell(subjects: seq<Subject>, teachers: seq<Teacher>, bound: map<(ClassId, SubjectId), seq<bool>>,
                    c: ClassId, v: map<Cell, nat>, x: Cell) returns (ds: seq<Draft>)
    requires Shaped(bound, teachers) && x in v && v[x] <= |subjects|
    ensures ds == DraftAt(subjects, teachers, bound, c, v, x)
  {
    var value := v[x];
    if value == FakeIndex(subjects) {
      return [];
    }
    var s := subjects[value].id;
    var teacher: Option<TeacherId> := None;
    if (c, s) in bound {
      var first := FirstBound(bound[(c, s)]);
      if first.Some? {
        teacher := Some(Qualified(teachers, s)[first.value].id);
      }
    }
    return [Draft(c, s, teacher, x.day + 1, x.lesson)];
  }

  /** The last draft of a prefix of the decode sits in the decode at the same position. */
  lemma DraftInPrefix(all: seq<Draft>, next: seq<Draft>)
    requires next <= all && |next| > 0
    ensures all[|next| - 1] == next[|next| - 1] && all[..|next| - 1] == next[..|next| - 1]
    ensures next[|next| - 1].teacher.None? ==> !Drafted(all)
  {
    assert all[|next| - 1] in all;
  }

  lemma LessonsOfSnoc(ds: seq<Draft>, d: Draft)
    requires Drafted(ds) && d.teacher.Some?
    ensures Drafted(ds + [d]) && LessonsOf(ds + [d]) == LessonsOf(ds) + [LessonOfDraft(d)]
  {
    assert (ds + [d])[..|ds|] == ds;
  }

  /** The decode of one more cell extends the decode of the cells before it. */
  lemma DecodePrefix(subjects: seq<Subject>, teachers: seq<Teacher>, bound: map<(ClassId, SubjectId), seq<bool>>,
                     c: ClassId, v: map<Cell, nat>, cells: seq<Cell>, i: nat)
    requires Shaped(bound, teachers) && Valued(subjects, cells, v) && i < |cells|
    ensures Valued(subjects, cells[..i + 1], v)
    ensures DecodeCells(subjects, teachers, bound, c, v, cells[..i + 1]) ==
            DecodeCells(subjects, teachers, bound, c, v, cells[..i]) + DraftAt(subjects, teachers, bound, c, v, cells[i])
  {
    assert forall y <- cells[..i + 1] :: y in cells;
    assert cells[..i + 1][..i] == cells[..i];
  }

  /** The decode of the first cells is a prefix of the decode of all of them. */
  lemma {:induction false} DecodeMonotone(subjects: seq<Subject>, teachers: seq<Teacher>, bound: map<(ClassId, SubjectId), seq<bool>>,
                                          c: ClassId, v: map<Cell, nat>, cells: seq<Cell>, i: nat, n: nat)
    requires Shaped(bound, teachers) && Valued(subjects, cells, v) && i <= n <= |cells|
    ensures Valued(subjects, cells[..i], v) && Valued(subjects, cells[..n], v)
    ensures DecodeCells(subjects, teachers, bound, c, v, cells[..i]) <= DecodeCells(subjects, teachers, bound, c, v, cells[..n])
    decreases n - i
  {
    assert forall y <- cells[..i] :: y in cells;
    assert forall y <- cells[..n] :: y in cells;
    if i < n {
      DecodeMonotone(subjects, teachers, bound, c, v, cells, i + 1, n);
      DecodePrefix(subjects, teachers, bound, c, v, cells, i);
    }
  }

  /** The next draft's slot is free: old rows are of other classes, and the drafts before it have other slots. */
  lemma NewDraftIsFree(start: seq<Lesson>, all: seq<Draft>, next: seq<Draft>, c: ClassId)
    requires next <= all && |next| > 0
    requires DistinctSlots(all)
    requires forall x <- start :: x.schoolClass != c
    requires Drafted(next) && next[|next| - 1].schoolClass == c
    ensures Drafted(next[..|next| - 1])
    ensures forall x <- start + LessonsOf(next[..|next| - 1]) :: LessonKey(x) != LessonKey(LessonOfDraft(next[|next| - 1]))
  {
    var k := |next| - 1;
    var done := next[..k];
    assert forall d <- done :: d in next;
    forall x <- start + LessonsOf(done) ensures LessonKey(x) != LessonKey(LessonOfDraft(next[k])) {
      if x !in start {
        var j :| 0 <= j < |LessonsOf(done)| && LessonsOf(done)[j] == x;
        assert x == LessonOfDraft(done[j]);
        assert done[j] == all[j] && next[k] == all[k];
      }
    }
  }

  // ---- the class loop of the decode ----

  /** The drafts of one class. */
  function ClassDrafts(subjects: seq<Subject>, teachers: seq<Teacher>, sol: FiftySolution, cls: SchoolClass): seq<Draft>
    requires Shaped(sol.bound, teachers) && cls.id in sol.value && Valued(subjects, Cells(cls.shift), sol.value[cls.id])
  {
    DecodeCells(subjects, teachers, sol.bound, cls.id, sol.value[cls.id], Cells(cls.shift))
  }

  /** The drafts of each class, in the order of `classes`. */
  function PerClass(subjects: seq<Subject>, teachers: seq<Teacher>, sol: FiftySolution, classes: seq<SchoolClass>): (r: seq<seq<Draft>>)
    requires Shaped(sol.bound, teachers) && AllValued(classes, subjects, sol)
    ensures |r| == |classes|
    ensures forall k | 0 <= k < |classes| :: r[k] == ClassDrafts(subjects, teachers, sol, classes[k])
  {
    seq(|classes|, k requires 0 <= k < |classes| => ClassDrafts(subjects, teachers, sol, classes[k]))
  }

  /** The drafts of all classes, class by class, in the order they are written. */
  function AllDrafts(subjects: seq<Subject>, teachers: seq<Teacher>, sol: FiftySolution, classes: seq<SchoolClass>): seq<Draft>
    requires Shaped(sol.bound, teachers) && AllValued(classes, subjects, sol)
  {
    Flatten(PerClass(subjects, teachers, sol, classes))
  }

  /** `per[k]` holds the drafts of class `k`. */
  predicate DraftsOfClass(subjects: seq<Subject>, teachers: seq<Teacher>, sol: FiftySolution,
                          classes: seq<SchoolClass>, per: seq<seq<Draft>>, k: int)
  {
    && 0 <= k < |classes| && k < |per| && Shaped(sol.bound, teachers)
    && classes[k].id in sol.value && Valued(subjects, Cells(classes[k].shift), sol.value[classes[k].id])
    && per[k] == ClassDrafts(subjects, teachers, sol, classes[k])
  }

  /** The drafts of the first `i` classes belong to those classes. */
  lemma EarlierDraftsClasses(subjects: seq<Subject>, teachers: seq<Teacher>, sol: FiftySolution,
                             classes: seq<SchoolClass>, per: seq<seq<Draft>>, i: nat)
    requires i <= |classes| == |per|
    requires forall k | 0 <= k < |classes| :: DraftsOfClass(subjects, teachers, sol, classes, per, k)
    ensures forall d <- Flatten(per[..i]) :: d.schoolClass in ClassIds(classes[..i])
  {
    forall d: Draft <- Flatten(per[..i]) ensures d.schoolClass in ClassIds(classes[..i]) {
      FlattenMember(per[..i], d);
      var k :| 0 <= k < i && d in per[..i][k];
      assert DraftsOfClass(subjects, teachers, sol, classes, per, k);
      var cls := classes[k];
      DraftOrigin(subjects, teachers, sol.bound, cls.id, sol.value[cls.id], Cells(cls.shift), d);
      assert classes[..i][k] == cls;
    }
  }

  lemma LessonsOfAppend(a: seq<Draft>, b: seq<Draft>)
    requires Drafted(a) && Drafted(b)
    ensures Drafted(a + b) && LessonsOf(a + b) == LessonsOf(a) + LessonsOf(b)
  {
  }

  /** The lessons of the classes still to be written are absent: the old rows are survivors of the reset, the new ones of earlier classes. */
  lemma LaterClassesAbsent(start: seq<Lesson>, ds: seq<Draft>, classes: seq<SchoolClass>, i: nat)
    requires UniqueClasses(classes) && i < |classes| && Drafted(ds)
    requires forall x <- start :: x.schoolClass !in ClassIds(classes)
    requires forall d <- ds :: d.schoolClass in ClassIds(classes[..i])
    ensures forall x <- start + LessonsOf(ds) :: x.schoolClass != classes[i].id
  {
    assert classes[i] in classes;
    forall x <- start + LessonsOf(ds) ensures x.schoolClass != classes[i].id {
      if x !in start {
        var j :| 0 <= j < |ds| && LessonsOf(ds)[j] == x;
        assert ds[j] in ds;
        var cls :| cls in classes[..i] && cls.id == x.schoolClass;
        var k :| 0 <= k < i && classes[..i][k] == cls;
        assert classes[k] == cls;
      }
    }
  }

  /** A class written in full: the lessons so far are those of the drafts so far. */
  lemma SuccessInRun(start: seq<Lesson>, written: seq<Lesson>, done: seq<Draft>, mine: seq<Draft>)
    requires Drafted(done) && Drafted(mine)
    requires written == start + LessonsOf(done) + LessonsOf(mine)
    ensures Drafted(done + mine) && written == start + LessonsOf(done + mine)
  {
    LessonsOfAppend(done, mine);
    AppendAssoc(start, LessonsOf(done), LessonsOf(mine));
  }

  /** After class `i` saved all its drafts, the lessons written are those of the first `i + 1` classes. */
  lemma ClassSavedInRun(start: seq<Lesson>, written: seq<Lesson>, per: seq<seq<Draft>>, i: nat, failedAt: nat)
    requires i < |per| && failedAt == |per[i]|
    requires Drafted(Flatten(per[..i])) && Drafted(per[i][..failedAt])
    requires written == start + LessonsOf(Flatten(per[..i])) + LessonsOf(per[i][..failedAt])
    ensures |Flatten(per[..i + 1])| == |Flatten(per[..i])| + failedAt
    ensures Drafted(Flatten(per[..i + 1])) && written == start + LessonsOf(Flatten(per[..i + 1]))
  {
    assert per[i][..failedAt] == per[i];
    SuccessInRun(start, written, Flatten(per[..i]), per[i]);
    FlattenStep(per, i);
  }

  /** When class `i` stops at draft `failedAt`, the run stops at that draft of the whole decode. */
  lemma ClassFailsInRun(start: seq<Lesson>, written: seq<Lesson>, per: seq<seq<Draft>>, i: nat, failedAt: nat)
    requires i < |per| && failedAt < |per[i]| && per[i][failedAt].teacher.None?
    requires Drafted(Flatten(per[..i])) && Drafted(per[i][..failedAt])
    requires written == start + LessonsOf(Flatten(per[..i])) + LessonsOf(per[i][..failedAt])
    ensures var all, n := Flatten(per), |Flatten(per[..i])| + failedAt;
      && n < |all| && all[n].teacher.None? && Drafted(all[..n])
      && written == start + LessonsOf(all[..n])
  {
    var done := Flatten(per[..i]);
    assert done + per[i] <= Flatten(per) by {
      FlattenStep(per, i);
      FlattenMonotone(per, i + 1, |per|);
      assert per[..|per|] == per;
    }
    FailureInRun(start, written, Flatten(per), done, per[i], failedAt);
  }

  /** Where a class fails inside the whole run: the drafts and lessons before its failing draft. */
  lemma FailureInRun(start: seq<Lesson>, written: seq<Lesson>, all: seq<Draft>, done: seq<Draft>, mine: seq<Draft>, failedAt: nat)
    requires done + mine <= all && failedAt < |mine| && mine[failedAt].teacher.None?
    requires Drafted(done) && Drafted(mine[..failedAt])
    requires written == start + LessonsOf(done) + LessonsOf(mine[..failedAt])
    ensures |done| + failedAt < |all| && all[|done| + failedAt].teacher.None?
    ensures Drafted(all[..|done| + failedAt])
    ensures written == start + LessonsOf(all[..|done| + failedAt])
  {
    PrefixSplit(all, done, mine, failedAt);
    LessonsOfAppend(done, mine[..failedAt]);
    assert LessonsOf(all[..|done| + failedAt]) == LessonsOf(done) + LessonsOf(mine[..failedAt]);
    AppendAssoc(start, LessonsOf(done), LessonsOf(mine[..failedAt]));
  }

  /** `SaveClass` for class `i` of the run, stated over the run's per-class drafts. */
  method SaveNextClass(lessons: LessonTable, subjects: seq<Subject>, teachers: seq<Teacher>, classes: seq<SchoolClass>,
                       sol: FiftySolution, i: nat, ghost per: seq<seq<Draft>>)
    returns (ok: bool, failedAt: nat)
    modifies lessons
    requires lessons.Valid() && i < |classes| == |per|
    requires forall k | 0 <= k < |classes| :: DraftsOfClass(subjects, teachers, sol, classes, per, k)
    requires forall x <- lessons.lessons :: x.schoolClass != classes[i].id
    ensures lessons.Valid()
    ensures failedAt <= |per[i]| && Drafted(per[i][..failedAt])
    ensures lessons.lessons == old(lessons.lessons) + LessonsOf(per[i][..failedAt])
    ensures ok <==> Drafted(per[i])
    ensures ok ==> failedAt == |per[i]|
    ensures !ok ==> failedAt < |per[i]| && per[i][failedAt].teacher.None?
  {
    assert DraftsOfClass(subjects, teachers, sol, classes, per, i);
    var cls := classes[i];
    ok, failedAt := SaveClass(lessons, subjects, teachers, sol.bound, cls, sol.value[cls.id]);
  }

  /**
   * The decode loop over all classes: each class's cells in turn, stopping
   * at the first draft without a teacher.
   */
  method SaveAll(lessons: LessonTable, subjects: seq<Subject>, teachers: seq<Teacher>, classes: seq<SchoolClass>,
                 sol: FiftySolution, ghost per: seq<seq<Draft>>)
    returns (result: FiftyOutcome)
    modifies lessons
    requires lessons.Valid() && UniqueClasses(classes) && |per| == |classes|
    requires forall k | 0 <= k < |classes| :: DraftsOfClass(subjects, teachers, sol, classes, per, k)
    requires forall x <- lessons.lessons :: x.schoolClass !in ClassIds(classes)
    ensures lessons.Valid() && !result.FiftyNoSolution?
    ensures var ds := Flatten(per);
      && (result.FiftyGenerated? <==> Drafted(ds))
      && (result.FiftyGenerated? ==> lessons.lessons == old(lessons.lessons) + LessonsOf(ds))
      && (result.FiftyMissingTeacher? ==>
            && result.saved < |ds| && ds[result.saved].teacher.None? && Drafted(ds[..result.saved])
            && lessons.lessons == old(lessons.lessons) + LessonsOf(ds[..result.saved]))
  {
    ghost var start := lessons.lessons;
    ghost var done: seq<Draft> := [];
    assert per[..0] == [];
    var i, saved := 0, 0;
    while i < |classes|
      invariant 0 <= i <= |classes|
      invariant done == Flatten(per[..i])
      invariant saved == |done| && Drafted(done)
      invariant lessons.Valid()
      invariant lessons.lessons == start + LessonsOf(done)
    {
      assert forall x <- lessons.lessons :: x.schoolClass != classes[i].id by {
        EarlierDraftsClasses(subjects, teachers, sol, classes, per, i);
        LaterClassesAbsent(start, done, classes, i);
      }
      var ok, failedAt := SaveNextClass(lessons, subjects, teachers, classes, sol, i, per);
      if !ok {
        ClassFailsInRun(start, lessons.lessons, per, i, failedAt);
        return FiftyMissingTeacher(saved + failedAt);
      }
      ClassSavedInRun(start, lessons.lessons, per, i, failedAt);
      done := Flatten(per[..i + 1]);
      saved := saved + failedAt;
      i := i + 1;
    }
    assert per[..i] == per;
    return FiftyGenerated;
  }

  /**
   * `generate_schedule()` of the variant: reset every class, raise without
   * an accepted solution, else decode and write. The hours rows of the run's
   * classes are rebuilt in every outcome, and without a solution the run's
   * lessons are gone.
   */
  method GenerateFifty(hours: SubjectHoursTable, lessons: LessonTable, classes: seq<SchoolClass>, subjects: seq<Subject>,
                       teachers: seq<Teacher>, entries: seq<StudyPlanEntry>, sol: FiftySolution)
    returns (result: FiftyOutcome)
    modifies hours, lessons
    requires hours.Valid() && lessons.Valid() && UniquePlanEntries(entries) && UniqueClasses(classes)
    requires FiftyContract(classes, subjects, teachers, entries, sol)
    ensures hours.Valid() && lessons.Valid()
    ensures hours.rows == RebuiltRows(old(hours.rows), classes, entries)
    ensures forall k | 0 <= k < |classes| :: ClassRows(hours.rows, classes[k].id) == PlanRowsOf(classes[k], entries)
    ensures result.FiftyNoSolution? <==> !Accepted(sol.status)
    ensures !Accepted(sol.status) ==> lessons.lessons == Survivors(old(lessons.lessons), classes)
    ensures Accepted(sol.status) ==>
      && Shaped(sol.bound, teachers) && AllValued(classes, subjects, sol)
      && var ds := AllDrafts(subjects, teachers, sol, classes);
         && (result.FiftyGenerated? <==> Drafted(ds))
         && (result.FiftyGenerated? ==> lessons.lessons == Survivors(old(lessons.lessons), classes) + LessonsOf(ds))
         && (result.FiftyMissingTeacher? ==>
               && result.saved < |ds| && ds[result.saved].teacher.None? && Drafted(ds[..result.saved])
               && lessons.lessons == Survivors(old(lessons.lessons), classes) + LessonsOf(ds[..result.saved]))
  {
    ResetClasses(hours, lessons, classes, entries);
    forall k | 0 <= k < |classes| ensures ClassRows(hours.rows, classes[k].id) == PlanRowsOf(classes[k], entries) {
      RebuiltRowsOfClass(old(hours.rows), classes, entries, k);
    }
    if !Accepted(sol.status) {
      return FiftyNoSolution(sol.status);
    }
    ContractValued(classes, subjects, teachers, entries, sol);
    SurvivorsMembers(old(lessons.lessons), classes);
    ghost var per := PerClass(subjects, teachers, sol, classes);
    forall k | 0 <= k < |classes| ensures DraftsOfClass(subjects, teachers, sol, classes, per, k) {
      assert classes[k] in classes;
    }
    result := SaveAll(lessons, subjects, teachers, classes, sol, per);
  }
}
