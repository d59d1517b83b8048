/**
 * The `Lesson` table as the generators use it: bulk delete, `create` that
 * fails on the (class, weekday, lesson number) unique key, and the atomic
 * save of a solver assignment (`transaction.atomic()` around the creates, so
 * a failed create rolls every create of the block back).
 */
module Tables {
  import opened Common
  import opened Models
  import opened Constraints

  /** The row `Lesson.objects.create` writes for a true `y` key. */
  function LessonOf(k: YKey, room: Option<RoomId>): Lesson
  {
    Lesson(k.c, k.s, k.t, k.d, k.l, room)
  }

  function LessonImage(keys: set<YKey>, room: Option<RoomId>): set<Lesson>
  {
    set k <- keys :: LessonOf(k, room)
  }

  function Rows(ls: seq<Lesson>): set<Lesson>
  {
    set x <- ls
  }

  /** No two keys name the same (class, weekday, slot). */
  ghost predicate SlotKeyInjective(keys: set<YKey>)
  {
    forall a <- keys, b <- keys | a.c == b.c && a.d == b.d && a.l == b.l :: a == b
  }

  /** No existing row occupies a (class, weekday, slot) any key names. */
  ghost predicate FreeOf(ls: seq<Lesson>, keys: set<YKey>)
  {
    forall x <- ls, k <- keys :: LessonKey(x) != (k.c, k.d, k.l)
  }

  class LessonTable {
    var lessons: seq<Lesson>

    /** The table's unique key holds. */
    ghost predicate Valid()
      reads this
    {
      UniqueLessons(lessons)
    }

    constructor ()
      ensures lessons == [] && Valid()
    {
      lessons := [];
    }

    /** `Lesson.objects.all().delete()`, returning the number of rows deleted. */
    method DeleteAll() returns (deleted: nat)
      modifies this
      ensures lessons == [] && Valid()
      ensures deleted == |old(lessons)|
    {
      deleted := |lessons|;
      lessons := [];
    }

    /** `Lesson.objects.filter(school_class=c).delete()`. */
    method DeleteForClass(c: ClassId)
      modifies this
      requires Valid()
      ensures Valid()
      ensures lessons == OtherClassLessons(old(lessons), c)
    {
      var kept: seq<Lesson> := [];
      var i := 0;
      while i < |lessons|
        invariant 0 <= i <= |lessons|
        invariant kept == OtherClassLessons(lessons[..i], c)
      {
        assert lessons[..i + 1][..i] == lessons[..i];
        if lessons[i].schoolClass != c {
          kept := kept + [lessons[i]];
        }
        i := i + 1;
      }
      assert lessons[..i] == lessons;
      UniqueOtherClassLessons(lessons, c);
      lessons := kept;
    }

    /** `Lesson.objects.create(...)`: fails, changing nothing, when the unique key is taken. */
    method Create(l: Lesson) returns (ok: bool)
      modifies this
      requires Valid()
      ensures Valid()
      ensures ok <==> forall x <- old(lessons) :: LessonKey(x) != LessonKey(l)
      ensures ok ==> lessons == old(lessons) + [l]
      ensures !ok ==> lessons == old(lessons)
    {
      var i := 0;
      while i < |lessons|
        invariant 0 <= i <= |lessons|
        invariant forall j | 0 <= j < i :: LessonKey(lessons[j]) != LessonKey(l)
      {
        if LessonKey(lessons[i]) == LessonKey(l) {
          return false;
        }
        i := i + 1;
      }
      lessons := lessons + [l];
      return true;
    }

    /**
     * The save block: one create per true key, inside one transaction. The
     * keys are taken in an unspecified order. The block succeeds exactly when
     * the new rows' slots are distinct and free; on failure the table is
     * restored as it was before the block.
     */
    method SaveAtomic(trueKeys: set<YKey>, room: Option<RoomId>) returns (ok: bool)
      modifies this
      requires Valid()
      ensures Valid()
      ensures ok <==> SlotKeyInjective(trueKeys) && FreeOf(old(lessons), trueKeys)
      ensures ok ==> Rows(lessons) == Rows(old(lessons)) + LessonImage(trueKeys, room)
      ensures ok ==> |lessons| == |old(lessons)| + |trueKeys|
      ensures !ok ==> lessons == old(lessons)
    {
      var saved := lessons;
      var rest := trueKeys;
      ghost var done: set<YKey> := {};
      while rest != {}
        invariant Valid()
        invariant rest + done == trueKeys && rest !! done
        invariant SlotKeyInjective(done) && FreeOf(saved, done)
        invariant |lessons| == |saved| + |done|
        invariant Rows(lessons) == Rows(saved) + LessonImage(done, room)
        decreases |rest|
      {
        var k :| k in rest;
        ghost var before := lessons;
        var created := Create(LessonOf(k, room));
        if !created {
          ghost var x :| x in before && LessonKey(x) == LessonKey(LessonOf(k, room));
          ConflictBreaksSave(saved, done, room, x, k, trueKeys);
          lessons := saved;
          return false;
        }
        NewKeyKeepsInvariant(saved, done, room, before, k);
        rest := rest - {k};
        done := done + {k};
      }
      assert done == trueKeys;
      return true;
    }
  }

  /** The lessons of other classes, in table order. */
  function OtherClassLessons(ls: seq<Lesson>, c: ClassId): (r: seq<Lesson>)
    ensures forall x <- r :: x in ls && x.schoolClass != c
    ensures forall x <- ls :: x.schoolClass != c ==> x in r
  {
    if ls == [] then []
    else OtherClassLessons(ls[..|ls| - 1], c) + (if ls[|ls| - 1].schoolClass != c then [ls[|ls| - 1]] else [])
  }

  lemma {:induction false} UniqueOtherClassLessons(ls: seq<Lesson>, c: ClassId)
    requires UniqueLessons(ls)
    ensures UniqueLessons(OtherClassLessons(ls, c))
  {
    if ls != [] {
      var pre, last := ls[..|ls| - 1], ls[|ls| - 1];
      assert UniqueLessons(pre) by {
        forall i, j | 0 <= i < |pre| && 0 <= j < |pre| && i != j
          ensures LessonKey(pre[i]) != LessonKey(pre[j])
        {
          assert pre[i] == ls[i] && pre[j] == ls[j];
        }
      }
      UniqueOtherClassLessons(pre, c);
      forall x <- OtherClassLessons(pre, c) ensures LessonKey(x) != LessonKey(last) {
        var i :| 0 <= i < |pre| && pre[i] == x;
        assert ls[i] == x;
      }
    }
  }

  /** A failed create means some key's slot is occupied either by an old row or by another true key. */
  lemma ConflictBreaksSave(saved: seq<Lesson>, done: set<YKey>, room: Option<RoomId>, x: Lesson, k: YKey, keys: set<YKey>)
    requires k in keys && done <= keys && k !in done
    requires x in Rows(saved) + LessonImage(done, room)
    requires LessonKey(x) == (k.c, k.d, k.l)
    ensures !(SlotKeyInjective(keys) && FreeOf(saved, keys))
  {
    if x in Rows(saved) {
      assert !FreeOf(saved, keys);
    } else {
      var k' :| k' in done && x == LessonOf(k', room);
      assert k' != k;
      assert !SlotKeyInjective(keys);
    }
  }

  /** A successful create of a new key extends the invariants of the save loop by that key. */
  lemma NewKeyKeepsInvariant(saved: seq<Lesson>, done: set<YKey>, room: Option<RoomId>, before: seq<Lesson>, k: YKey)
    requires Rows(before) == Rows(saved) + LessonImage(done, room)
    requires SlotKeyInjective(done) && FreeOf(saved, done) && k !in done
    requires forall x <- before :: LessonKey(x) != LessonKey(LessonOf(k, room))
    ensures SlotKeyInjective(done + {k}) && FreeOf(saved, done + {k})
    ensures Rows(before + [LessonOf(k, room)]) == Rows(saved) + LessonImage(done + {k}, room)
  {
    forall x <- saved ensures LessonKey(x) != (k.c, k.d, k.l) {
      assert x in Rows(before);
    }
    forall a <- done ensures (a.c, a.d, a.l) != (k.c, k.d, k.l) {
      assert LessonOf(a, room) in Rows(before);
    }
    assert Rows(before + [LessonOf(k, room)]) == Rows(before) + {LessonOf(k, room)};
  }

  // ---- SubjectHours ----

  /** The rows of other classes, in table order. */
  function OtherClassRows(rows: seq<SubjectHours>, c: ClassId): (r: seq<SubjectHours>)
    ensures forall x <- r :: x in rows && x.schoolClass != c
    ensures forall x <- rows :: x.schoolClass != c ==> x in r
  {
    if rows == [] then []
    else OtherClassRows(rows[..|rows| - 1], c) + (if rows[|rows| - 1].schoolClass != c then [rows[|rows| - 1]] else [])
  }

  /** The rows of class `c`, in table order. */
  function ClassRows(rows: seq<SubjectHours>, c: ClassId): (r: seq<SubjectHours>)
    ensures forall x <- r :: x in rows && x.schoolClass == c
    ensures forall x <- rows :: x.schoolClass == c ==> x in r
  {
    if rows == [] then []
    else ClassRows(rows[..|rows| - 1], c) + (if rows[|rows| - 1].schoolClass == c then [rows[|rows| - 1]] else [])
  }

  /** `study_plan.entries.all()`: the entries of plan `p`, in table order. */
  function PlanEntries(entries: seq<StudyPlanEntry>, p: PlanId): (r: seq<StudyPlanEntry>)
    ensures forall e <- r :: e in entries && e.plan == p
    ensures forall e <- entries :: e.plan == p ==> e in r
  {
    if entries == [] then []
    else PlanEntries(entries[..|entries| - 1], p) + (if entries[|entries| - 1].plan == p then [entries[|entries| - 1]] else [])
  }

  /** The SubjectHours rows a plan's entries become for class `c`: same subject, same hours. */
  function PlanRows(c: ClassId, entries: seq<StudyPlanEntry>): (r: seq<SubjectHours>)
    ensures |r| == |entries|
    ensures forall i | 0 <= i < |entries| :: r[i] == SubjectHours(c, entries[i].subject, entries[i].hoursPerWeek)
  {
    if entries == [] then []
    else PlanRows(c, entries[..|entries| - 1]) + [SubjectHours(c, entries[|entries| - 1].subject, entries[|entries| - 1].hoursPerWeek)]
  }

  predicate DistinctSubjects(entries: seq<StudyPlanEntry>)
  {
    forall i, j | 0 <= i < |entries| && 0 <= j < |entries| && i != j :: entries[i].subject != entries[j].subject
  }

  /** The (plan, subject) key makes the subjects of one plan's entries distinct. */
  lemma {:induction false} PlanEntriesDistinctSubjects(entries: seq<StudyPlanEntry>, p: PlanId)
    requires UniquePlanEntries(entries)
    ensures DistinctSubjects(PlanEntries(entries, p))
  {
    if entries != [] {
      var pre := entries[..|entries| - 1];
      var last := entries[|entries| - 1];
      assert UniquePlanEntries(pre) by {
        forall i, j | 0 <= i < |pre| && 0 <= j < |pre| && i != j
          ensures pre[i].id != pre[j].id && (pre[i].plan, pre[i].subject) != (pre[j].plan, pre[j].subject)
        {
          assert pre[i] == entries[i] && pre[j] == entries[j];
        }
      }
      PlanEntriesDistinctSubjects(pre, p);
      if last.plan == p {
        forall e <- PlanEntries(pre, p) ensures e.subject != last.subject {
          var i :| 0 <= i < |pre| && pre[i] == e;
          assert entries[i] == e;
        }
      }
    }
  }

  lemma {:induction false} ClassRowsSplit(a: seq<SubjectHours>, b: seq<SubjectHours>, c: ClassId)
    ensures ClassRows(a + b, c) == ClassRows(a, c) + ClassRows(b, c)
    decreases |b|
  {
    if b == [] {
      assert a + b == a;
    } else {
      var pre, last := b[..|b| - 1], b[|b| - 1];
      var tail := if last.schoolClass == c then [last] else [];
      assert (a + b)[..|a + b| - 1] == a + pre;
      assert (a + b)[|a + b| - 1] == last;
      assert ClassRows(a + b, c) == ClassRows(a + pre, c) + tail;
      assert ClassRows(b, c) == ClassRows(pre, c) + tail;
      ClassRowsSplit(a, pre, c);
    }
  }

  lemma {:induction false} OtherClassRowsSplit(a: seq<SubjectHours>, b: seq<SubjectHours>, c: ClassId)
    ensures OtherClassRows(a + b, c) == OtherClassRows(a, c) + OtherClassRows(b, c)
    decreases |b|
  {
    if b == [] {
      assert a + b == a;
    } else {
      var pre, last := b[..|b| - 1], b[|b| - 1];
      var tail := if last.schoolClass != c then [last] else [];
      assert (a + b)[..|a + b| - 1] == a + pre;
      assert (a + b)[|a + b| - 1] == last;
      assert OtherClassRows(a + b, c) == OtherClassRows(a + pre, c) + tail;
      assert OtherClassRows(b, c) == OtherClassRows(pre, c) + tail;
      OtherClassRowsSplit(a, pre, c);
    }
  }

  lemma {:induction false} PlanRowsOfClass(c: ClassId, entries: seq<StudyPlanEntry>)
    ensures ClassRows(PlanRows(c, entries), c) == PlanRows(c, entries)
    ensures OtherClassRows(PlanRows(c, entries), c) == []
  {
    if entries != [] {
      var pre := entries[..|entries| - 1];
      var last := SubjectHours(c, entries[|entries| - 1].subject, entries[|entries| - 1].hoursPerWeek);
      PlanRowsOfClass(c, pre);
      ClassRowsSplit(PlanRows(c, pre), [last], c);
      OtherClassRowsSplit(PlanRows(c, pre), [last], c);
      assert PlanRows(c, entries) == PlanRows(c, pre) + [last];
      assert ClassRows([last], c) == [last] by {
        assert [last][..0] == [];
      }
      assert OtherClassRows([last], c) == [] by {
        assert [last][..0] == [];
      }
    }
  }

  lemma {:induction false} OtherClassRowsHaveNoClassRows(rows: seq<SubjectHours>, c: ClassId)
    ensures ClassRows(OtherClassRows(rows, c), c) == []
    ensures OtherClassRows(OtherClassRows(rows, c), c) == OtherClassRows(rows, c)
  {
    if rows != [] {
      var pre, last := rows[..|rows| - 1], rows[|rows| - 1];
      OtherClassRowsHaveNoClassRows(pre, c);
      if last.schoolClass != c {
        var kept := OtherClassRows(pre, c);
        assert OtherClassRows(rows, c) == kept + [last];
        ClassRowsSplit(kept, [last], c);
        OtherClassRowsSplit(kept, [last], c);
        assert [last][..0] == [];
        assert ClassRows([last], c) == [];
        assert OtherClassRows([last], c) == [last];
      } else {
        assert OtherClassRows(rows, c) == OtherClassRows(pre, c);
      }
    }
  }

  /**
   * After the hours of class `c` are rebuilt from a plan, the class's rows
   * are exactly the plan's (subject, hours) pairs, in entry order, and the
   * rows of every other class are as they were.
   */
  lemma RebuiltHours(rows: seq<SubjectHours>, c: ClassId, entries: seq<StudyPlanEntry>)
    ensures ClassRows(OtherClassRows(rows, c) + PlanRows(c, entries), c) == PlanRows(c, entries)
    ensures OtherClassRows(OtherClassRows(rows, c) + PlanRows(c, entries), c) == OtherClassRows(rows, c)
  {
    ClassRowsSplit(OtherClassRows(rows, c), PlanRows(c, entries), c);
    OtherClassRowsSplit(OtherClassRows(rows, c), PlanRows(c, entries), c);
    OtherClassRowsHaveNoClassRows(rows, c);
    PlanRowsOfClass(c, entries);
  }

  class SubjectHoursTable {
    var rows: seq<SubjectHours>

    ghost predicate Valid()
      reads this
    {
      UniqueSubjectHours(rows)
    }

    constructor ()
      ensures rows == [] && Valid()
    {
      rows := [];
    }

    /** `SubjectHours.objects.filter(school_class=c).delete()`. */
    method DeleteForClass(c: ClassId)
      modifies this
      requires Valid()
      ensures Valid()
      ensures rows == OtherClassRows(old(rows), c)
    {
      var kept: seq<SubjectHours> := [];
      var i := 0;
      while i < |rows|
        invariant 0 <= i <= |rows|
        invariant kept == OtherClassRows(rows[..i], c)
      {
        assert rows[..i + 1][..i] == rows[..i];
        if rows[i].schoolClass != c {
          kept := kept + [rows[i]];
        }
        i := i + 1;
      }
      assert rows[..i] == rows;
      UniqueSubsequence(rows, c);
      rows := kept;
    }

    /**
     * The copy loop: one `SubjectHours.objects.create` per plan entry, after
     * the class's old rows were deleted. The entries of one plan have
     * distinct subjects, so no create hits the (class, subject) key.
     */
    method CopyPlan(c: ClassId, entries: seq<StudyPlanEntry>)
      modifies this
      requires Valid() && DistinctSubjects(entries)
      requires forall x <- rows :: x.schoolClass != c
      ensures Valid()
      ensures rows == old(rows) + PlanRows(c, entries)
    {
      var i := 0;
      ghost var start := rows;
      while i < |entries|
        invariant 0 <= i <= |entries|
        invariant rows == start + PlanRows(c, entries[..i])
        invariant Valid()
      {
        var row := SubjectHours(c, entries[i].subject, entries[i].hoursPerWeek);
        forall j, k | 0 <= j < |rows + [row]| && 0 <= k < |rows + [row]| && j != k
          ensures ((rows + [row])[j].schoolClass, (rows + [row])[j].subject) != ((rows + [row])[k].schoolClass, (rows + [row])[k].subject)
        {
          if k == |rows| && j >= |start| {
            assert rows[j] == PlanRows(c, entries[..i])[j - |start|];
            assert entries[..i][j - |start|] == entries[j - |start|];
          } else if j == |rows| && k >= |start| {
            assert rows[k] == PlanRows(c, entries[..i])[k - |start|];
            assert entries[..i][k - |start|] == entries[k - |start|];
          } else if k == |rows| {
            assert rows[j] in start;
          } else if j == |rows| {
            assert rows[k] in start;
          }
        }
        rows := rows + [row];
        assert entries[..i + 1][..i] == entries[..i];
        i := i + 1;
      }
      assert entries[..i] == entries;
    }
  }

  lemma {:induction false} UniqueSubsequence(rows: seq<SubjectHours>, c: ClassId)
    requires UniqueSubjectHours(rows)
    ensures UniqueSubjectHours(OtherClassRows(rows, c))
  {
    if rows != [] {
      var pre := rows[..|rows| - 1];
      var last := rows[|rows| - 1];
      assert UniqueSubjectHours(pre) by {
        forall i, j | 0 <= i < |pre| && 0 <= j < |pre| && i != j
          ensures (pre[i].schoolClass, pre[i].subject) != (pre[j].schoolClass, pre[j].subject)
        {
          assert pre[i] == rows[i] && pre[j] == rows[j];
        }
      }
      UniqueSubsequence(pre, c);
      forall x <- OtherClassRows(pre, c) ensures (x.schoolClass, x.subject) != (last.schoolClass, last.subject) {
        var i :| 0 <= i < |pre| && pre[i] == x;
        assert rows[i] == x;
      }
    }
  }
}
