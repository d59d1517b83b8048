/**
 * The `vrodeNorm` command variant: the same validator and the same `y`
 * variables, but no `z` binding, no per-day subject rule and no balancing
 * objective. Its constraints are a subset of the wired-in model's, so one
 * class-subject pair may be taught by several teachers.
 */
module VrodeNorm {
  import opened Common
  import opened Calendar
  import opened Models
  import opened Validator
  import opened Constraints
  import opened ModelBuilder
  import opened Tables
  import opened Scheduler

  /** Exact hours, one lesson per class slot, per-shift teacher slots, weekly cap and no gaps. */
  ghost predicate VrodeConstraints(snap: Snapshot, y: set<YKey>)
  {
    && y <= YUniverse(snap)
    && ExactHours(snap, y)
    && OneLessonPerClassSlot(snap, y)
    && OneLessonPerTeacherSlot(snap, y)
    && TeacherWeeklyCap(snap, y)
    && NoGaps(snap, y)
  }

  ghost predicate VrodeSolverContract(snap: Snapshot, sol: Solution)
  {
    Accepted(sol.status) ==> VrodeConstraints(snap, sol.y)
  }

  /** Every assignment the wired-in model accepts is accepted here as well. */
  lemma WiredModelIsStricter(snap: Snapshot, y: set<YKey>, z: set<ZKey>)
    requires HardConstraints(snap, y, z)
    ensures VrodeConstraints(snap, y)
  {
  }

  lemma TwoMembers<T>(x: T, y: T, b: set<T>)
    requires x != y && x in b && y in b
    ensures |b| >= 2
  {
    var rest := b - {x};
    assert y in rest;
    assert |rest| == |b| - 1;
  }

  /** Two true keys of one pair with different teachers cannot satisfy the wired-in binding constraints. */
  lemma SplitPairViolatesBinding(snap: Snapshot, y: set<YKey>, z: set<ZKey>, k1: YKey, k2: YKey, r: SubjectHours)
    requires k1 in y && k2 in y && r in snap.hours
    requires k1.c == k2.c == r.schoolClass && k1.s == k2.s == r.subject && k1.t != k2.t
    ensures !(YBoundByZ(y, z) && OneTeacherPerClassSubject(snap, z))
  {
    if YBoundByZ(y, z) {
      TwoMembers(ZKey(k1.c, k1.s, k1.t), ZKey(k2.c, k2.s, k2.t), BoundTeachers(z, r.schoolClass, r.subject));
    }
  }

  /** One class, a two-hour subject, two qualified teachers. */
  function SplitSnapshot(): Snapshot
  {
    Snapshot([SchoolClass(1, 5, "A", First, None)], [SubjectHours(1, 7, 2)],
             [Teacher(3, {7}, map[]), Teacher(4, {7}, map[])], [])
  }

  /** One lesson of the subject with each teacher, both in the first slot of their day. */
  function SplitKeys(): set<YKey>
  {
    {YKey(1, 7, 3, 1, 1), YKey(1, 7, 4, 2, 1)}
  }

  /** A key built from a class, one of its hours rows, a qualified teacher, a weekday and a shift slot is created. */
  lemma KeyInUniverse(snap: Snapshot, cls: SchoolClass, r: SubjectHours, t: Teacher, d: int, l: int)
    requires cls in snap.classes && r in snap.hours && t in snap.teachers
    requires r.schoolClass == cls.id && r.subject in t.subjects && d in Weekdays && l in SlotsOf(cls.shift)
    ensures YKey(cls.id, r.subject, t.id, d, l) in YUniverse(snap)
  {
  }

  /** Both witness keys are created by the variable loops. */
  lemma SplitKeysCreated()
    ensures SplitKeys() <= YUniverse(SplitSnapshot())
  {
    var snap := SplitSnapshot();
    assert 1 in Weekdays && 2 in Weekdays && 1 in SlotsOf(First) by {
      SlotFacts(First, 1);
      assert Weekdays[0] == 1 && Weekdays[1] == 2;
    }
    KeyInUniverse(snap, snap.classes[0], snap.hours[0], snap.teachers[0], 1, 1);
    KeyInUniverse(snap, snap.classes[0], snap.hours[0], snap.teachers[1], 2, 1);
  }

  /** The two witness keys are the two weekly hours of the one hours row. */
  lemma SplitKeysExactHours()
    ensures ExactHours(SplitSnapshot(), SplitKeys())
  {
    assert ClassSubjectLessons(SplitKeys(), 1, 7) == SplitKeys();
  }

  lemma SplitWithinUniverse()
    ensures SplitKeys() <= YUniverse(SplitSnapshot())
    ensures ExactHours(SplitSnapshot(), SplitKeys())
  {
    SplitKeysCreated();
    SplitKeysExactHours();
  }

  lemma SplitSlotsFree()
    ensures OneLessonPerClassSlot(SplitSnapshot(), SplitKeys())
    ensures NoGaps(SplitSnapshot(), SplitKeys())
  {
    var snap, y := SplitSnapshot(), SplitKeys();
    var k1, k2 := YKey(1, 7, 3, 1, 1), YKey(1, 7, 4, 2, 1);
    forall c <- snap.classes, d <- Weekdays, l <- SlotsOf(c.shift)
      ensures CountSlot(y, c.id, d, l) <= 1
    {
      var S := set k | k in y && k.c == c.id && k.d == d && k.l == l;
      assert S == {} || S == {k1} || S == {k2};
    }
    forall c <- snap.classes, d <- Weekdays, i | 1 <= i < |SlotsOf(c.shift)|
      ensures CountSlot(y, c.id, d, SlotsOf(c.shift)[i]) <= CountSlot(y, c.id, d, SlotsOf(c.shift)[i - 1])
    {
      assert (set k | k in y && k.c == c.id && k.d == d && k.l == SlotsOf(c.shift)[i]) == {};
    }
  }

  lemma SplitTeachersFree()
    ensures OneLessonPerTeacherSlot(SplitSnapshot(), SplitKeys())
    ensures TeacherWeeklyCap(SplitSnapshot(), SplitKeys())
  {
    var snap, y := SplitSnapshot(), SplitKeys();
    var k1, k2 := YKey(1, 7, 3, 1, 1), YKey(1, 7, 4, 2, 1);
    forall t <- snap.teachers, sh: Shift, d <- Weekdays, l <- SlotsOf(sh)
      ensures CountTeacherSlot(y, t.id, ClassIdsOfShift(snap.classes, sh), d, l) <= 1
    {
      var S := set k | k in y && k.t == t.id && k.c in ClassIdsOfShift(snap.classes, sh) && k.d == d && k.l == l;
      if t.id == 3 {
        assert S == {} || S == {k1};
      } else {
        assert S == {} || S == {k2};
      }
    }
    forall t <- snap.teachers ensures CountTeacher(y, t.id) <= Capacity(t) {
      var S := set k | k in y && k.t == t.id;
      assert S == {k1} || S == {k2};
    }
  }

  /**
   * The concrete split is accepted by the variant, and no `z` makes it
   * acceptable to the wired-in model.
   */
  lemma VrodeAllowsSplitTeachers()
    ensures VrodeConstraints(SplitSnapshot(), SplitKeys())
    ensures forall z :: !HardConstraints(SplitSnapshot(), SplitKeys(), z)
  {
    SplitWithinUniverse();
    SplitSlotsFree();
    SplitTeachersFree();
    forall z ensures !HardConstraints(SplitSnapshot(), SplitKeys(), z) {
      SplitPairViolatesBinding(SplitSnapshot(), SplitKeys(), z, YKey(1, 7, 3, 1, 1), YKey(1, 7, 4, 2, 1), SubjectHours(1, 7, 2));
    }
  }

  /**
   * `Command.handle` of the variant: clear, validate, build `y`, solve, save.
   * Failures return after the clear, as in the wired-in command; the
   * `TypeError` of a non-number capacity propagates out of `handle`.
   */
  method Handle(table: LessonTable, snap: Snapshot, sol: Solution) returns (result: RunResult)
    modifies table
    requires table.Valid() && VrodeSolverContract(snap, sol)
    ensures table.Valid()
    ensures result == Outcome(snap, sol)
    ensures Rows(table.lessons) == LessonsAfterAsWritten(Rows(old(table.lessons)), snap, sol)
    ensures |table.lessons| == if result.Generated? then result.created else 0
  {
    var deleted := table.DeleteAll();
    // the variant creates the y variables only; the z half of the builder is unused
    var failure, y, _ := ValidateAndBuild(snap);
    if failure.Some? {
      return failure.value;
    }
    if !Accepted(sol.status) {
      return NoSolution(sol.status);
    }
    ClassSlotKeyUnique(snap, sol.y);
    var ok := table.SaveAtomic(sol.y, FirstRoom(snap.rooms));
    assert ok;
    return Generated(|sol.y|);
  }
}
