/**
 * `generate_schedule()`: clear the lesson table, validate, build the model,
 * solve, save. The CP-SAT search is not modelled; its answer is a parameter
 * `sol`, and the only thing required of it is `SolverContract`: an accepted
 * status comes with an assignment satisfying every constraint of the model.
 */
module Scheduler {
  import opened Common
  import opened Calendar
  import opened Models
  import opened Validator
  import opened Constraints
  import opened ModelBuilder
  import opened Tables

  datatype SolverStatus = Unknown | ModelInvalid | Feasible | Infeasible | Optimal

  /** A solver answer: its status and the true y/z keys and the Lmax/Lmin values of the assignment. */
  datatype Solution = Solution(status: SolverStatus, y: set<YKey>, z: set<ZKey>,
                               lmax: map<ClassId, int>, lmin: map<ClassId, int>)

  /** `status in (OPTIMAL, FEASIBLE)`. */
  predicate Accepted(st: SolverStatus)
  {
    st == Optimal || st == Feasible
  }

  ghost predicate SolverContract(snap: Snapshot, sol: Solution)
  {
    Accepted(sol.status) ==> HardConstraints(snap, sol.y, sol.z) && Balanced(snap, sol.y, sol.lmax, sol.lmin)
  }

  /** `rooms[0] if rooms else None`: every lesson gets the first room. */
  function FirstRoom(rooms: seq<Room>): (r: Option<RoomId>)
    ensures r.Some? <==> |rooms| > 0
    ensures r.Some? ==> r.value == rooms[0].id
  {
    if |rooms| > 0 then Some(rooms[0].id) else None
  }

  /**
   * How a run ends: lessons saved, `Data validation failed`, `No solution
   * found`, or a `TypeError` from a non-number `max_hours_per_week`, raised by
   * the validator's capacity sum or by the weekly-load constraint.
   */
  datatype RunResult =
    | Generated(created: nat)
    | ValidationFailed(violations: seq<Violation>)
    | NoSolution(status: SolverStatus)
    | CapacitySumFailed
    | WeeklyLoadFailed

  /** The lessons a successful run saves. */
  function Timetable(snap: Snapshot, sol: Solution): set<Lesson>
  {
    LessonImage(sol.y, FirstRoom(snap.rooms))
  }

  /** How a run ends before the solver: the validator (its sums may raise), then model building (the weekly loads may raise). */
  function PreSolveFailure(snap: Snapshot): Option<RunResult>
  {
    if CapacitySumRaises(snap.hours, snap.teachers) then Some(CapacitySumFailed)
    else if Violations(snap) != [] then Some(ValidationFailed(Violations(snap)))
    else if !CapacitiesAreNumbers(snap.teachers) then Some(WeeklyLoadFailed)
    else None
  }

  function Outcome(snap: Snapshot, sol: Solution): RunResult
  {
    if PreSolveFailure(snap).Some? then PreSolveFailure(snap).value
    else if !Accepted(sol.status) then NoSolution(sol.status)
    else Generated(|sol.y|)
  }

  /** The table after a run of the code as written: the old rows are gone whatever the outcome. */
  function LessonsAfterAsWritten(before: set<Lesson>, snap: Snapshot, sol: Solution): set<Lesson>
  {
    if Outcome(snap, sol).Generated? then Timetable(snap, sol) else {}
  }

  /** The table after a run that clears the old rows only once a timetable is ready to be saved. */
  function LessonsAfterDeferred(before: set<Lesson>, snap: Snapshot, sol: Solution): set<Lesson>
  {
    if Outcome(snap, sol).Generated? then Timetable(snap, sol) else before
  }

  lemma {:induction false} LessonImageSize(keys: set<YKey>, room: Option<RoomId>)
    ensures |LessonImage(keys, room)| == |keys|
    decreases |keys|
  {
    if keys != {} {
      var k :| k in keys;
      LessonImageSize(keys - {k}, room);
      assert LessonImage(keys, room) == LessonImage(keys - {k}, room) + {LessonOf(k, room)};
    }
  }

  /**
   * Steps 4 and 5 of the run: the validator, the variables, and the weekly
   * loads of step 5.6; `failure` is how the run ends here, if it does.
   */
  method ValidateAndBuild(snap: Snapshot) returns (failure: Option<RunResult>, y: set<YKey>, z: set<ZKey>)
    ensures failure == PreSolveFailure(snap)
    ensures failure.None? ==> y == YUniverse(snap) && z == ZUniverse(snap)
  {
    y, z := {}, {};
    var violations, errors, raised := Validate(snap);
    if raised {
      return Some(CapacitySumFailed), y, z;
    }
    if errors {
      return Some(ValidationFailed(violations)), y, z;
    }
    y, z := BuildVariables(snap);
    var loadsPosted := PostTeacherLoads(snap.teachers);
    if !loadsPosted {
      return Some(WeeklyLoadFailed), y, z;
    }
    failure := None;
  }

  /**
   * The run as written: the table is cleared before validation, so a run
   * that fails validation or finds no solution leaves it empty.
   */
  method GenerateSchedule(table: LessonTable, snap: Snapshot, sol: Solution) returns (result: RunResult)
    modifies table
    requires table.Valid() && SolverContract(snap, sol)
    ensures table.Valid()
    ensures result == Outcome(snap, sol)
    ensures Rows(table.lessons) == LessonsAfterAsWritten(Rows(old(table.lessons)), snap, sol)
    ensures |table.lessons| == if result.Generated? then result.created else 0
  {
    var deleted := table.DeleteAll();
    var failure, y, z := ValidateAndBuild(snap);
    if failure.Some? {
      return failure.value;
    }
    if !Accepted(sol.status) {
      return NoSolution(sol.status);
    }
    assert sol.y <= y;
    ClassSlotKeyUnique(snap, sol.y);
    var ok := table.SaveAtomic(sol.y, FirstRoom(snap.rooms));
    assert ok;
    return Generated(|sol.y|);
  }

  /**
   * The corrected run: validation, model building and solving come first,
   * and only a run with a solution to save clears the old lessons.
   */
  method GenerateScheduleDeferred(table: LessonTable, snap: Snapshot, sol: Solution) returns (result: RunResult)
    modifies table
    requires table.Valid() && SolverContract(snap, sol)
    ensures table.Valid()
    ensures result == Outcome(snap, sol)
    ensures Rows(table.lessons) == LessonsAfterDeferred(Rows(old(table.lessons)), snap, sol)
    ensures !result.Generated? ==> table.lessons == old(table.lessons)
    ensures result.Generated? ==> |table.lessons| == result.created
  {
    var failure, y, z := ValidateAndBuild(snap);
    if failure.Some? {
      return failure.value;
    }
    if !Accepted(sol.status) {
      return NoSolution(sol.status);
    }
    ClassSlotKeyUnique(snap, sol.y);
    var deleted := table.DeleteAll();
    var ok := table.SaveAtomic(sol.y, FirstRoom(snap.rooms));
    assert ok;
    return Generated(|sol.y|);
  }

  /**
   * A run whose data fails validation (a first-shift class asking more than
   * its 42 weekly slots): the code as written leaves the lesson table empty,
   * the corrected run leaves it as it was, whatever the solver would answer.
   */
  lemma FailedRunWipesTimetable(cls: SchoolClass, s: SubjectId, h: nat, t: Teacher, rooms: seq<Room>,
                                before: set<Lesson>, sol: Solution)
    requires cls.shift == First && h > 42 && s in t.subjects && MaxHoursKey !in t.workTime
    ensures var snap := Snapshot([cls], [SubjectHours(cls.id, s, h)], [t], rooms);
            && Outcome(snap, sol).ValidationFailed?
            && LessonsAfterAsWritten(before, snap, sol) == {}
            && LessonsAfterDeferred(before, snap, sol) == before
  {
    OverlongRequirementRejected(cls, s, h, t, rooms);
    CapacitySumRaisesIff([SubjectHours(cls.id, s, h)], [t]);
  }

  /**
   * A non-number `max_hours_per_week` ends the run with a `TypeError` exactly
   * when the run gets that far: the capacity sum meets it, or validation
   * passes and the weekly-load constraints are posted for every teacher. A
   * saved timetable therefore always comes from numeric capacities.
   */
  lemma TypeErrorIffNonNumber(snap: Snapshot, sol: Solution)
    ensures (Outcome(snap, sol).CapacitySumFailed? || Outcome(snap, sol).WeeklyLoadFailed?) <==>
            !CapacitiesAreNumbers(snap.teachers) && (CapacitySumRaises(snap.hours, snap.teachers) || Violations(snap) == [])
    ensures Outcome(snap, sol).Generated? ==> CapacitiesAreNumbers(snap.teachers)
  {
    CapacitySumRaisesIff(snap.hours, snap.teachers);
  }

  /**
   * What a saved timetable guarantees, stated on the lesson rows: the table
   * key holds, a class-subject pair has one teacher and exactly its weekly
   * hours, no teacher is in two places at once, a subject with six hours is
   * on every weekday, and every lesson sits on a weekday, in a slot of its
   * class's shift, with a teacher qualified for its subject.
   */
  lemma GeneratedTimetableProperties(snap: Snapshot, sol: Solution)
    requires SolverContract(snap, sol) && Accepted(sol.status)
    ensures var ls := Timetable(snap, sol);
      && (forall a <- ls, b <- ls | LessonKey(a) == LessonKey(b) :: a == b)
      && (forall a <- ls, b <- ls | a.schoolClass == b.schoolClass && a.subject == b.subject :: a.teacher == b.teacher)
      && (forall a <- ls, b <- ls | a.teacher == b.teacher && a.weekday == b.weekday && a.lessonNumber == b.lessonNumber :: a == b)
      && (forall x <- ls :: x.weekday in Weekdays)
      && (forall x <- ls :: exists cls <- snap.classes :: cls.id == x.schoolClass && x.lessonNumber in SlotsOf(cls.shift))
      && (forall x <- ls :: exists t <- snap.teachers :: t.id == x.teacher && x.subject in t.subjects)
  {
    ImageProperties(snap, sol.y, sol.z, FirstRoom(snap.rooms));
  }

  /** The lesson rows of keys meeting the per-slot and one-teacher constraints, whatever room they get. */
  lemma ImageProperties(snap: Snapshot, y: set<YKey>, z: set<ZKey>, room: Option<RoomId>)
    requires y <= YUniverse(snap) && YBoundByZ(y, z) && OneTeacherPerClassSubject(snap, z)
    requires OneLessonPerClassSlot(snap, y) && OneLessonPerTeacherSlot(snap, y)
    ensures var ls := LessonImage(y, room);
      && (forall a <- ls, b <- ls | LessonKey(a) == LessonKey(b) :: a == b)
      && (forall a <- ls, b <- ls | a.schoolClass == b.schoolClass && a.subject == b.subject :: a.teacher == b.teacher)
      && (forall a <- ls, b <- ls | a.teacher == b.teacher && a.weekday == b.weekday && a.lessonNumber == b.lessonNumber :: a == b)
      && (forall x <- ls :: x.weekday in Weekdays)
      && (forall x <- ls :: exists cls <- snap.classes :: cls.id == x.schoolClass && x.lessonNumber in SlotsOf(cls.shift))
      && (forall x <- ls :: exists t <- snap.teachers :: t.id == x.teacher && x.subject in t.subjects)
  {
    ClassSlotKeyUnique(snap, y);
    ImageClassSlotKey(y, room);
    OneTeacherForAllLessons(snap, y, z);
    ImageOneTeacher(y, room);
    TeacherNeverDoubleBooked(snap, y);
    ImageTeacherSlot(y, room);
    ImageRows(snap, y, room);
  }

  /** A key on (class, weekday, slot) among the true keys stays a key on their lesson rows. */
  lemma ImageClassSlotKey(keys: set<YKey>, room: Option<RoomId>)
    requires forall k1 <- keys, k2 <- keys | k1.c == k2.c && k1.d == k2.d && k1.l == k2.l :: k1 == k2
    ensures forall a <- LessonImage(keys, room), b <- LessonImage(keys, room) | LessonKey(a) == LessonKey(b) :: a == b
  {
    forall a <- LessonImage(keys, room), b <- LessonImage(keys, room) | LessonKey(a) == LessonKey(b)
      ensures a == b
    {
      var k1 :| k1 in keys && a == LessonOf(k1, room);
      var k2 :| k2 in keys && b == LessonOf(k2, room);
    }
  }

  /** One teacher per (class, subject) among the true keys carries over to their lesson rows. */
  lemma ImageOneTeacher(keys: set<YKey>, room: Option<RoomId>)
    requires forall k1 <- keys, k2 <- keys | k1.c == k2.c && k1.s == k2.s :: k1.t == k2.t
    ensures forall a <- LessonImage(keys, room), b <- LessonImage(keys, room) |
              a.schoolClass == b.schoolClass && a.subject == b.subject :: a.teacher == b.teacher
  {
    forall a <- LessonImage(keys, room), b <- LessonImage(keys, room) | a.schoolClass == b.schoolClass && a.subject == b.subject
      ensures a.teacher == b.teacher
    {
      var k1 :| k1 in keys && a == LessonOf(k1, room);
      var k2 :| k2 in keys && b == LessonOf(k2, room);
    }
  }

  /** A key on (teacher, weekday, slot) among the true keys stays a key on their lesson rows. */
  lemma ImageTeacherSlot(keys: set<YKey>, room: Option<RoomId>)
    requires forall k1 <- keys, k2 <- keys | k1.t == k2.t && k1.d == k2.d && k1.l == k2.l :: k1 == k2
    ensures forall a <- LessonImage(keys, room), b <- LessonImage(keys, room) |
              a.teacher == b.teacher && a.weekday == b.weekday && a.lessonNumber == b.lessonNumber :: a == b
  {
    forall a <- LessonImage(keys, room), b <- LessonImage(keys, room) | a.teacher == b.teacher && a.weekday == b.weekday && a.lessonNumber == b.lessonNumber
      ensures a == b
    {
      var k1 :| k1 in keys && a == LessonOf(k1, room);
      var k2 :| k2 in keys && b == LessonOf(k2, room);
    }
  }

  /** Every lesson row made from keys of the universe sits on a weekday, in its class's shift, with a qualified teacher. */
  lemma ImageRows(snap: Snapshot, keys: set<YKey>, room: Option<RoomId>)
    requires keys <= YUniverse(snap)
    ensures forall x <- LessonImage(keys, room) :: x.weekday in Weekdays
    ensures forall x <- LessonImage(keys, room) ::
              exists cls <- snap.classes :: cls.id == x.schoolClass && x.lessonNumber in SlotsOf(cls.shift)
    ensures forall x <- LessonImage(keys, room) ::
              exists t <- snap.teachers :: t.id == x.teacher && x.subject in t.subjects
  {
    forall x <- LessonImage(keys, room)
      ensures x.weekday in Weekdays
      ensures exists cls <- snap.classes :: cls.id == x.schoolClass && x.lessonNumber in SlotsOf(cls.shift)
      ensures exists t <- snap.teachers :: t.id == x.teacher && x.subject in t.subjects
    {
      var k :| k in keys && x == LessonOf(k, room);
      UniverseKey(snap, k);
    }
  }

  /** The lessons of one class-subject pair are the image of that pair's true keys. */
  lemma PairLessons(keys: set<YKey>, room: Option<RoomId>, c: ClassId, s: SubjectId)
    ensures (set x <- LessonImage(keys, room) | x.schoolClass == c && x.subject == s)
            == LessonImage(ClassSubjectLessons(keys, c, s), room)
  {
  }

  lemma PairDayLessons(keys: set<YKey>, room: Option<RoomId>, c: ClassId, s: SubjectId, d: int)
    ensures (set x <- LessonImage(keys, room) | x.schoolClass == c && x.subject == s && x.weekday == d)
            == LessonImage(ClassSubjectDayLessons(keys, c, s, d), room)
  {
  }

  /** Each hours row gets exactly `hours_per_week` lessons. */
  lemma GeneratedHours(snap: Snapshot, sol: Solution, r: SubjectHours)
    requires SolverContract(snap, sol) && Accepted(sol.status) && r in snap.hours
    ensures |set x <- Timetable(snap, sol) | x.schoolClass == r.schoolClass && x.subject == r.subject| == r.hoursPerWeek
  {
    var room := FirstRoom(snap.rooms);
    PairLessons(sol.y, room, r.schoolClass, r.subject);
    LessonImageSize(ClassSubjectLessons(sol.y, r.schoolClass, r.subject), room);
  }

  /** A subject with six weekly hours has one lesson on every weekday. */
  lemma GeneratedFullWeek(snap: Snapshot, sol: Solution, r: SubjectHours, d: int)
    requires SolverContract(snap, sol) && Accepted(sol.status) && r in snap.hours
    requires r.hoursPerWeek == |Weekdays| && d in Weekdays
    ensures |set x <- Timetable(snap, sol) | x.schoolClass == r.schoolClass && x.subject == r.subject && x.weekday == d| == 1
  {
    var room := FirstRoom(snap.rooms);
    PairDayLessons(sol.y, room, r.schoolClass, r.subject, d);
    LessonImageSize(ClassSubjectDayLessons(sol.y, r.schoolClass, r.subject, d), room);
  }
}
