/**
 * The earliest generator variant. Each class gets one integer variable per
 * (day, lesson) cell, Monday to Friday, leaving out the weekdays that carry
 * a holiday. Every variable ranges over the positions of all subjects, so
 * there is no empty cell. A subject's cells must number its weekly hours.
 * At each (day, lesson), the classes taking a subject may not outnumber its
 * qualified teachers. The run accepts FEASIBLE only. The save is atomic:
 * every lesson gets the subject's first qualified teacher and the matching
 * room with the least id.
 *
 * As written, both sums are taken over `var == k` comparisons, which
 * OR-Tools cannot add, so any run with something to schedule raises
 * `TypeError` before the solve (`GenerateOldAsWritten`). The counts and
 * bounds stated here are those of the intended model (`GenerateOld`), in
 * which each comparison is reified as a 0/1 value.
 */
module OldGenerator {
  import opened Common
  import opened Calendar
  import opened Models
  import opened Validator
  import opened Tables
  import opened Scheduler
  import opened FiftyFifty
  import opened FiftyFiftyRun

  /** `DAYS`: Monday to Friday, numbered 0..4 as `weekday()` numbers them. */
  const OldDays: nat := 5

  // ---- holidays ----

  /** The weekdays (0..4) on which some holiday falls. */
  function WorkdayHolidays(holidays: seq<Holiday>): set<int>
    requires forall h <- holidays :: ValidDate(h.date)
  {
    set h <- holidays | Weekday(h.date) < 5 :: Weekday(h.date)
  }

  /** `holiday_weekdays`: the loop over the holidays keeping the weekdays below 5. */
  method HolidayWeekdays(holidays: seq<Holiday>) returns (days: set<int>)
    requires forall h <- holidays :: ValidDate(h.date)
    ensures days == WorkdayHolidays(holidays)
    ensures forall d :: d in days <==> 0 <= d < 5 && exists h <- holidays :: Weekday(h.date) == d
  {
    days := {};
    var i := 0;
    while i < |holidays|
      invariant 0 <= i <= |holidays|
      invariant days == WorkdayHolidays(holidays[..i])
    {
      assert holidays[..i + 1] == holidays[..i] + [holidays[i]];
      var w := Weekday(holidays[i].date);
      if w < 5 {
        days := days + {w};
      }
      i := i + 1;
    }
    assert holidays[..i] == holidays;
  }

  // ---- the cells of a class ----

  /** The cells of `day`: none on an excluded day. */
  function OldDayCells(shift: Shift, excluded: set<int>, day: int): seq<Cell>
  {
    if day in excluded then [] else DayCells(shift, day)
  }

  /** The cells from `day` on, skipping excluded days, in the order the variables are created. */
  function OldCellsFrom(shift: Shift, excluded: set<int>, day: nat): seq<Cell>
    decreases OldDays - day
  {
    if day >= OldDays then [] else OldDayCells(shift, excluded, day) + OldCellsFrom(shift, excluded, day + 1)
  }

  /** `schedule_vars[cls.id]`'s keys for a class of `shift`. */
  function OldCells(shift: Shift, excluded: set<int>): seq<Cell>
  {
    OldCellsFrom(shift, excluded, 0)
  }

  lemma OldDayCellsFacts(shift: Shift, excluded: set<int>, day: int)
    ensures forall x: Cell :: x in OldDayCells(shift, excluded, day) <==>
                              x.day == day && day !in excluded && x.lesson in SlotsOf(shift)
    ensures Distinct(OldDayCells(shift, excluded, day))
  {
    if day !in excluded {
      DayCellsMembers(shift, day);
      DayCellsDistinct(shift, day);
    }
  }

  lemma OldCellsFromMembers(shift: Shift, excluded: set<int>, day: nat)
    ensures forall x: Cell :: x in OldCellsFrom(shift, excluded, day) <==>
                              day <= x.day < OldDays && x.day !in excluded && x.lesson in SlotsOf(shift)
  {
    forall x: Cell
      ensures x in OldCellsFrom(shift, excluded, day) <==>
              day <= x.day < OldDays && x.day !in excluded && x.lesson in SlotsOf(shift)
    {
      OldCellMember(shift, excluded, day, x);
    }
  }

  /** One cell is among the cells from `day` on iff it lies on a later, non-excluded day in a slot of the shift. */
  lemma {:induction false} OldCellMember(shift: Shift, excluded: set<int>, day: nat, x: Cell)
    ensures x in OldCellsFrom(shift, excluded, day) <==>
            day <= x.day < OldDays && x.day !in excluded && x.lesson in SlotsOf(shift)
    decreases OldDays - day
  {
    if day < OldDays {
      var row, rest := OldDayCells(shift, excluded, day), OldCellsFrom(shift, excluded, day + 1);
      assert OldCellsFrom(shift, excluded, day) == row + rest;
      assert x in row + rest <==> x in row || x in rest;
      OldDayCellMember(shift, excluded, day, x);
      OldCellMember(shift, excluded, day + 1, x);
    }
  }

  /** One cell is a cell of `day` iff the day is not excluded and the cell is one of its shift slots. */
  lemma OldDayCellMember(shift: Shift, excluded: set<int>, day: int, x: Cell)
    ensures x in OldDayCells(shift, excluded, day) <==> x.day == day && day !in excluded && x.lesson in SlotsOf(shift)
  {
    if day !in excluded && x.day == day && x.lesson in SlotsOf(shift) {
      var i :| 0 <= i < |SlotsOf(shift)| && SlotsOf(shift)[i] == x.lesson;
      assert DayCells(shift, day)[i] == x;
    }
  }

  lemma {:induction false} OldCellsFromDistinct(shift: Shift, excluded: set<int>, day: nat)
    ensures Distinct(OldCellsFrom(shift, excluded, day))
    decreases OldDays - day
  {
    if day < OldDays {
      var row, rest := OldDayCells(shift, excluded, day), OldCellsFrom(shift, excluded, day + 1);
      assert Distinct(row) by {
        OldDayCellsFacts(shift, excluded, day);
      }
      OldCellsFromDistinct(shift, excluded, day + 1);
      forall x <- row ensures x !in rest {
        OldDayCellMember(shift, excluded, day, x);
        OldCellMember(shift, excluded, day + 1, x);
      }
      DistinctConcat(row, rest);
    }
  }

  /** Every cell occurs once; the cells are the shift's slots on the non-excluded days 0..4. */
  lemma OldCellsFacts(shift: Shift, excluded: set<int>)
    ensures Distinct(OldCells(shift, excluded))
    ensures forall x: Cell :: x in OldCells(shift, excluded) <==>
                              0 <= x.day < OldDays && x.day !in excluded && x.lesson in SlotsOf(shift)
  {
    OldCellsFromDistinct(shift, excluded, 0);
    OldCellsFromMembers(shift, excluded, 0);
  }

  // ---- the constraint model ----

  /** Every cell has a value, and every value is a subject position `0..n-1`: there is no empty cell. */
  predicate OldValued(subjects: seq<Subject>, cells: seq<Cell>, v: map<Cell, nat>)
  {
    forall x <- cells :: x in v && v[x] < |subjects|
  }

  /**
   * Each of the class's hours rows: the cells holding the subject number its
   * weekly hours, the intended reading of `sum(var == k) == hours`.
   */
  ghost predicate OldHours(subjects: seq<Subject>, cells: seq<Cell>, rows: seq<SubjectHours>, v: map<Cell, nat>)
    requires OldValued(subjects, cells, v)
  {
    forall r <- rows :: r.subject in SubjectIndex(subjects) && CountCells(cells, v, SubjectIndex(subjects)[r.subject]) == r.hoursPerWeek
  }

  /**
   * How many classes hold subject position `idx` in cell `x`. A class
   * counts only when it has the cell, that is when `x.lesson` is a slot of
   * its shift (the days are filtered by the caller).
   */
  function ClassesAt(classes: seq<SchoolClass>, value: map<ClassId, map<Cell, nat>>, x: Cell, idx: nat): nat
  {
    if classes == [] then 0
    else
      var cls := classes[|classes| - 1];
      ClassesAt(classes[..|classes| - 1], value, x, idx)
        + (if x.lesson in SlotsOf(cls.shift) && cls.id in value && x in value[cls.id] && value[cls.id][x] == idx then 1 else 0)
  }

  /**
   * The per-slot teacher bound: on every non-excluded day 0..4 and lesson
   * 1..13, a subject with qualified teachers is held by at most as many
   * classes as it has teachers. Subjects without teachers are skipped.
   */
  ghost predicate OldTeacherBound(subjects: seq<Subject>, teachers: seq<Teacher>, classes: seq<SchoolClass>,
                                  excluded: set<int>, value: map<ClassId, map<Cell, nat>>)
  {
    forall day: int, lesson: int, j: int |
      0 <= day < OldDays && day !in excluded && 1 <= lesson < 14 && 0 <= j < |subjects|
      && subjects[j].id in SubjectIndex(subjects) && |Qualified(teachers, subjects[j].id)| > 0 ::
      ClassesAt(classes, value, Cell(day, lesson), SubjectIndex(subjects)[subjects[j].id]) <= |Qualified(teachers, subjects[j].id)|
  }

  /** The solver's answer: a status and, per class, a value per cell. */
  datatype OldSolution = OldSolution(status: SolverStatus, value: map<ClassId, map<Cell, nat>>)

  /** The constraints of one class over its hours rows. */
  ghost predicate OldClassConstraints(subjects: seq<Subject>, cls: SchoolClass, excluded: set<int>,
                                      rows: seq<SubjectHours>, value: map<ClassId, map<Cell, nat>>)
  {
    && cls.id in value
    && OldValued(subjects, OldCells(cls.shift, excluded), value[cls.id])
    && OldHours(subjects, OldCells(cls.shift, excluded), ClassRows(rows, cls.id), value[cls.id])
  }

  /** What CP-SAT promises for the intended model: with a solution (OPTIMAL or FEASIBLE), every constraint holds. */
  ghost predicate OldContract(subjects: seq<Subject>, teachers: seq<Teacher>, classes: seq<SchoolClass>,
                              excluded: set<int>, rows: seq<SubjectHours>, sol: OldSolution)
  {
    Accepted(sol.status) ==>
      && (forall cls <- classes :: OldClassConstraints(subjects, cls, excluded, rows, sol.value))
      && OldTeacherBound(subjects, teachers, classes, excluded, sol.value)
  }

  /** `SubjectIndex` reads only the subjects' ids. */
  lemma {:induction false} SubjectIndexOfIds(a: seq<Subject>, b: seq<Subject>)
    requires |a| == |b| && forall i | 0 <= i < |a| :: a[i].id == b[i].id
    ensures SubjectIndex(a) == SubjectIndex(b)
  {
    if a != [] {
      var n := |a| - 1;
      SubjectIndexOfIds(a[..n], b[..n]);
    }
  }

  lemma ClassConstraintsOfIds(subjects: seq<Subject>, harder: seq<Subject>, cls: SchoolClass, excluded: set<int>,
                              rows: seq<SubjectHours>, value: map<ClassId, map<Cell, nat>>)
    requires |subjects| == |harder| && SubjectIndex(subjects) == SubjectIndex(harder)
    ensures OldClassConstraints(subjects, cls, excluded, rows, value) == OldClassConstraints(harder, cls, excluded, rows, value)
  {
  }

  lemma TeacherBoundOfIds(subjects: seq<Subject>, harder: seq<Subject>, teachers: seq<Teacher>, classes: seq<SchoolClass>,
                          excluded: set<int>, value: map<ClassId, map<Cell, nat>>)
    requires |subjects| == |harder| && SubjectIndex(subjects) == SubjectIndex(harder)
    requires forall j | 0 <= j < |subjects| :: harder[j].id == subjects[j].id
    ensures OldTeacherBound(subjects, teachers, classes, excluded, value) == OldTeacherBound(harder, teachers, classes, excluded, value)
  {
  }

  /**
   * The "two hard subjects a day" sum is built but never added: the
   * constraints read the subjects' ids only, so making every subject hard
   * changes nothing about which assignments are accepted.
   */
  lemma DifficultyIgnored(subjects: seq<Subject>, harder: seq<Subject>, teachers: seq<Teacher>, classes: seq<SchoolClass>,
                          excluded: set<int>, rows: seq<SubjectHours>, sol: OldSolution)
    requires |subjects| == |harder| && forall i | 0 <= i < |subjects| :: harder[i] == subjects[i].(difficulty := Hard)
    ensures OldContract(subjects, teachers, classes, excluded, rows, sol) == OldContract(harder, teachers, classes, excluded, rows, sol)
  {
    SubjectIndexOfIds(subjects, harder);
    forall cls <- classes
      ensures OldClassConstraints(subjects, cls, excluded, rows, sol.value) == OldClassConstraints(harder, cls, excluded, rows, sol.value)
    {
      ClassConstraintsOfIds(subjects, harder, cls, excluded, rows, sol.value);
    }
    TeacherBoundOfIds(subjects, harder, teachers, classes, excluded, sol.value);
  }

  // ---- the save ----

  /** `needle in s`: some position of `s` starts with `needle`. */
  predicate Contains(s: string, needle: string)
  {
    exists i | 0 <= i <= |s| - |needle| :: needle <= s[i..]
  }

  /** The case pairs the lookup ignores: Latin and Russian Cyrillic capitals read as their small letters. */
  function Fold(c: char): (r: char)
    ensures !('A' <= r <= 'Z' || 'А' <= r <= 'Я' || r == 'Ё')
    ensures r != c ==> ('A' <= c <= 'Z' || 'А' <= c <= 'Я' || c == 'Ё')
  {
    if 'A' <= c <= 'Z' || 'А' <= c <= 'Я' then (c as int + 32) as char
    else if c == 'Ё' then 'ё'
    else c
  }

  function Folded(s: string): (r: string)
    ensures |r| == |s| && forall i | 0 <= i < |s| :: r[i] == Fold(s[i])
  {
    seq(|s|, i requires 0 <= i < |s| => Fold(s[i]))
  }

  /**
   * `name__icontains`: the room name contains the subject name with case
   * ignored. The database compares `UPPER(name)` with `UPPER(pattern)`, which
   * for these letters matches exactly when the small-letter forms match.
   */
  predicate NameContains(roomName: string, name: string)
  {
    Contains(Folded(roomName), Folded(name))
  }

  /**
   * `Room.objects.filter(name__icontains=name).first()`: `first()` on a
   * query without an ordering orders it by primary key (`Room` declares
   * none), so the room found is the matching room with the least id, case
   * ignored.
   */
  function RoomFor(rooms: seq<Room>, name: string): (r: Option<RoomId>)
    ensures r.Some? ==> exists rm <- rooms :: rm.id == r.value && NameContains(rm.name, name)
    ensures r.Some? ==> forall rm <- rooms :: NameContains(rm.name, name) ==> r.value <= rm.id
    ensures r.None? <==> forall rm <- rooms :: !NameContains(rm.name, name)
  {
    if rooms == [] then None
    else
      var rest := RoomFor(rooms[1..], name);
      assert forall rm <- rooms :: rm == rooms[0] || rm in rooms[1..];
      if NameContains(rooms[0].name, name) && (rest.None? || rooms[0].id <= rest.value) then Some(rooms[0].id)
      else rest
  }

  /** The order in which the table lists its rooms does not change the room found. */
  lemma RoomForOrderFree(rooms: seq<Room>, other: seq<Room>, name: string)
    requires forall rm :: rm in rooms <==> rm in other
    ensures RoomFor(rooms, name) == RoomFor(other, name)
  {
  }

  /** Names that differ only in case find the same room. */
  lemma {:induction false} RoomForCaseBlind(rooms: seq<Room>, name: string, other: string)
    requires Folded(name) == Folded(other)
    ensures RoomFor(rooms, name) == RoomFor(rooms, other)
  {
    if rooms != [] {
      RoomForCaseBlind(rooms[1..], name, other);
    }
  }

  /** A capitalised room name matches a subject name in small letters. */
  lemma PhysicsRoomFound(id: RoomId)
    ensures RoomFor([Room(id, "Физика 101")], "физика") == Some(id)
  {
    PhysicsMatches("Физика 101");
  }

  /** Of two matching rooms the one with the smaller id is found, though it is listed second. */
  lemma LeastIdRoomFound()
    ensures RoomFor([Room(7, "Физика 202"), Room(3, "Физика 101")], "физика") == Some(3)
  {
    PhysicsMatches("Физика 202");
    PhysicsMatches("Физика 101");
  }

  lemma PhysicsMatches(roomName: string)
    requires |roomName| >= 6 && roomName[..6] == "Физика"
    ensures NameContains(roomName, "физика")
  {
    var f := Folded(roomName);
    assert f[..6] == "физика";
    assert "физика" <= f[0..];
  }

  /**
   * The lesson saved for cell `x` of class `c`: the subject at the cell's
   * position, its first qualified teacher, weekday `day + 1`, the subject's
   * room; nothing when the subject has no teacher.
   */
  function OldLessonAt(subjects: seq<Subject>, teachers: seq<Teacher>, rooms: seq<Room>,
                       c: ClassId, v: map<Cell, nat>, x: Cell): seq<Lesson>
    requires x in v && v[x] < |subjects|
  {
    var s := subjects[v[x]];
    var q := Qualified(teachers, s.id);
    if q == [] then [] else [Lesson(c, s.id, q[0].id, x.day + 1, x.lesson, RoomFor(rooms, s.name))]
  }

  /** The lessons saved for class `c`, cell by cell. */
  function OldClassLessons(subjects: seq<Subject>, teachers: seq<Teacher>, rooms: seq<Room>,
                           c: ClassId, v: map<Cell, nat>, cells: seq<Cell>): seq<Lesson>
    requires OldValued(subjects, cells, v)
  {
    if cells == [] then []
    else
      var pre := cells[..|cells| - 1];
      assert OldValued(subjects, pre, v) by {
        assert forall x <- pre :: x in cells;
      }
      OldClassLessons(subjects, teachers, rooms, c, v, pre) + OldLessonAt(subjects, teachers, rooms, c, v, cells[|cells| - 1])
  }

  /** Every saved lesson comes from one of the class's cells, with the subject at that cell and its first teacher and room. */
  lemma {:induction false} OldLessonOrigin(subjects: seq<Subject>, teachers: seq<Teacher>, rooms: seq<Room>,
                                           c: ClassId, v: map<Cell, nat>, cells: seq<Cell>, l: Lesson)
    requires OldValued(subjects, cells, v)
    requires l in OldClassLessons(subjects, teachers, rooms, c, v, cells)
    ensures l.schoolClass == c
    ensures exists x <- cells :: l.weekday == x.day + 1 && l.lessonNumber == x.lesson && l.subject == subjects[v[x]].id
                                 && l.room == RoomFor(rooms, subjects[v[x]].name)
    ensures Qualified(teachers, l.subject) != [] && l.teacher == Qualified(teachers, l.subject)[0].id
  {
    var pre, x := cells[..|cells| - 1], cells[|cells| - 1];
    assert OldValued(subjects, pre, v) by {
      assert forall y <- pre :: y in cells;
    }
    if l in OldClassLessons(subjects, teachers, rooms, c, v, pre) {
      OldLessonOrigin(subjects, teachers, rooms, c, v, pre, l);
      var y :| y in pre && l.weekday == y.day + 1 && l.lessonNumber == y.lesson && l.subject == subjects[v[y]].id
               && l.room == RoomFor(rooms, subjects[v[y]].name);
      assert y in cells;
    } else {
      assert l in OldLessonAt(subjects, teachers, rooms, c, v, x);
    }
  }

  /** How many of `ls` teach subject `s`. */
  function CountLessons(ls: seq<Lesson>, s: SubjectId): nat
  {
    if ls == [] then 0 else CountLessons(ls[..|ls| - 1], s) + (if ls[|ls| - 1].subject == s then 1 else 0)
  }

  lemma {:induction false} CountLessonsAppend(a: seq<Lesson>, b: seq<Lesson>, s: SubjectId)
    ensures CountLessons(a + b, s) == CountLessons(a, s) + CountLessons(b, s)
    decreases |b|
  {
    if b == [] {
      assert a + b == a;
    } else {
      var n := |b| - 1;
      assert (a + b)[..|a + b| - 1] == a + b[..n];
      CountLessonsAppend(a, b[..n], s);
    }
  }

  /**
   * A subject with a qualified teacher is saved once per cell holding its
   * position; a subject without one is never saved.
   */
  lemma {:induction false} OldCount(subjects: seq<Subject>, teachers: seq<Teacher>, rooms: seq<Room>,
                                    c: ClassId, v: map<Cell, nat>, cells: seq<Cell>, s: SubjectId)
    requires OldValued(subjects, cells, v) && DistinctIds(subjects) && s in SubjectIndex(subjects)
    ensures CountLessons(OldClassLessons(subjects, teachers, rooms, c, v, cells), s) ==
            if Qualified(teachers, s) == [] then 0 else CountCells(cells, v, SubjectIndex(subjects)[s])
  {
    if cells != [] {
      var pre, x := cells[..|cells| - 1], cells[|cells| - 1];
      assert OldValued(subjects, pre, v) by {
        assert forall y <- pre :: y in cells;
      }
      OldCount(subjects, teachers, rooms, c, v, pre, s);
      var tail := OldLessonAt(subjects, teachers, rooms, c, v, x);
      CountLessonsAppend(OldClassLessons(subjects, teachers, rooms, c, v, pre), tail, s);
      OldCellCount(subjects, teachers, rooms, c, v, x, s);
    }
  }

  /** The lesson of one cell counts for `s` iff the cell holds `s` and `s` has a teacher. */
  lemma OldCellCount(subjects: seq<Subject>, teachers: seq<Teacher>, rooms: seq<Room>,
                     c: ClassId, v: map<Cell, nat>, x: Cell, s: SubjectId)
    requires x in v && v[x] < |subjects| && DistinctIds(subjects) && s in SubjectIndex(subjects)
    ensures CountLessons(OldLessonAt(subjects, teachers, rooms, c, v, x), s) ==
            if Qualified(teachers, s) == [] || v[x] != SubjectIndex(subjects)[s] then 0 else 1
  {
    IndexRoundTrip(subjects);
    var tail := OldLessonAt(subjects, teachers, rooms, c, v, x);
    if tail != [] {
      assert tail == [tail[0]];
      assert CountLessons(tail, s) == CountLessons([], s) + (if tail[0].subject == s then 1 else 0);
    }
  }

  /** The saved lessons of one class have distinct (weekday, lesson number) pairs. */
  lemma {:induction false} OldClassKeysDistinct(subjects: seq<Subject>, teachers: seq<Teacher>, rooms: seq<Room>,
                                                c: ClassId, v: map<Cell, nat>, cells: seq<Cell>)
    requires OldValued(subjects, cells, v) && Distinct(cells)
    ensures UniqueLessons(OldClassLessons(subjects, teachers, rooms, c, v, cells))
  {
    if cells != [] {
      var pre, x := cells[..|cells| - 1], cells[|cells| - 1];
      assert OldValued(subjects, pre, v) by {
        assert forall y <- pre :: y in cells;
      }
      assert Distinct(pre);
      OldClassKeysDistinct(subjects, teachers, rooms, c, v, pre);
      var head := OldClassLessons(subjects, teachers, rooms, c, v, pre);
      var tail := OldLessonAt(subjects, teachers, rooms, c, v, x);
      if tail != [] {
        forall l <- head ensures LessonKey(l) != LessonKey(tail[0]) {
          OldLessonOrigin(subjects, teachers, rooms, c, v, pre, l);
          var y :| y in pre && l.weekday == y.day + 1 && l.lessonNumber == y.lesson && l.subject == subjects[v[y]].id
                   && l.room == RoomFor(rooms, subjects[v[y]].name);
          var k :| 0 <= k < |pre| && pre[k] == y;
          assert cells[k] == y;
        }
        var ls := head + tail;
        forall i, j | 0 <= i < |ls| && 0 <= j < |ls| && i != j ensures LessonKey(ls[i]) != LessonKey(ls[j]) {
          if i < |head| && j < |head| {
            assert ls[i] == head[i] && ls[j] == head[j];
          } else if i < |head| {
            assert ls[i] == head[i] && head[i] in head && ls[j] == tail[0];
          } else {
            assert ls[j] == head[j] && head[j] in head && ls[i] == tail[0];
          }
        }
      } else {
        assert head + tail == head;
      }
    }
  }

  /** One more cell: its lesson, if any, is appended, and its key is new among the class's earlier lessons. */
  lemma OldCellStep(subjects: seq<Subject>, teachers: seq<Teacher>, rooms: seq<Room>,
                    c: ClassId, v: map<Cell, nat>, cells: seq<Cell>, i: nat)
    requires OldValued(subjects, cells, v) && Distinct(cells) && i < |cells|
    ensures OldValued(subjects, cells[..i], v) && OldValued(subjects, cells[..i + 1], v)
    ensures OldClassLessons(subjects, teachers, rooms, c, v, cells[..i + 1])
            == OldClassLessons(subjects, teachers, rooms, c, v, cells[..i]) + OldLessonAt(subjects, teachers, rooms, c, v, cells[i])
    ensures forall l <- OldLessonAt(subjects, teachers, rooms, c, v, cells[i]), y <- OldClassLessons(subjects, teachers, rooms, c, v, cells[..i]) ::
              LessonKey(y) != LessonKey(l)
  {
    OldCellAppend(subjects, teachers, rooms, c, v, cells, i);
    OldCellFresh(subjects, teachers, rooms, c, v, cells, i);
  }

  lemma OldCellAppend(subjects: seq<Subject>, teachers: seq<Teacher>, rooms: seq<Room>,
                      c: ClassId, v: map<Cell, nat>, cells: seq<Cell>, i: nat)
    requires OldValued(subjects, cells, v) && i < |cells|
    ensures OldValued(subjects, cells[..i], v) && OldValued(subjects, cells[..i + 1], v)
    ensures OldClassLessons(subjects, teachers, rooms, c, v, cells[..i + 1])
            == OldClassLessons(subjects, teachers, rooms, c, v, cells[..i]) + OldLessonAt(subjects, teachers, rooms, c, v, cells[i])
  {
    assert cells[..i + 1][..i] == cells[..i];
    assert forall x <- cells[..i + 1] :: x in cells;
  }

  lemma OldCellFresh(subjects: seq<Subject>, teachers: seq<Teacher>, rooms: seq<Room>,
                     c: ClassId, v: map<Cell, nat>, cells: seq<Cell>, i: nat)
    requires OldValued(subjects, cells, v) && Distinct(cells) && i < |cells|
    requires OldValued(subjects, cells[..i], v) && OldValued(subjects, cells[..i + 1], v)
    requires OldClassLessons(subjects, teachers, rooms, c, v, cells[..i + 1])
             == OldClassLessons(subjects, teachers, rooms, c, v, cells[..i]) + OldLessonAt(subjects, teachers, rooms, c, v, cells[i])
    ensures forall l <- OldLessonAt(subjects, teachers, rooms, c, v, cells[i]), y <- OldClassLessons(subjects, teachers, rooms, c, v, cells[..i]) ::
              LessonKey(y) != LessonKey(l)
  {
    var done := OldClassLessons(subjects, teachers, rooms, c, v, cells[..i]);
    var tail := OldLessonAt(subjects, teachers, rooms, c, v, cells[i]);
    if tail != [] {
      assert Distinct(cells[..i + 1]);
      OldClassKeysDistinct(subjects, teachers, rooms, c, v, cells[..i + 1]);
      var all := done + tail;
      forall y <- done ensures LessonKey(y) != LessonKey(tail[0]) {
        var k :| 0 <= k < |done| && done[k] == y;
        assert all[k] == y && all[|done|] == tail[0];
      }
    }
  }

  /** A lesson of a class the table did not hold, with a key new among the class's lessons, is accepted. */
  lemma FreshAfterStart(start: seq<Lesson>, done: seq<Lesson>, l: Lesson)
    requires forall x <- start :: x.schoolClass != l.schoolClass
    requires forall y <- done :: LessonKey(y) != LessonKey(l)
    ensures forall x <- start + done :: LessonKey(x) != LessonKey(l)
    ensures (start + done) + [l] == start + (done + [l])
  {
  }

  /**
   * The cell loop for class `c`: one `Lesson.objects.create` per cell whose
   * subject has a teacher. No create is refused, since the cells are distinct
   * and the table holds no lesson of `c` yet.
   */
  method SaveOldCells(lessons: LessonTable, subjects: seq<Subject>, teachers: seq<Teacher>, rooms: seq<Room>,
                      c: ClassId, v: map<Cell, nat>, cells: seq<Cell>)
    modifies lessons
    requires lessons.Valid() && OldValued(subjects, cells, v) && Distinct(cells)
    requires forall x <- lessons.lessons :: x.schoolClass != c
    ensures lessons.Valid()
    ensures lessons.lessons == old(lessons.lessons) + OldClassLessons(subjects, teachers, rooms, c, v, cells)
  {
    ghost var start := lessons.lessons;
    var i := 0;
    assert OldValued(subjects, cells[..0], v) && cells[..0] == [];
    while i < |cells|
      invariant 0 <= i <= |cells| && OldValued(subjects, cells[..i], v)
      invariant lessons.Valid()
      invariant lessons.lessons == start + OldClassLessons(subjects, teachers, rooms, c, v, cells[..i])
    {
      SaveOldCell(lessons, subjects, teachers, rooms, c, v, cells, i, start);
      i := i + 1;
    }
    assert cells[..i] == cells;
  }

  /** One pass of the cell loop: the lesson of cell `i`, if any, is created and accepted. */
  method SaveOldCell(lessons: LessonTable, subjects: seq<Subject>, teachers: seq<Teacher>, rooms: seq<Room>,
                     c: ClassId, v: map<Cell, nat>, cells: seq<Cell>, i: nat, ghost start: seq<Lesson>)
    modifies lessons
    requires OldValued(subjects, cells, v) && Distinct(cells) && i < |cells|
    requires forall x <- start :: x.schoolClass != c
    requires lessons.Valid() && OldValued(subjects, cells[..i], v)
    requires lessons.lessons == start + OldClassLessons(subjects, teachers, rooms, c, v, cells[..i])
    ensures lessons.Valid() && OldValued(subjects, cells[..i + 1], v)
    ensures lessons.lessons == start + OldClassLessons(subjects, teachers, rooms, c, v, cells[..i + 1])
  {
    OldCellStep(subjects, teachers, rooms, c, v, cells, i);
    ghost var done := OldClassLessons(subjects, teachers, rooms, c, v, cells[..i]);
    var x := cells[i];
    var s := subjects[v[x]];
    var q := Qualified(teachers, s.id);
    if q != [] {
      var l := Lesson(c, s.id, q[0].id, x.day + 1, x.lesson, RoomFor(rooms, s.name));
      assert OldLessonAt(subjects, teachers, rooms, c, v, x) == [l];
      FreshAfterStart(start, done, l);
      var ok := lessons.Create(l);
      assert ok;
    } else {
      assert OldLessonAt(subjects, teachers, rooms, c, v, x) == [];
      assert done + [] == done;
    }
  }

  /** Class `k`'s saved lessons are `per[k]`. */
  ghost predicate OldOfClass(subjects: seq<Subject>, teachers: seq<Teacher>, rooms: seq<Room>, classes: seq<SchoolClass>,
                             excluded: set<int>, value: map<ClassId, map<Cell, nat>>, per: seq<seq<Lesson>>, k: int)
  {
    && 0 <= k < |classes| && k < |per|
    && classes[k].id in value && OldValued(subjects, OldCells(classes[k].shift, excluded), value[classes[k].id])
    && per[k] == OldClassLessons(subjects, teachers, rooms, classes[k].id, value[classes[k].id], OldCells(classes[k].shift, excluded))
  }

  /** The lessons of the first `i` classes belong to those classes. */
  lemma EarlierLessonsClasses(subjects: seq<Subject>, teachers: seq<Teacher>, rooms: seq<Room>, classes: seq<SchoolClass>,
                              excluded: set<int>, value: map<ClassId, map<Cell, nat>>, per: seq<seq<Lesson>>, i: nat)
    requires i <= |classes| == |per|
    requires forall k | 0 <= k < |classes| :: OldOfClass(subjects, teachers, rooms, classes, excluded, value, per, k)
    ensures forall l <- Flatten(per[..i]) :: l.schoolClass in ClassIds(classes[..i])
  {
    forall l: Lesson <- Flatten(per[..i]) ensures l.schoolClass in ClassIds(classes[..i]) {
      FlattenMember(per[..i], l);
      var k :| 0 <= k < i && l in per[..i][k];
      assert OldOfClass(subjects, teachers, rooms, classes, excluded, value, per, k);
      var cls := classes[k];
      OldLessonOrigin(subjects, teachers, rooms, cls.id, value[cls.id], OldCells(cls.shift, excluded), l);
      assert classes[..i][k] == cls;
    }
  }

  /** The lessons of earlier classes are not those of class `i`. */
  lemma LaterClassAbsent(ls: seq<Lesson>, classes: seq<SchoolClass>, i: nat)
    requires UniqueClasses(classes) && i < |classes|
    requires forall l <- ls :: l.schoolClass in ClassIds(classes[..i])
    ensures forall l <- ls :: l.schoolClass != classes[i].id
  {
    forall l <- ls ensures l.schoolClass != classes[i].id {
      var cls :| cls in classes[..i] && cls.id == l.schoolClass;
      var k :| 0 <= k < i && classes[..i][k] == cls;
      assert classes[k] == cls;
    }
  }

  /** The body of the class loop: save class `i`'s cells. */
  method SaveOldClass(lessons: LessonTable, subjects: seq<Subject>, teachers: seq<Teacher>, rooms: seq<Room>,
                      classes: seq<SchoolClass>, excluded: set<int>, value: map<ClassId, map<Cell, nat>>, i: nat,
                      ghost per: seq<seq<Lesson>>)
    modifies lessons
    requires lessons.Valid() && i < |classes| == |per|
    requires forall k | 0 <= k < |classes| :: OldOfClass(subjects, teachers, rooms, classes, excluded, value, per, k)
    requires forall x <- lessons.lessons :: x.schoolClass != classes[i].id
    ensures lessons.Valid()
    ensures lessons.lessons == old(lessons.lessons) + per[i]
  {
    assert OldOfClass(subjects, teachers, rooms, classes, excluded, value, per, i);
    var cls := classes[i];
    OldCellsFacts(cls.shift, excluded);
    SaveOldCells(lessons, subjects, teachers, rooms, cls.id, value[cls.id], OldCells(cls.shift, excluded));
  }

  /** The lessons saved for every class, class by class. */
  ghost function OldLessons(subjects: seq<Subject>, teachers: seq<Teacher>, rooms: seq<Room>, classes: seq<SchoolClass>,
                            excluded: set<int>, value: map<ClassId, map<Cell, nat>>): seq<Lesson>
    requires forall cls <- classes :: cls.id in value && OldValued(subjects, OldCells(cls.shift, excluded), value[cls.id])
  {
    Flatten(OldPerClass(subjects, teachers, rooms, classes, excluded, value))
  }

  ghost function OldPerClass(subjects: seq<Subject>, teachers: seq<Teacher>, rooms: seq<Room>, classes: seq<SchoolClass>,
                             excluded: set<int>, value: map<ClassId, map<Cell, nat>>): (per: seq<seq<Lesson>>)
    requires forall cls <- classes :: cls.id in value && OldValued(subjects, OldCells(cls.shift, excluded), value[cls.id])
    ensures |per| == |classes|
    ensures forall k | 0 <= k < |classes| :: OldOfClass(subjects, teachers, rooms, classes, excluded, value, per, k)
  {
    var per := seq(|classes|, k requires 0 <= k < |classes| =>
      assert classes[k] in classes;
      OldClassLessons(subjects, teachers, rooms, classes[k].id, value[classes[k].id], OldCells(classes[k].shift, excluded)));
    assert forall k | 0 <= k < |classes| :: classes[k] in classes;
    per
  }

  /** The save loop, after the delete: every class's lessons, class by class. */
  method SaveOld(lessons: LessonTable, subjects: seq<Subject>, teachers: seq<Teacher>, rooms: seq<Room>,
                 classes: seq<SchoolClass>, excluded: set<int>, value: map<ClassId, map<Cell, nat>>,
                 ghost per: seq<seq<Lesson>>) returns (saved: nat)
    modifies lessons
    requires lessons.Valid() && lessons.lessons == [] && UniqueClasses(classes) && |per| == |classes|
    requires forall k | 0 <= k < |classes| :: OldOfClass(subjects, teachers, rooms, classes, excluded, value, per, k)
    ensures lessons.Valid()
    ensures lessons.lessons == Flatten(per) && saved == |Flatten(per)|
  {
    var i := 0;
    saved := 0;
    while i < |classes|
      invariant 0 <= i <= |classes|
      invariant lessons.Valid()
      invariant lessons.lessons == Flatten(per[..i]) && saved == |lessons.lessons|
    {
      EarlierLessonsClasses(subjects, teachers, rooms, classes, excluded, value, per, i);
      LaterClassAbsent(lessons.lessons, classes, i);
      SaveOldClass(lessons, subjects, teachers, rooms, classes, excluded, value, i, per);
      FlattenStep(per, i);
      saved := |lessons.lessons|;
      i := i + 1;
    }
    assert per[..i] == per;
  }

  // ---- the sums as written ----

  /**
   * `model.Add(sum(slots) == hours)` raises `TypeError` for a class that has
   * a cell and an hours row: `var == k` is a bounded linear expression,
   * which has no `+`, so `sum` fails at its first addition `0 + (var == k)`.
   * Without cells the list is empty and `sum` is the plain `0`.
   */
  predicate HoursSumRaises(classes: seq<SchoolClass>, excluded: set<int>, rows: seq<SubjectHours>)
  {
    exists cls <- classes :: OldCells(cls.shift, excluded) != [] && ClassRows(rows, cls.id) != []
  }

  /**
   * `model.Add(sum(class_slots) <= teacher_count)` raises the same way at any
   * cell some class has, for any subject with a qualified teacher (every
   * slot of a shift lies in 1..13, so the loop reaches it).
   */
  predicate TeacherSumRaises(subjects: seq<Subject>, teachers: seq<Teacher>, classes: seq<SchoolClass>, excluded: set<int>)
  {
    && (exists cls <- classes :: OldCells(cls.shift, excluded) != [])
    && (exists s <- subjects :: Qualified(teachers, s.id) != [])
  }

  // ---- the run ----

  /**
   * The end of a run: the lessons saved, the exception raised for a status
   * other than the accepted ones, or the `TypeError` of a sum built before
   * the solve.
   */
  datatype OldOutcome = OldSaved(count: nat) | OldRaised(status: SolverStatus) | OldTypeError

  /** Every class has its values when the solver's status says there is a solution. */
  lemma ContractValues(subjects: seq<Subject>, teachers: seq<Teacher>, classes: seq<SchoolClass>,
                       excluded: set<int>, rows: seq<SubjectHours>, sol: OldSolution)
    requires OldContract(subjects, teachers, classes, excluded, rows, sol) && Accepted(sol.status)
    ensures forall cls <- classes :: cls.id in sol.value && OldValued(subjects, OldCells(cls.shift, excluded), sol.value[cls.id])
  {
    forall cls <- classes ensures cls.id in sol.value && OldValued(subjects, OldCells(cls.shift, excluded), sol.value[cls.id]) {
      assert OldClassConstraints(subjects, cls, excluded, rows, sol.value);
    }
  }

  /**
   * The script as written: holidays and variables, then the hours sums,
   * which raise `TypeError` as soon as one is not empty, and the teacher
   * sums, likewise; the solve, then `raise` for every status but FEASIBLE;
   * otherwise, in one transaction, delete every lesson and save the decoded
   * ones. A run that gets past the sums has no subject with a teacher or no
   * cell at all, so it saves nothing.
   */
  method GenerateOldAsWritten(lessons: LessonTable, subjects: seq<Subject>, teachers: seq<Teacher>, rooms: seq<Room>,
                              classes: seq<SchoolClass>, holidays: seq<Holiday>, rows: seq<SubjectHours>, sol: OldSolution)
    returns (outcome: OldOutcome)
    modifies lessons
    requires lessons.Valid() && UniqueClasses(classes) && forall h <- holidays :: ValidDate(h.date)
    requires OldContract(subjects, teachers, classes, WorkdayHolidays(holidays), rows, sol)
    ensures lessons.Valid()
    ensures outcome.OldTypeError? <==>
      HoursSumRaises(classes, WorkdayHolidays(holidays), rows) || TeacherSumRaises(subjects, teachers, classes, WorkdayHolidays(holidays))
    ensures outcome.OldRaised? <==> !outcome.OldTypeError? && sol.status != Feasible
    ensures outcome.OldRaised? ==> outcome.status == sol.status
    ensures !outcome.OldSaved? ==> lessons.lessons == old(lessons.lessons)
    ensures outcome.OldSaved? ==>
      && (forall cls <- classes :: cls.id in sol.value && OldValued(subjects, OldCells(cls.shift, WorkdayHolidays(holidays)), sol.value[cls.id]))
      && lessons.lessons == OldLessons(subjects, teachers, rooms, classes, WorkdayHolidays(holidays), sol.value)
      && lessons.lessons == [] && outcome.count == 0
  {
    var excluded := HolidayWeekdays(holidays);
    if HoursSumRaises(classes, excluded, rows) || TeacherSumRaises(subjects, teachers, classes, excluded) {
      return OldTypeError;
    }
    if sol.status != Feasible {
      return OldRaised(sol.status);
    }
    ContractValues(subjects, teachers, classes, excluded, rows, sol);
    SavedLessonNeedsTeacherSum(subjects, teachers, rooms, classes, excluded, sol.value);
    ghost var per := OldPerClass(subjects, teachers, rooms, classes, excluded, sol.value);
    var deleted := lessons.DeleteAll();
    var count := SaveOld(lessons, subjects, teachers, rooms, classes, excluded, sol.value, per);
    return OldSaved(count);
  }

  /**
   * The run as intended, the model of the rest of this module: each
   * `var == k` reified as a 0/1 count, as the later generators do with
   * `NewBoolVar` and `OnlyEnforceIf`, so the sums count cells and classes
   * (`OldHours`, `OldTeacherBound`); and the acceptance of the other
   * generators, OPTIMAL and FEASIBLE both carrying a solution that is saved.
   */
  method GenerateOld(lessons: LessonTable, subjects: seq<Subject>, teachers: seq<Teacher>, rooms: seq<Room>,
                     classes: seq<SchoolClass>, holidays: seq<Holiday>, rows: seq<SubjectHours>, sol: OldSolution)
    returns (outcome: OldOutcome)
    modifies lessons
    requires lessons.Valid() && UniqueClasses(classes) && forall h <- holidays :: ValidDate(h.date)
    requires OldContract(subjects, teachers, classes, WorkdayHolidays(holidays), rows, sol)
    ensures lessons.Valid()
    ensures outcome.OldRaised? <==> !Accepted(sol.status)
    ensures !outcome.OldTypeError?
    ensures outcome.OldRaised? ==> outcome.status == sol.status && lessons.lessons == old(lessons.lessons)
    ensures outcome.OldSaved? ==>
      && (forall cls <- classes :: cls.id in sol.value && OldValued(subjects, OldCells(cls.shift, WorkdayHolidays(holidays)), sol.value[cls.id]))
      && lessons.lessons == OldLessons(subjects, teachers, rooms, classes, WorkdayHolidays(holidays), sol.value)
      && outcome.count == |lessons.lessons|
  {
    var excluded := HolidayWeekdays(holidays);
    if !Accepted(sol.status) {
      return OldRaised(sol.status);
    }
    ContractValues(subjects, teachers, classes, excluded, rows, sol);
    ghost var per := OldPerClass(subjects, teachers, rooms, classes, excluded, sol.value);
    var deleted := lessons.DeleteAll();
    var count := SaveOld(lessons, subjects, teachers, rooms, classes, excluded, sol.value, per);
    return OldSaved(count);
  }

  // ---- what a saved timetable looks like ----

  /**
   * Every saved lesson sits on a weekday 1..5 that carries no holiday, in a
   * slot of its class's shift, and has its subject's first qualified
   * teacher and the room found for the subject's name.
   */
  lemma OldLessonsPlacement(subjects: seq<Subject>, teachers: seq<Teacher>, rooms: seq<Room>, classes: seq<SchoolClass>,
                            excluded: set<int>, value: map<ClassId, map<Cell, nat>>, l: Lesson)
    requires forall cls <- classes :: cls.id in value && OldValued(subjects, OldCells(cls.shift, excluded), value[cls.id])
    requires l in OldLessons(subjects, teachers, rooms, classes, excluded, value)
    ensures exists cls <- classes :: l.schoolClass == cls.id && l.lessonNumber in SlotsOf(cls.shift)
    ensures 1 <= l.weekday <= OldDays && l.weekday - 1 !in excluded
    ensures Qualified(teachers, l.subject) != [] && l.teacher == Qualified(teachers, l.subject)[0].id
    ensures exists s <- subjects :: s.id == l.subject && l.room == RoomFor(rooms, s.name)
  {
    var per := OldPerClass(subjects, teachers, rooms, classes, excluded, value);
    FlattenMember(per, l);
    var k :| 0 <= k < |per| && l in per[k];
    assert OldOfClass(subjects, teachers, rooms, classes, excluded, value, per, k);
    var cls := classes[k];
    var cells := OldCells(cls.shift, excluded);
    OldLessonOrigin(subjects, teachers, rooms, cls.id, value[cls.id], cells, l);
    var x :| x in cells && l.weekday == x.day + 1 && l.lessonNumber == x.lesson && l.subject == subjects[value[cls.id][x]].id
             && l.room == RoomFor(rooms, subjects[value[cls.id][x]].name);
    OldCellsFacts(cls.shift, excluded);
    assert subjects[value[cls.id][x]] in subjects;
  }

  /**
   * A saved lesson has a subject with a qualified teacher and lies in a
   * cell of its class, so the teacher sums of the script as written were
   * not empty and raised.
   */
  lemma SavedLessonNeedsTeacherSum(subjects: seq<Subject>, teachers: seq<Teacher>, rooms: seq<Room>, classes: seq<SchoolClass>,
                                   excluded: set<int>, value: map<ClassId, map<Cell, nat>>)
    requires forall cls <- classes :: cls.id in value && OldValued(subjects, OldCells(cls.shift, excluded), value[cls.id])
    ensures OldLessons(subjects, teachers, rooms, classes, excluded, value) != [] ==> TeacherSumRaises(subjects, teachers, classes, excluded)
  {
    var ls := OldLessons(subjects, teachers, rooms, classes, excluded, value);
    if ls != [] {
      assert ls[0] in ls;
      LessonMeansTeacherSum(subjects, teachers, rooms, classes, excluded, value, ls[0]);
    }
  }

  lemma LessonMeansTeacherSum(subjects: seq<Subject>, teachers: seq<Teacher>, rooms: seq<Room>, classes: seq<SchoolClass>,
                              excluded: set<int>, value: map<ClassId, map<Cell, nat>>, l: Lesson)
    requires forall cls <- classes :: cls.id in value && OldValued(subjects, OldCells(cls.shift, excluded), value[cls.id])
    requires l in OldLessons(subjects, teachers, rooms, classes, excluded, value)
    ensures TeacherSumRaises(subjects, teachers, classes, excluded)
  {
    OldLessonsPlacement(subjects, teachers, rooms, classes, excluded, value, l);
    TeacherSumAt(subjects, teachers, classes, excluded, l);
  }

  /** A lesson in a cell of some class, of a subject with a teacher: the teacher sum at that cell is not empty. */
  lemma TeacherSumAt(subjects: seq<Subject>, teachers: seq<Teacher>, classes: seq<SchoolClass>, excluded: set<int>, l: Lesson)
    requires exists cls <- classes :: l.schoolClass == cls.id && l.lessonNumber in SlotsOf(cls.shift)
    requires 1 <= l.weekday <= OldDays && l.weekday - 1 !in excluded
    requires Qualified(teachers, l.subject) != [] && exists s <- subjects :: s.id == l.subject
    ensures TeacherSumRaises(subjects, teachers, classes, excluded)
  {
    var cls :| cls in classes && l.schoolClass == cls.id && l.lessonNumber in SlotsOf(cls.shift);
    OldCellsNonEmpty(cls.shift, excluded, l.weekday - 1, l.lessonNumber);
  }

  lemma OldCellsNonEmpty(shift: Shift, excluded: set<int>, day: int, lesson: int)
    requires 0 <= day < OldDays && day !in excluded && lesson in SlotsOf(shift)
    ensures OldCells(shift, excluded) != []
  {
    OldCellsFacts(shift, excluded);
    assert Cell(day, lesson) in OldCells(shift, excluded);
  }

  /**
   * The hours of a solved class: a subject of its plan with a qualified
   * teacher is saved exactly `hours_per_week` times; one without a teacher
   * is not saved at all.
   */
  lemma OldSavedHours(subjects: seq<Subject>, teachers: seq<Teacher>, rooms: seq<Room>, classes: seq<SchoolClass>,
                      excluded: set<int>, rows: seq<SubjectHours>, sol: OldSolution, cls: SchoolClass, r: SubjectHours)
    requires OldContract(subjects, teachers, classes, excluded, rows, sol) && Accepted(sol.status)
    requires DistinctIds(subjects) && cls in classes && r in ClassRows(rows, cls.id)
    ensures cls.id in sol.value && OldValued(subjects, OldCells(cls.shift, excluded), sol.value[cls.id])
    ensures CountLessons(OldClassLessons(subjects, teachers, rooms, cls.id, sol.value[cls.id], OldCells(cls.shift, excluded)), r.subject)
            == if Qualified(teachers, r.subject) == [] then 0 else r.hoursPerWeek
  {
    assert OldClassConstraints(subjects, cls, excluded, rows, sol.value);
    OldCount(subjects, teachers, rooms, cls.id, sol.value[cls.id], OldCells(cls.shift, excluded), r.subject);
  }

  // ---- what the constraints let through ----

  lemma {:induction false} ClassesAtBound(classes: seq<SchoolClass>, value: map<ClassId, map<Cell, nat>>, x: Cell, idx: nat)
    ensures ClassesAt(classes, value, x, idx) <= |classes|
  {
    if classes != [] {
      ClassesAtBound(classes[..|classes| - 1], value, x, idx);
    }
  }

  /** The lesson of a cell is among the class's saved lessons. */
  lemma {:induction false} OldLessonSaved(subjects: seq<Subject>, teachers: seq<Teacher>, rooms: seq<Room>,
                                          c: ClassId, v: map<Cell, nat>, cells: seq<Cell>, x: Cell)
    requires OldValued(subjects, cells, v) && x in cells
    ensures forall l <- OldLessonAt(subjects, teachers, rooms, c, v, x) :: l in OldClassLessons(subjects, teachers, rooms, c, v, cells)
  {
    var pre := cells[..|cells| - 1];
    assert OldValued(subjects, pre, v) by {
      assert forall y <- pre :: y in cells;
    }
    if x != cells[|cells| - 1] {
      assert cells == pre + [cells[|cells| - 1]];
      OldLessonSaved(subjects, teachers, rooms, c, v, pre, x);
    }
  }

  /** One subject with two qualified teachers, taken by two classes of one shift in every cell. */
  function PairSubjects(): seq<Subject>
  {
    [Subject(1, "math", "", Easy)]
  }

  function PairTeachers(): seq<Teacher>
  {
    [Teacher(10, {1}, map[]), Teacher(11, {1}, map[])]
  }

  function PairClasses(shift: Shift): seq<SchoolClass>
  {
    [SchoolClass(1, 5, "A", shift, None), SchoolClass(2, 5, "B", shift, None)]
  }

  function PairValue(shift: Shift, excluded: set<int>): map<ClassId, map<Cell, nat>>
  {
    var m := map x | x in OldCells(shift, excluded) :: 0;
    map[1 := m, 2 := m]
  }

  lemma PairWithinBound(shift: Shift, excluded: set<int>)
    ensures OldTeacherBound(PairSubjects(), PairTeachers(), PairClasses(shift), excluded, PairValue(shift, excluded))
  {
    var subjects, teachers, classes, value := PairSubjects(), PairTeachers(), PairClasses(shift), PairValue(shift, excluded);
    assert Qualified(teachers, 1) == teachers;
    assert SubjectIndex(subjects) == map[1 := 0];
    forall day: int, lesson: int, j: int |
      0 <= day < OldDays && day !in excluded && 1 <= lesson < 14 && 0 <= j < |subjects|
      && subjects[j].id in SubjectIndex(subjects) && |Qualified(teachers, subjects[j].id)| > 0
      ensures ClassesAt(classes, value, Cell(day, lesson), SubjectIndex(subjects)[subjects[j].id]) <= |Qualified(teachers, subjects[j].id)|
    {
      ClassesAtBound(classes, value, Cell(day, lesson), SubjectIndex(subjects)[subjects[j].id]);
    }
  }

  /** Two classes holding one subject in one cell are both saved with the subject's first teacher in that slot. */
  lemma SameSubjectSameTeacher(subjects: seq<Subject>, teachers: seq<Teacher>, rooms: seq<Room>, c1: ClassId, c2: ClassId,
                               v1: map<Cell, nat>, v2: map<Cell, nat>, cells: seq<Cell>, x: Cell)
    requires OldValued(subjects, cells, v1) && OldValued(subjects, cells, v2) && x in cells && v1[x] == v2[x]
    requires Qualified(teachers, subjects[v1[x]].id) != []
    ensures exists l1 <- OldClassLessons(subjects, teachers, rooms, c1, v1, cells),
                   l2 <- OldClassLessons(subjects, teachers, rooms, c2, v2, cells) ::
              l1.teacher == l2.teacher && l1.weekday == l2.weekday && l1.lessonNumber == l2.lessonNumber
  {
    var t1 := OldLessonAt(subjects, teachers, rooms, c1, v1, x);
    var t2 := OldLessonAt(subjects, teachers, rooms, c2, v2, x);
    OldLessonSaved(subjects, teachers, rooms, c1, v1, cells, x);
    OldLessonSaved(subjects, teachers, rooms, c2, v2, cells, x);
    assert t1[0] in t1 && t2[0] in t2;
  }

  /**
   * The per-slot bound counts classes against teachers but the save hands
   * every lesson the first teacher: two classes of one shift may hold the
   * subject in the same cell, within the bound, and both are saved with
   * teacher 10 in that slot. Any shift and any holidays leaving Monday free
   * will do.
   */
  lemma FirstTeacherTwiceInOneSlot(shift: Shift, excluded: set<int>)
    requires 0 !in excluded
    ensures OldTeacherBound(PairSubjects(), PairTeachers(), PairClasses(shift), excluded, PairValue(shift, excluded))
    ensures forall cls <- PairClasses(shift) :: OldValued(PairSubjects(), OldCells(cls.shift, excluded), PairValue(shift, excluded)[cls.id])
    ensures exists l1 <- OldClassLessons(PairSubjects(), PairTeachers(), [], 1, PairValue(shift, excluded)[1], OldCells(shift, excluded)),
                   l2 <- OldClassLessons(PairSubjects(), PairTeachers(), [], 2, PairValue(shift, excluded)[2], OldCells(shift, excluded)) ::
              l1.teacher == l2.teacher && l1.weekday == l2.weekday && l1.lessonNumber == l2.lessonNumber
  {
    PairWithinBound(shift, excluded);
    var subjects, teachers, value := PairSubjects(), PairTeachers(), PairValue(shift, excluded);
    var cells := OldCells(shift, excluded);
    assert forall cls <- PairClasses(shift) :: OldValued(subjects, OldCells(cls.shift, excluded), value[cls.id]) by {
      assert OldValued(subjects, cells, value[1]) && OldValued(subjects, cells, value[2]);
    }
    var x := Cell(0, SlotsOf(shift)[0]);
    assert x in cells by {
      OldCellsFacts(shift, excluded);
    }
    assert Qualified(teachers, subjects[value[1][x]].id) != [] by {
      assert Qualified(teachers, 1) == teachers;
    }
    SameSubjectSameTeacher(subjects, teachers, [], 1, 2, value[1], value[2], cells, x);
  }

  lemma {:induction false} CountTwoValues(cells: seq<Cell>, v: map<Cell, nat>)
    requires forall x <- cells :: x in v && v[x] < 2
    ensures CountCells(cells, v, 0) + CountCells(cells, v, 1) == |cells|
  {
    if cells != [] {
      var pre := cells[..|cells| - 1];
      assert forall x <- pre :: x in cells;
      CountTwoValues(pre, v);
    }
  }

  lemma {:induction false} CountLessonsPositive(ls: seq<Lesson>, s: SubjectId)
    requires CountLessons(ls, s) > 0
    ensures exists l <- ls :: l.subject == s
  {
    var pre := ls[..|ls| - 1];
    if ls[|ls| - 1].subject != s {
      CountLessonsPositive(pre, s);
      var l :| l in pre && l.subject == s;
      assert l in ls;
    } else {
      assert ls[|ls| - 1] in ls;
    }
  }

  /** Two subjects, one teacher for both, and a class whose plan holds the first subject for one hour. */
  function SpareSubjects(): seq<Subject>
  {
    [Subject(1, "math", "", Easy), Subject(2, "art", "", Easy)]
  }

  function SpareTeachers(): seq<Teacher>
  {
    [Teacher(10, {1, 2}, map[])]
  }

  function SpareRows(): seq<SubjectHours>
  {
    [SubjectHours(1, 1, 1)]
  }

  lemma SpareCellsSaved(rooms: seq<Room>, cells: seq<Cell>, v: map<Cell, nat>)
    requires |cells| >= 2 && OldValued(SpareSubjects(), cells, v)
    requires OldHours(SpareSubjects(), cells, SpareRows(), v)
    ensures exists l <- OldClassLessons(SpareSubjects(), SpareTeachers(), rooms, 1, v, cells) ::
              l.subject !in set r <- SpareRows() :: r.subject
  {
    var subjects, teachers := SpareSubjects(), SpareTeachers();
    var saved := OldClassLessons(subjects, teachers, rooms, 1, v, cells);
    assert SubjectIndex(subjects) == map[1 := 0, 2 := 1];
    assert CountCells(cells, v, 0) == 1 by {
      assert SpareRows()[0] in SpareRows();
    }
    assert CountLessons(saved, 2) > 0 by {
      CountTwoValues(cells, v);
      assert Qualified(teachers, 2) == teachers;
      assert DistinctIds(subjects);
      OldCount(subjects, teachers, rooms, 1, v, cells, 2);
    }
    CountLessonsPositive(saved, 2);
    SpareRowSubjects();
  }

  /**
   * There is no empty value: every cell holds some subject. A class with
   * more cells than planned hours (here any class with a free Monday and a
   * one-hour plan) gets its spare cells filled with a subject outside its
   * plan, and those lessons are saved.
   */
  lemma UnplannedSubjectSaved(shift: Shift, excluded: set<int>, rooms: seq<Room>, v: map<Cell, nat>)
    requires 0 !in excluded
    requires OldValued(SpareSubjects(), OldCells(shift, excluded), v)
    requires OldHours(SpareSubjects(), OldCells(shift, excluded), SpareRows(), v)
    ensures exists l <- OldClassLessons(SpareSubjects(), SpareTeachers(), rooms, 1, v, OldCells(shift, excluded)) ::
              l.subject !in set r <- SpareRows() :: r.subject
  {
    FreeMondayCells(shift, excluded);
    SpareCellsSaved(rooms, OldCells(shift, excluded), v);
  }

  /** A class whose Monday is not excluded has at least the Monday slots as cells. */
  lemma FreeMondayCells(shift: Shift, excluded: set<int>)
    requires 0 !in excluded
    ensures |OldCells(shift, excluded)| >= 2
  {
    assert OldCells(shift, excluded) == DayCells(shift, 0) + OldCellsFrom(shift, excluded, 1);
  }

  /** The one-hour plan names subject 1 only. */
  lemma SpareRowSubjects()
    ensures (set r <- SpareRows() :: r.subject) == {1}
  {
    assert SpareRows()[0] in SpareRows();
  }

  /** The class of the one-hour plan, in the first shift. */
  function SpareClasses(): seq<SchoolClass>
  {
    [SchoolClass(1, 5, "A", First, None)]
  }

  /**
   * As written, the script raises on the one-hour plan without holidays:
   * the class has cells and an hours row, and both subjects have a teacher.
   */
  lemma SpareRunRaises()
    ensures HoursSumRaises(SpareClasses(), WorkdayHolidays([]), SpareRows())
    ensures TeacherSumRaises(SpareSubjects(), SpareTeachers(), SpareClasses(), WorkdayHolidays([]))
  {
    var excluded := WorkdayHolidays([]);
    assert excluded == {};
    FreeMondayCells(First, excluded);
    assert SpareClasses()[0] in SpareClasses();
    assert SpareRows()[0] in ClassRows(SpareRows(), 1);
    assert SpareSubjects()[0] in SpareSubjects();
    assert Qualified(SpareTeachers(), 1) == SpareTeachers();
  }
}
