/**
 * The `fiftyfifty1` generator variant, value level: subjects are numbered by
 * their position and the number of subjects is the "empty slot" sentinel;
 * every (day, slot) cell of a class holds one such number; a class-subject
 * pair with qualified teachers gets one boolean per teacher, exactly one of
 * them true; the decode step turns the solved cells into lesson drafts.
 */
module FiftyFifty {
  import opened Common
  import opened Calendar
  import opened Models
  import opened Validator

  /** `DAYS`: the generator's six weekdays, numbered 0..5 while solving. */
  const Days: nat := 6

  // ---- subject numbering ----

  /** Subjects as loaded: primary keys are distinct. */
  predicate DistinctIds(subjects: seq<Subject>)
  {
    forall i, j | 0 <= i < |subjects| && 0 <= j < |subjects| && i != j :: subjects[i].id != subjects[j].id
  }

  /** `subject_index`: a subject id to its position in the list. */
  function SubjectIndex(subjects: seq<Subject>): (m: map<SubjectId, nat>)
    ensures m.Keys == set x <- subjects :: x.id
    ensures forall id <- m.Keys :: m[id] < |subjects| && subjects[m[id]].id == id
  {
    if subjects == [] then map[]
    else
      var pre := subjects[..|subjects| - 1];
      assert forall x <- pre :: x in subjects;
      SubjectIndex(pre)[subjects[|subjects| - 1].id := |subjects| - 1]
  }

  /** `index_to_subject`: a position to the subject there. */
  function IndexToSubject(subjects: seq<Subject>): map<nat, Subject>
  {
    map i: nat | i < |subjects| :: subjects[i]
  }

  /** `FAKE_SUBJECT_INDEX`: the value of a cell that holds no lesson. */
  function FakeIndex(subjects: seq<Subject>): nat
  {
    |subjects|
  }

  /**
   * The two numberings are inverse to each other over positions 0..n-1, and
   * the sentinel is neither a position nor the number of any subject.
   */
  lemma {:induction false} IndexRoundTrip(subjects: seq<Subject>)
    requires DistinctIds(subjects)
    ensures forall i | 0 <= i < |subjects| :: SubjectIndex(subjects)[subjects[i].id] == i
    ensures forall id <- SubjectIndex(subjects).Keys ::
      SubjectIndex(subjects)[id] in IndexToSubject(subjects) && IndexToSubject(subjects)[SubjectIndex(subjects)[id]].id == id
    ensures FakeIndex(subjects) !in IndexToSubject(subjects)
    ensures forall id <- SubjectIndex(subjects).Keys :: SubjectIndex(subjects)[id] != FakeIndex(subjects)
  {
    if subjects != [] {
      var pre := subjects[..|subjects| - 1];
      assert DistinctIds(pre) by {
        forall i, j | 0 <= i < |pre| && 0 <= j < |pre| && i != j ensures pre[i].id != pre[j].id {
          assert pre[i] == subjects[i] && pre[j] == subjects[j];
        }
      }
      IndexRoundTrip(pre);
      forall i | 0 <= i < |subjects| ensures SubjectIndex(subjects)[subjects[i].id] == i {
        if i < |pre| {
          assert pre[i] == subjects[i];
        }
      }
    }
  }

  // ---- the cell grid ----

  /** A (day, lesson number) cell; `day` counts from 0. */
  datatype Cell = Cell(day: int, lesson: int)

  function DayCells(shift: Shift, day: int): (cs: seq<Cell>)
    ensures |cs| == |SlotsOf(shift)|
    ensures forall i | 0 <= i < |cs| :: cs[i] == Cell(day, SlotsOf(shift)[i])
  {
    seq(|SlotsOf(shift)|, i requires 0 <= i < |SlotsOf(shift)| => Cell(day, SlotsOf(shift)[i]))
  }

  /** The cells from `day` on, day by day and slot by slot, the order in which the variables are created. */
  function CellsFrom(shift: Shift, day: nat): seq<Cell>
    decreases Days - day
  {
    if day >= Days then [] else DayCells(shift, day) + CellsFrom(shift, day + 1)
  }

  lemma DayCellsMembers(shift: Shift, day: int)
    ensures forall x: Cell :: x in DayCells(shift, day) <==> x.day == day && x.lesson in SlotsOf(shift)
  {
    var row := DayCells(shift, day);
    forall x: Cell | x.day == day && x.lesson in SlotsOf(shift) ensures x in row {
      var i :| 0 <= i < |SlotsOf(shift)| && SlotsOf(shift)[i] == x.lesson;
      assert row[i] == x;
    }
  }

  lemma {:induction false} CellsFromMembers(shift: Shift, day: nat)
    ensures forall x: Cell :: x in CellsFrom(shift, day) <==> day <= x.day < Days && x.lesson in SlotsOf(shift)
    decreases Days - day
  {
    if day < Days {
      DayCellsMembers(shift, day);
      CellsFromMembers(shift, day + 1);
    }
  }

  /** The cells of a class of `shift`: six days times the shift's slots. */
  function Cells(shift: Shift): seq<Cell>
  {
    CellsFrom(shift, 0)
  }

  lemma DistinctConcat<T>(a: seq<T>, b: seq<T>)
    requires Distinct(a) && Distinct(b)
    requires forall x <- a :: x !in b
    ensures Distinct(a + b)
  {
    forall i, j | 0 <= i < |a + b| && 0 <= j < |a + b| && i != j ensures (a + b)[i] != (a + b)[j] {
      if i < |a| && j >= |a| {
        assert (a + b)[i] == a[i] && (a + b)[j] == b[j - |a|];
        assert a[i] in a && b[j - |a|] in b;
      } else if j < |a| && i >= |a| {
        assert (a + b)[j] == a[j] && (a + b)[i] == b[i - |a|];
        assert a[j] in a && b[i - |a|] in b;
      } else if i >= |a| {
        assert (a + b)[i] == b[i - |a|] && (a + b)[j] == b[j - |a|];
      } else {
        assert (a + b)[i] == a[i] && (a + b)[j] == a[j];
      }
    }
  }

  lemma DayCellsDistinct(shift: Shift, day: int)
    ensures Distinct(DayCells(shift, day))
  {
    var row := DayCells(shift, day);
    SlotFacts(shift, 0);
    forall i, j | 0 <= i < |row| && 0 <= j < |row| && i != j ensures row[i] != row[j] {
      assert row[i].lesson == SlotsOf(shift)[i] && row[j].lesson == SlotsOf(shift)[j];
    }
  }

  lemma DayCellsBeforeRest(shift: Shift, day: nat)
    requires day < Days
    ensures forall x <- DayCells(shift, day) :: x !in CellsFrom(shift, day + 1)
  {
    CellsFromMembers(shift, day + 1);
    forall x <- DayCells(shift, day) ensures x !in CellsFrom(shift, day + 1) {
      assert x.day == day;
    }
  }

  lemma {:induction false} CellsFromDistinct(shift: Shift, day: nat)
    ensures Distinct(CellsFrom(shift, day))
    decreases Days - day
  {
    if day < Days {
      var row, rest := DayCells(shift, day), CellsFrom(shift, day + 1);
      DayCellsDistinct(shift, day);
      DayCellsBeforeRest(shift, day);
      CellsFromDistinct(shift, day + 1);
      DistinctConcat(row, rest);
    }
  }

  /** Every cell of the grid occurs once, and the grid has one cell per (day, slot) of the shift. */
  lemma CellsDistinct(shift: Shift)
    ensures Distinct(Cells(shift))
    ensures forall x :: x in Cells(shift) <==> 0 <= x.day < Days && x.lesson in SlotsOf(shift)
  {
    CellsFromDistinct(shift, 0);
    CellsFromMembers(shift, 0);
  }

  // ---- the constraint model ----

  /**
   * `allowed_subject_indexes`: the numbers of the class's subjects plus the
   * sentinel.
   */
  function Domain(subjects: seq<Subject>, rows: seq<SubjectHours>): (d: set<nat>)
    ensures FakeIndex(subjects) in d
    ensures forall j <- d :: j <= |subjects|
    ensures forall j <- d :: j == FakeIndex(subjects) || exists r <- rows :: subjects[j].id == r.subject
  {
    (set r <- rows | r.subject in SubjectIndex(subjects) :: SubjectIndex(subjects)[r.subject]) + {FakeIndex(subjects)}
  }

  /** How many of `cells` hold `idx`: the `sum(bools)` of the hours constraint. */
  function CountCells(cells: seq<Cell>, v: map<Cell, nat>, idx: nat): nat
    requires forall x <- cells :: x in v
  {
    if cells == [] then 0
    else CountCells(cells[..|cells| - 1], v, idx) + (if v[cells[|cells| - 1]] == idx then 1 else 0)
  }

  /** The indexes of the true booleans of a list. */
  function TrueIndexes(bs: seq<bool>): set<nat>
  {
    set i: nat | i < |bs| && bs[i]
  }

  /** `AddExactlyOne`. */
  predicate ExactlyOne(bs: seq<bool>)
  {
    |TrueIndexes(bs)| == 1
  }

  /** The keys of `teacher_assignment`: pairs of a class and a subject of its rows that has a qualified teacher. */
  function BindingKeys(cls: SchoolClass, rows: seq<SubjectHours>, teachers: seq<Teacher>): set<(ClassId, SubjectId)>
  {
    set r <- rows | |Qualified(teachers, r.subject)| > 0 :: (cls.id, r.subject)
  }

  /** Each binding list has one boolean per qualified teacher, in teacher order. */
  predicate Shaped(bound: map<(ClassId, SubjectId), seq<bool>>, teachers: seq<Teacher>)
  {
    forall k <- bound.Keys :: |bound[k]| == |Qualified(teachers, k.1)|
  }

  /** Every cell holds a value of the class's domain. */
  ghost predicate CellsInDomain(subjects: seq<Subject>, cls: SchoolClass, rows: seq<SubjectHours>, v: map<Cell, nat>)
  {
    forall x <- Cells(cls.shift) :: x in v && v[x] in Domain(subjects, rows)
  }

  /** `model.Add(sum(bools) == hours)`: each subject of the class fills exactly its weekly hours. */
  ghost predicate HoursFilled(subjects: seq<Subject>, cls: SchoolClass, rows: seq<SubjectHours>, v: map<Cell, nat>)
    requires forall x <- Cells(cls.shift) :: x in v
  {
    forall r <- rows | r.subject in SubjectIndex(subjects) ::
      CountCells(Cells(cls.shift), v, SubjectIndex(subjects)[r.subject]) == r.hoursPerWeek
  }

  /** `model.AddExactlyOne(teacher_vars)` for every pair with qualified teachers. */
  ghost predicate TeachersBound(teachers: seq<Teacher>, cls: SchoolClass, rows: seq<SubjectHours>, bound: map<(ClassId, SubjectId), seq<bool>>)
  {
    forall k <- BindingKeys(cls, rows, teachers) :: k in bound && ExactlyOne(bound[k])
  }

  /**
   * The constraints of one class over its rebuilt hours rows: every cell
   * holds a value of the domain, each subject fills exactly its weekly hours,
   * and exactly one teacher is bound per subject with qualified teachers.
   */
  ghost predicate ClassConstraints(subjects: seq<Subject>, teachers: seq<Teacher>, cls: SchoolClass,
                                   rows: seq<SubjectHours>, v: map<Cell, nat>, bound: map<(ClassId, SubjectId), seq<bool>>)
  {
    && CellsInDomain(subjects, cls, rows, v)
    && HoursFilled(subjects, cls, rows, v)
    && TeachersBound(teachers, cls, rows, bound)
  }

  // ---- the vacuous clash constraint ----

  // The per-(cell, subject, teacher) booleans `b` of lines 125-136 are not
  // modelled: `var == subj_idx` is enforced only when `b` holds, and `b`
  // only implies the binding and the busy flag, so every `b` may be false
  // and they restrict neither a cell's value nor the teacher bindings.

  /** A key of `all_teacher_lessons`: (teacher, day, lesson number). */
  type BusyKey = (TeacherId, int, int)

  /** The sum of lines 138-146 for `key`: the entries of the dict with that key and that very variable. */
  function ClashSum(busy: set<BusyKey>, key: BusyKey): nat
  {
    |set k <- busy | k == key|
  }

  ghost predicate ClashConstraints(busy: set<BusyKey>)
  {
    forall key <- busy :: ClashSum(busy, key) <= 1
  }

  /** A dict holds each key once, so every sum is exactly 1 and the constraint holds whatever is assigned. */
  lemma ClashSumIsOne(busy: set<BusyKey>, key: BusyKey)
    requires key in busy
    ensures ClashSum(busy, key) == 1
  {
    assert (set k <- busy | k == key) == {key};
  }

  lemma ClashConstraintsVacuous(busy: set<BusyKey>)
    ensures ClashConstraints(busy)
  {
    forall key <- busy ensures ClashSum(busy, key) <= 1 {
      ClashSumIsOne(busy, key);
    }
  }

  // ---- decode ----

  /** The first index whose boolean is true: the `for ... if ...: break` of the decode. */
  function FirstTrue(bs: seq<bool>): (r: Option<nat>)
    ensures r.Some? ==> r.value < |bs| && bs[r.value] && forall j | 0 <= j < r.value :: !bs[j]
    ensures r.None? <==> forall j | 0 <= j < |bs| :: !bs[j]
  {
    if bs == [] then None
    else if bs[0] then Some(0)
    else match FirstTrue(bs[1..])
      case None => None
      case Some(i) => Some(i + 1)
  }

  /** With exactly one true boolean, the first true one is that one. */
  lemma FirstTrueOfExactlyOne(bs: seq<bool>)
    requires ExactlyOne(bs)
    ensures FirstTrue(bs).Some? && TrueIndexes(bs) == {FirstTrue(bs).value}
  {
    var i :| i in TrueIndexes(bs);
    assert FirstTrue(bs).Some?;
    var f := FirstTrue(bs).value;
    assert f in TrueIndexes(bs);
    var rest := TrueIndexes(bs) - {f};
    assert |rest| == 0;
    assert rest == {};
  }

  /** The teacher the decode gives a lesson of (c, s): the one whose binding is true, or none. */
  function AssignedTeacher(teachers: seq<Teacher>, bound: map<(ClassId, SubjectId), seq<bool>>, c: ClassId, s: SubjectId): (r: Option<TeacherId>)
    requires Shaped(bound, teachers)
    ensures r.Some? ==> (c, s) in bound && exists t <- Qualified(teachers, s) :: t.id == r.value
  {
    if (c, s) in bound then
      match FirstTrue(bound[(c, s)])
      case Some(i) =>
        var t := Qualified(teachers, s)[i];
        assert t in Qualified(teachers, s);
        Some(t.id)
      case None => None
    else None
  }

  /** A lesson as decoded, before it is written: the teacher may be missing. */
  datatype Draft = Draft(schoolClass: ClassId, subject: SubjectId, teacher: Option<TeacherId>, weekday: int, lessonNumber: int)

  /** The well-formed assignment of one class: every cell has a value, and a value is a position or the sentinel. */
  predicate Valued(subjects: seq<Subject>, cells: seq<Cell>, v: map<Cell, nat>)
  {
    forall x <- cells :: x in v && v[x] <= |subjects|
  }

  /** The decode of one cell: nothing for the sentinel, else a draft on weekday `day + 1`. */
  function DraftAt(subjects: seq<Subject>, teachers: seq<Teacher>, bound: map<(ClassId, SubjectId), seq<bool>>,
                   c: ClassId, v: map<Cell, nat>, x: Cell): seq<Draft>
    requires Shaped(bound, teachers) && x in v && v[x] <= |subjects|
  {
    if v[x] == FakeIndex(subjects) then []
    else
      var s := subjects[v[x]].id;
      [Draft(c, s, AssignedTeacher(teachers, bound, c, s), x.day + 1, x.lesson)]
  }

  /** The decode of a class's cells, in cell order. */
  function DecodeCells(subjects: seq<Subject>, teachers: seq<Teacher>, bound: map<(ClassId, SubjectId), seq<bool>>,
                       c: ClassId, v: map<Cell, nat>, cells: seq<Cell>): seq<Draft>
    requires Shaped(bound, teachers) && Valued(subjects, cells, v)
  {
    if cells == [] then []
    else
      var pre := cells[..|cells| - 1];
      assert Valued(subjects, pre, v) by {
        assert forall x <- pre :: x in cells;
      }
      DecodeCells(subjects, teachers, bound, c, v, pre) + DraftAt(subjects, teachers, bound, c, v, cells[|cells| - 1])
  }

  /** How many drafts are of subject `s`. */
  function CountSubject(ds: seq<Draft>, s: SubjectId): nat
  {
    if ds == [] then 0
    else CountSubject(ds[..|ds| - 1], s) + (if ds[|ds| - 1].subject == s then 1 else 0)
  }

  lemma {:induction false} CountSubjectAppend(a: seq<Draft>, b: seq<Draft>, s: SubjectId)
    ensures CountSubject(a + b, s) == CountSubject(a, s) + CountSubject(b, s)
    decreases |b|
  {
    if b == [] {
      assert a + b == a;
    } else {
      assert (a + b)[..|a + b| - 1] == a + b[..|b| - 1];
      CountSubjectAppend(a, b[..|b| - 1], s);
    }
  }

  /** Every draft comes from a non-sentinel cell: its class, its subject, weekday `day + 1`, the cell's lesson number. */
  lemma {:induction false} DraftOrigin(subjects: seq<Subject>, teachers: seq<Teacher>, bound: map<(ClassId, SubjectId), seq<bool>>,
                                       c: ClassId, v: map<Cell, nat>, cells: seq<Cell>, d: Draft)
    requires Shaped(bound, teachers) && Valued(subjects, cells, v)
    requires d in DecodeCells(subjects, teachers, bound, c, v, cells)
    ensures d.schoolClass == c && d.teacher == AssignedTeacher(teachers, bound, c, d.subject)
    ensures exists x <- cells :: v[x] < |subjects| && d.subject == subjects[v[x]].id
                                 && d.weekday == x.day + 1 && d.lessonNumber == x.lesson
  {
    var pre, x := cells[..|cells| - 1], cells[|cells| - 1];
    assert Valued(subjects, pre, v) by {
      assert forall y <- pre :: y in cells;
    }
    if d in DecodeCells(subjects, teachers, bound, c, v, pre) {
      DraftOrigin(subjects, teachers, bound, c, v, pre, d);
      var y :| y in pre && v[y] < |subjects| && d.subject == subjects[v[y]].id && d.weekday == y.day + 1 && d.lessonNumber == y.lesson;
      assert y in cells;
    } else {
      assert d in DraftAt(subjects, teachers, bound, c, v, x);
    }
  }

  /**
   * The decode writes exactly one draft per cell holding the subject's
   * number: a subject's drafts are as many as the cells assigned to it.
   */
  lemma {:induction false} DecodeCount(subjects: seq<Subject>, teachers: seq<Teacher>, bound: map<(ClassId, SubjectId), seq<bool>>,
                                       c: ClassId, v: map<Cell, nat>, cells: seq<Cell>, s: SubjectId)
    requires Shaped(bound, teachers) && Valued(subjects, cells, v)
    requires DistinctIds(subjects) && s in SubjectIndex(subjects)
    ensures CountSubject(DecodeCells(subjects, teachers, bound, c, v, cells), s) == CountCells(cells, v, SubjectIndex(subjects)[s])
  {
    if cells != [] {
      var pre, x := cells[..|cells| - 1], cells[|cells| - 1];
      assert Valued(subjects, pre, v) by {
        assert forall y <- pre :: y in cells;
      }
      DecodeCount(subjects, teachers, bound, c, v, pre, s);
      var tail := DraftAt(subjects, teachers, bound, c, v, x);
      CountSubjectAppend(DecodeCells(subjects, teachers, bound, c, v, pre), tail, s);
      IndexRoundTrip(subjects);
      if v[x] != FakeIndex(subjects) {
        assert [tail[0]][..0] == [];
        assert tail == [tail[0]];
        assert CountSubject(tail, s) == if subjects[v[x]].id == s then 1 else 0;
        assert subjects[v[x]].id == s <==> v[x] == SubjectIndex(subjects)[s];
      }
    }
  }

  /** No two drafts share a (weekday, lesson number). */
  predicate DistinctSlots(ds: seq<Draft>)
  {
    forall i, j | 0 <= i < |ds| && 0 <= j < |ds| && i != j :: (ds[i].weekday, ds[i].lessonNumber) != (ds[j].weekday, ds[j].lessonNumber)
  }

  /** Distinct cells give drafts with distinct (weekday, lesson number). */
  lemma {:induction false} DecodeKeysDistinct(subjects: seq<Subject>, teachers: seq<Teacher>, bound: map<(ClassId, SubjectId), seq<bool>>,
                                              c: ClassId, v: map<Cell, nat>, cells: seq<Cell>)
    requires Shaped(bound, teachers) && Valued(subjects, cells, v) && Distinct(cells)
    ensures DistinctSlots(DecodeCells(subjects, teachers, bound, c, v, cells))
  {
    if cells != [] {
      var pre, x := cells[..|cells| - 1], cells[|cells| - 1];
      assert Valued(subjects, pre, v) by {
        assert forall y <- pre :: y in cells;
      }
      assert Distinct(pre) by {
        forall i, j | 0 <= i < |pre| && 0 <= j < |pre| && i != j ensures pre[i] != pre[j] {
          assert pre[i] == cells[i] && pre[j] == cells[j];
        }
      }
      assert x !in pre by {
        forall i | 0 <= i < |pre| ensures pre[i] != x {
          assert pre[i] == cells[i];
        }
      }
      DecodeKeysDistinct(subjects, teachers, bound, c, v, pre);
      var ds0 := DecodeCells(subjects, teachers, bound, c, v, pre);
      var tail := DraftAt(subjects, teachers, bound, c, v, x);
      var ds := ds0 + tail;
      forall d <- ds0 ensures (d.weekday, d.lessonNumber) != (x.day + 1, x.lesson) {
        DraftOrigin(subjects, teachers, bound, c, v, pre, d);
      }
      forall i, j | 0 <= i < |ds| && 0 <= j < |ds| && i != j
        ensures (ds[i].weekday, ds[i].lessonNumber) != (ds[j].weekday, ds[j].lessonNumber)
      {
        if i < |ds0| && j < |ds0| {
          assert ds[i] == ds0[i] && ds[j] == ds0[j];
        } else if i < |ds0| {
          assert ds[i] == ds0[i] && ds[i] in ds0;
        } else if j < |ds0| {
          assert ds[j] == ds0[j] && ds[j] in ds0;
        }
      }
    }
  }

  lemma {:induction false} CountSubjectPositive(ds: seq<Draft>, s: SubjectId)
    requires CountSubject(ds, s) > 0
    ensures exists d <- ds :: d.subject == s
  {
    var pre := ds[..|ds| - 1];
    if ds[|ds| - 1].subject != s {
      CountSubjectPositive(pre, s);
      var d :| d in pre && d.subject == s;
      assert d in ds;
    }
  }

  /**
   * A pair with qualified teachers gets the teacher of its one true binding;
   * a pair without any gets no teacher.
   */
  lemma BoundTeacher(teachers: seq<Teacher>, bound: map<(ClassId, SubjectId), seq<bool>>, cls: SchoolClass,
                     rows: seq<SubjectHours>, r: SubjectHours)
    requires Shaped(bound, teachers) && r in rows
    requires TeachersBound(teachers, cls, rows, bound)
    ensures |Qualified(teachers, r.subject)| > 0 ==> AssignedTeacher(teachers, bound, cls.id, r.subject).Some?
    ensures |Qualified(teachers, r.subject)| == 0 ==> AssignedTeacher(teachers, bound, cls.id, r.subject).None?
  {
    var k := (cls.id, r.subject);
    if |Qualified(teachers, r.subject)| > 0 {
      assert k in BindingKeys(cls, rows, teachers);
      FirstTrueOfExactlyOne(bound[k]);
    }
  }

  /** Values within the domain are positions or the sentinel. */
  lemma ConstrainedIsValued(subjects: seq<Subject>, teachers: seq<Teacher>, cls: SchoolClass,
                            rows: seq<SubjectHours>, v: map<Cell, nat>, bound: map<(ClassId, SubjectId), seq<bool>>)
    requires CellsInDomain(subjects, cls, rows, v)
    ensures Valued(subjects, Cells(cls.shift), v)
  {
  }

  /**
   * Where the decode of a solved class puts its drafts: that class, weekdays
   * 1..6, slots of its shift, subjects of the class's rows.
   */
  lemma DecodedPlacement(subjects: seq<Subject>, teachers: seq<Teacher>, cls: SchoolClass,
                         rows: seq<SubjectHours>, v: map<Cell, nat>, bound: map<(ClassId, SubjectId), seq<bool>>, d: Draft)
    requires Shaped(bound, teachers) && CellsInDomain(subjects, cls, rows, v)
    requires Valued(subjects, Cells(cls.shift), v)
    requires d in DecodeCells(subjects, teachers, bound, cls.id, v, Cells(cls.shift))
    ensures d.schoolClass == cls.id && d.weekday in Weekdays && d.lessonNumber in SlotsOf(cls.shift)
    ensures exists r <- rows :: r.subject == d.subject
  {
    var cells := Cells(cls.shift);
    DraftOrigin(subjects, teachers, bound, cls.id, v, cells, d);
    var x :| x in cells && v[x] < |subjects| && d.subject == subjects[v[x]].id && d.weekday == x.day + 1 && d.lessonNumber == x.lesson;
    CellPlacement(cls.shift, x);
    assert v[x] in Domain(subjects, rows);
  }

  lemma CellPlacement(shift: Shift, x: Cell)
    requires x in Cells(shift)
    ensures x.day + 1 in Weekdays && x.lesson in SlotsOf(shift)
  {
    assert 0 <= x.day < Days && x.lesson in SlotsOf(shift) by {
      CellsFromMembers(shift, 0);
    }
    DayIsWeekday(x.day);
  }

  /** Day `d` of the variables is stored as weekday `d + 1`. */
  lemma DayIsWeekday(d: int)
    requires 0 <= d < Days
    ensures d + 1 in Weekdays
  {
    assert Weekdays[d] == d + 1;
  }

  /**
   * What the decode of a solved class yields: placed drafts, no two in one
   * slot, and exactly `hours_per_week` drafts per hours row.
   */
  lemma DecodedClassProperties(subjects: seq<Subject>, teachers: seq<Teacher>, cls: SchoolClass,
                               rows: seq<SubjectHours>, v: map<Cell, nat>, bound: map<(ClassId, SubjectId), seq<bool>>)
    requires DistinctIds(subjects) && Shaped(bound, teachers)
    requires ClassConstraints(subjects, teachers, cls, rows, v, bound)
    ensures Valued(subjects, Cells(cls.shift), v)
    ensures var ds := DecodeCells(subjects, teachers, bound, cls.id, v, Cells(cls.shift));
      && (forall d <- ds :: d.schoolClass == cls.id && d.weekday in Weekdays && d.lessonNumber in SlotsOf(cls.shift))
      && (forall d <- ds :: exists r <- rows :: r.subject == d.subject)
      && DistinctSlots(ds)
      && (forall r <- rows | r.subject in SubjectIndex(subjects) :: CountSubject(ds, r.subject) == r.hoursPerWeek)
  {
    var cells := Cells(cls.shift);
    ConstrainedIsValued(subjects, teachers, cls, rows, v, bound);
    var ds := DecodeCells(subjects, teachers, bound, cls.id, v, cells);
    forall d <- ds
      ensures d.schoolClass == cls.id && d.weekday in Weekdays && d.lessonNumber in SlotsOf(cls.shift)
      ensures exists r <- rows :: r.subject == d.subject
    {
      DecodedPlacement(subjects, teachers, cls, rows, v, bound, d);
    }
    CellsDistinct(cls.shift);
    DecodeKeysDistinct(subjects, teachers, bound, cls.id, v, cells);
    forall r <- rows | r.subject in SubjectIndex(subjects) ensures CountSubject(ds, r.subject) == r.hoursPerWeek {
      DecodeCount(subjects, teachers, bound, cls.id, v, cells, r.subject);
    }
  }

  /**
   * Every draft of a class-subject pair carries the same teacher: the
   * qualified teacher of its true binding when the subject has qualified
   * teachers, and none otherwise; a row with hours but no qualified teacher
   * therefore yields a draft without a teacher.
   */
  lemma DecodedTeachers(subjects: seq<Subject>, teachers: seq<Teacher>, cls: SchoolClass,
                        rows: seq<SubjectHours>, v: map<Cell, nat>, bound: map<(ClassId, SubjectId), seq<bool>>, r: SubjectHours)
    requires DistinctIds(subjects) && Shaped(bound, teachers)
    requires ClassConstraints(subjects, teachers, cls, rows, v, bound) && r in rows
    ensures Valued(subjects, Cells(cls.shift), v)
    ensures var ds := DecodeCells(subjects, teachers, bound, cls.id, v, Cells(cls.shift));
      && (|Qualified(teachers, r.subject)| > 0 ==>
            exists t <- Qualified(teachers, r.subject) :: forall d <- ds | d.subject == r.subject :: d.teacher == Some(t.id))
      && (|Qualified(teachers, r.subject)| == 0 ==> forall d <- ds | d.subject == r.subject :: d.teacher.None?)
      && (|Qualified(teachers, r.subject)| == 0 && r.hoursPerWeek > 0 && r.subject in SubjectIndex(subjects) ==>
            exists d <- ds :: d.teacher.None?)
  {
    var cells := Cells(cls.shift);
    ConstrainedIsValued(subjects, teachers, cls, rows, v, bound);
    var ds := DecodeCells(subjects, teachers, bound, cls.id, v, cells);
    var a := AssignedTeacher(teachers, bound, cls.id, r.subject);
    BoundTeacher(teachers, bound, cls, rows, r);
    forall d <- ds | d.subject == r.subject ensures d.teacher == a {
      DraftOrigin(subjects, teachers, bound, cls.id, v, cells, d);
    }
    if |Qualified(teachers, r.subject)| > 0 {
      var t :| t in Qualified(teachers, r.subject) && t.id == a.value;
    }
    if |Qualified(teachers, r.subject)| == 0 && r.hoursPerWeek > 0 && r.subject in SubjectIndex(subjects) {
      DecodedClassProperties(subjects, teachers, cls, rows, v, bound);
      CountSubjectPositive(ds, r.subject);
    }
  }
}
