/**
 * The records of the school database: enumerations, rows, and the uniqueness
 * constraints each table declares. Identifiers are natural numbers; a foreign
 * key is the identifier of the row it refers to.
 */
module Models {
  import opened Common
  import opened Calendar

  type ClassId = nat
  type SubjectId = nat
  type TeacherId = nat
  type RoomId = nat
  type PlanId = nat
  type EntryId = nat

  // ---- Shift: stored as the one-character codes "1" and "2" ----

  function ShiftCode(s: Shift): string
  {
    if s == First then "1" else "2"
  }

  function ShiftFromCode(code: string): Option<Shift>
  {
    if code == "1" then Some(First) else if code == "2" then Some(Second) else None
  }

  /** The stored code and the enumeration are in one-to-one correspondence: exactly "1" and "2" are shifts. */
  lemma ShiftCodes(code: string)
    ensures ShiftFromCode(code).Some? <==> code == "1" || code == "2"
    ensures ShiftFromCode(code).Some? ==> ShiftCode(ShiftFromCode(code).value) == code
    ensures forall s: Shift :: ShiftFromCode(ShiftCode(s)) == Some(s)
  {
  }

  // ---- Difficulty ----

  datatype Difficulty = Easy | Medium | Hard

  function DifficultyCode(d: Difficulty): string
  {
    match d
    case Easy => "easy"
    case Medium => "medium"
    case Hard => "hard"
  }

  /** `default=DifficultyLevel.MEDIUM` */
  const DefaultDifficulty: Difficulty := Medium

  /** The difficulty column is read back as its stored code; a missing value is the default. */
  function DifficultyFromCode(code: Option<string>): (d: Option<Difficulty>)
    ensures code.None? ==> d == Some(DefaultDifficulty)
    ensures code.Some? ==> (d.Some? <==> code.value in {"easy", "medium", "hard"})
    ensures d.Some? && code.Some? ==> DifficultyCode(d.value) == code.value
  {
    match code
    case None => Some(DefaultDifficulty)
    case Some(c) =>
      if c == "easy" then Some(Easy)
      else if c == "medium" then Some(Medium)
      else if c == "hard" then Some(Hard)
      else None
  }

  // ---- Rows ----

  datatype Subject = Subject(id: SubjectId, name: string, area: string, difficulty: Difficulty)

  datatype StudyPlanEntry = StudyPlanEntry(id: EntryId, plan: PlanId, subject: SubjectId, hoursPerWeek: nat)

  /** `grade` is the (unique) number of the referenced GradeLevel row. */
  datatype SchoolClass = SchoolClass(id: ClassId, grade: nat, letter: string, shift: Shift, studyPlan: Option<PlanId>)

  datatype Room = Room(id: RoomId, name: string)

  datatype SubjectHours = SubjectHours(schoolClass: ClassId, subject: SubjectId, hoursPerWeek: nat)

  datatype Lesson = Lesson(schoolClass: ClassId, subject: SubjectId, teacher: TeacherId,
                           weekday: int, lessonNumber: int, room: Option<RoomId>)

  datatype Holiday = Holiday(date: Date, description: string)

  /** A value of the teacher's `work_time` JSON object: a list of lesson codes or a number. */
  datatype WorkValue = Slots(lessons: seq<string>) | Hours(n: int)

  datatype Teacher = Teacher(id: TeacherId, subjects: set<SubjectId>, workTime: map<string, WorkValue>)

  const MaxHoursKey: string := "max_hours_per_week"

  /**
   * `work_time.get("max_hours_per_week", total_slots[Shift.SECOND])` where that
   * is a number. `work_time` is a free JSON object, so the stored value may
   * also be a list; the generators then raise `TypeError` (in the capacity sum
   * of the validator or in the weekly-load constraint) before this value would
   * be used, and the default returned here for a list is never read by them.
   */
  function Capacity(t: Teacher): int
  {
    if MaxHoursKey in t.workTime && t.workTime[MaxHoursKey].Hours? then t.workTime[MaxHoursKey].n
    else DefaultCapacity
  }

  /** The teacher's `max_hours_per_week` is absent or a number, so arithmetic and comparisons on it succeed. */
  predicate CapacityIsNumber(t: Teacher)
  {
    MaxHoursKey !in t.workTime || t.workTime[MaxHoursKey].Hours?
  }

  predicate CapacitiesAreNumbers(ts: seq<Teacher>)
  {
    forall t <- ts :: CapacityIsNumber(t)
  }

  // ---- Uniqueness constraints of the tables ----

  /** `unique_together = ("study_plan", "subject")` */
  predicate UniquePlanEntries(es: seq<StudyPlanEntry>)
  {
    forall i, j | 0 <= i < |es| && 0 <= j < |es| && i != j ::
      es[i].id != es[j].id && (es[i].plan, es[i].subject) != (es[j].plan, es[j].subject)
  }

  /** `unique_together = ("grade", "letter")` */
  predicate UniqueClasses(cs: seq<SchoolClass>)
  {
    forall i, j | 0 <= i < |cs| && 0 <= j < |cs| && i != j ::
      cs[i].id != cs[j].id && (cs[i].grade, cs[i].letter) != (cs[j].grade, cs[j].letter)
  }

  /** `unique_together = ("school_class", "subject")` */
  predicate UniqueSubjectHours(rows: seq<SubjectHours>)
  {
    forall i, j | 0 <= i < |rows| && 0 <= j < |rows| && i != j ::
      (rows[i].schoolClass, rows[i].subject) != (rows[j].schoolClass, rows[j].subject)
  }

  function LessonKey(l: Lesson): (ClassId, int, int)
  {
    (l.schoolClass, l.weekday, l.lessonNumber)
  }

  /** `unique_together = ("school_class", "weekday", "lesson_number")` */
  predicate UniqueLessons(ls: seq<Lesson>)
  {
    forall i, j | 0 <= i < |ls| && 0 <= j < |ls| && i != j :: LessonKey(ls[i]) != LessonKey(ls[j])
  }

  /** `date = models.DateField(unique=True)` */
  predicate UniqueHolidays(hs: seq<Holiday>)
  {
    forall i, j | 0 <= i < |hs| && 0 <= j < |hs| && i != j :: hs[i].date != hs[j].date
  }

  // ---- Display string of a class: grade number followed by the letter ----

  function DigitChar(d: nat): char
    requires d < 10
  {
    "0123456789"[d]
  }

  function DigitValue(c: char): nat
  {
    if '0' <= c <= '9' then (c as int - '0' as int) else 0
  }

  /** Python's `str(n)` for a natural number. */
  function NatToString(n: nat): (s: string)
    ensures |s| > 0
  {
    if n < 10 then [DigitChar(n)] else NatToString(n / 10) + [DigitChar(n % 10)]
  }

  function ParseDigits(s: string): nat
  {
    if s == [] then 0 else ParseDigits(s[..|s| - 1]) * 10 + DigitValue(s[|s| - 1])
  }

  lemma {:induction false} NatToStringRoundTrip(n: nat)
    ensures ParseDigits(NatToString(n)) == n
  {
    if n >= 10 {
      var p := NatToString(n / 10);
      NatToStringRoundTrip(n / 10);
      assert (p + [DigitChar(n % 10)])[..|p|] == p;
    }
  }

  /** `__str__` of SchoolClass: `f"{self.grade.number}{self.letter}"`. */
  function ClassDisplay(c: SchoolClass): string
  {
    NatToString(c.grade) + c.letter
  }

  /**
   * With the one-character letter the form requires, the display string
   * identifies the (grade, letter) pair, so the uniqueness of (grade, letter)
   * makes the display string a key for classes.
   */
  lemma ClassDisplayInjective(a: SchoolClass, b: SchoolClass)
    requires |a.letter| == 1 && |b.letter| == 1
    ensures ClassDisplay(a) == ClassDisplay(b) <==> (a.grade, a.letter) == (b.grade, b.letter)
  {
    if ClassDisplay(a) == ClassDisplay(b) {
      var s := ClassDisplay(a);
      assert s[..|s| - 1] == NatToString(a.grade);
      assert ClassDisplay(b)[..|s| - 1] == NatToString(b.grade);
      NatToStringRoundTrip(a.grade);
      NatToStringRoundTrip(b.grade);
      assert a.letter == [s[|s| - 1]] == b.letter;
    }
  }

  /** Distinct classes of a valid class table have distinct display strings. */
  lemma UniqueClassesDisplayDistinct(cs: seq<SchoolClass>, i: nat, j: nat)
    requires UniqueClasses(cs) && i < |cs| && j < |cs| && i != j
    requires |cs[i].letter| == 1 && |cs[j].letter| == 1
    ensures ClassDisplay(cs[i]) != ClassDisplay(cs[j])
  {
    ClassDisplayInjective(cs[i], cs[j]);
  }
}
