/**
 * The two dashboard forms that do more than copy fields: saving a school
 * class rebuilds its per-subject weekly hours from its study plan, and the
 * teacher form turns the checked `wt_<day>_<lesson>` boxes into the
 * teacher's `work_time` map and sets the password only when one was typed.
 */
module Forms {
  import opened Common
  import opened Calendar
  import opened Models
  import opened Tables

  // ---- SchoolClassForm.save ----

  /** The class rows after `save`: the row with the class's primary key is replaced, or the class is added. */
  function SavedClasses(cs: seq<SchoolClass>, c: SchoolClass): (r: seq<SchoolClass>)
    ensures c in r
    ensures forall x <- r :: x == c || x in cs
    ensures forall x <- cs :: x.id != c.id ==> x in r
    ensures (forall x <- cs :: x.id != c.id) ==> r == cs + [c]
  {
    if cs == [] then [c]
    else if cs[0].id == c.id then [c] + cs[1..]
    else
      assert forall x <- cs :: x == cs[0] || x in cs[1..];
      [cs[0]] + SavedClasses(cs[1..], c)
  }

  /** What the form's uniqueness check lets through: no other class has the same grade and letter. */
  predicate NoClash(cs: seq<SchoolClass>, c: SchoolClass)
  {
    forall x <- cs :: x.id != c.id ==> (x.grade, x.letter) != (c.grade, c.letter)
  }

  /** Two classes that may share a table: different ids and a different grade or letter. */
  predicate Apart(x: SchoolClass, y: SchoolClass)
  {
    x.id != y.id && (x.grade, x.letter) != (y.grade, y.letter)
  }

  lemma UniqueClassesTail(cs: seq<SchoolClass>)
    requires cs != [] && UniqueClasses(cs)
    ensures UniqueClasses(cs[1..])
    ensures forall y <- cs[1..] :: Apart(cs[0], y)
  {
    var rest := cs[1..];
    forall i, j | 0 <= i < |rest| && 0 <= j < |rest| && i != j
      ensures rest[i].id != rest[j].id && (rest[i].grade, rest[i].letter) != (rest[j].grade, rest[j].letter)
    {
      assert rest[i] == cs[i + 1] && rest[j] == cs[j + 1];
    }
    forall y <- rest ensures Apart(cs[0], y) {
      var k :| 0 <= k < |rest| && rest[k] == y;
      assert cs[k + 1] == y;
    }
  }

  lemma UniqueClassesCons(x: SchoolClass, tail: seq<SchoolClass>)
    requires UniqueClasses(tail) && forall y <- tail :: Apart(x, y)
    ensures UniqueClasses([x] + tail)
  {
    var r := [x] + tail;
    forall i, j | 0 <= i < |r| && 0 <= j < |r| && i != j
      ensures r[i].id != r[j].id && (r[i].grade, r[i].letter) != (r[j].grade, r[j].letter)
    {
      if i == 0 {
        assert r[j] == tail[j - 1] && r[j] in tail;
      } else if j == 0 {
        assert r[i] == tail[i - 1] && r[i] in tail;
      } else {
        assert r[i] == tail[i - 1] && r[j] == tail[j - 1];
      }
    }
  }

  /** Saving a class that passed the form's uniqueness check keeps ids and (grade, letter) unique. */
  lemma {:induction false} SavedClassesUnique(cs: seq<SchoolClass>, c: SchoolClass)
    requires UniqueClasses(cs) && NoClash(cs, c)
    ensures UniqueClasses(SavedClasses(cs, c))
    decreases |cs|
  {
    if cs == [] {
      assert SavedClasses(cs, c) == [c];
    } else {
      var rest := cs[1..];
      UniqueClassesTail(cs);
      assert forall y <- rest :: y in cs;
      if cs[0].id == c.id {
        // `c` takes the place of the only row with its id
        forall y <- rest ensures Apart(c, y) {
          assert y.id != cs[0].id;
        }
        UniqueClassesCons(c, rest);
      } else {
        SavedClassesUnique(rest, c);
        var tail := SavedClasses(rest, c);
        forall y <- tail ensures Apart(cs[0], y) {
          assert y == c || y in rest;
        }
        UniqueClassesCons(cs[0], tail);
      }
    }
  }

  class SchoolClassTable {
    var classes: seq<SchoolClass>

    ghost predicate Valid()
      reads this
    {
      UniqueClasses(classes)
    }

    constructor ()
      ensures classes == [] && Valid()
    {
      classes := [];
    }

    /** `super().save(commit)`: insert the class or update its row. */
    method Save(c: SchoolClass)
      modifies this
      requires Valid() && NoClash(classes, c)
      ensures Valid()
      ensures classes == SavedClasses(old(classes), c)
    {
      SavedClassesUnique(classes, c);
      classes := SavedClasses(classes, c);
    }
  }

  /** The class's hours rows once its plan is copied; a class without a plan has none. */
  function PlanHoursOf(c: SchoolClass, entries: seq<StudyPlanEntry>): seq<SubjectHours>
  {
    match c.studyPlan
    case Some(p) => PlanRows(c.id, PlanEntries(entries, p))
    case None => []
  }

  /**
   * The copied rows are exactly the plan's (subject, hours) pairs for this
   * class, one per entry of the plan, and no two share a subject.
   */
  lemma PlanHoursCopied(c: ClassId, entries: seq<StudyPlanEntry>, p: PlanId)
    requires UniquePlanEntries(entries)
    ensures forall e <- entries :: e.plan == p ==> SubjectHours(c, e.subject, e.hoursPerWeek) in PlanRows(c, PlanEntries(entries, p))
    ensures forall x <- PlanRows(c, PlanEntries(entries, p)) ::
              x.schoolClass == c && exists e <- entries :: e.plan == p && e.subject == x.subject && e.hoursPerWeek == x.hoursPerWeek
    ensures UniqueSubjectHours(PlanRows(c, PlanEntries(entries, p)))
  {
    var es := PlanEntries(entries, p);
    var rows := PlanRows(c, es);
    forall e <- entries | e.plan == p ensures SubjectHours(c, e.subject, e.hoursPerWeek) in rows {
      var k :| 0 <= k < |es| && es[k] == e;
      assert rows[k] == SubjectHours(c, e.subject, e.hoursPerWeek);
    }
    forall x <- rows
      ensures x.schoolClass == c && exists e <- entries :: e.plan == p && e.subject == x.subject && e.hoursPerWeek == x.hoursPerWeek
    {
      var k :| 0 <= k < |rows| && rows[k] == x;
      assert es[k] in es;
    }
    PlanEntriesDistinctSubjects(entries, p);
  }

  /**
   * `SchoolClassForm.save`: save the class row, delete its hours, then
   * create one hours row per entry of its study plan. A class with no plan
   * fails at the plan's entries (`ok` is false) after its row was saved and
   * its old hours deleted.
   */
  method SaveSchoolClass(classes: SchoolClassTable, hours: SubjectHoursTable, entries: seq<StudyPlanEntry>, c: SchoolClass)
    returns (ok: bool)
    modifies classes, hours
    requires classes.Valid() && hours.Valid() && UniquePlanEntries(entries)
    requires NoClash(classes.classes, c)
    ensures classes.Valid() && hours.Valid()
    ensures ok <==> c.studyPlan.Some?
    ensures classes.classes == SavedClasses(old(classes.classes), c)
    ensures hours.rows == OtherClassRows(old(hours.rows), c.id) + PlanHoursOf(c, entries)
    ensures ClassRows(hours.rows, c.id) == PlanHoursOf(c, entries)
    ensures OtherClassRows(hours.rows, c.id) == OtherClassRows(old(hours.rows), c.id)
  {
    classes.Save(c);
    hours.DeleteForClass(c.id);
    match c.studyPlan {
      case Some(p) =>
        PlanEntriesDistinctSubjects(entries, p);
        hours.CopyPlan(c.id, PlanEntries(entries, p));
        RebuiltHours(old(hours.rows), c.id, PlanEntries(entries, p));
        ok := true;
      case None =>
        assert hours.rows + [] == hours.rows;
        OtherClassRowsHaveNoClassRows(old(hours.rows), c.id);
        ok := false;
    }
  }

  // ---- TeacherForm.clean ----

  /** `WEEKDAYS`: the day codes of the work-time grid, Monday to Saturday. */
  const DayCodes: seq<string> := ["Пн", "Вт", "Ср", "Чт", "Пт", "Сб"]

  /** `LESSONS`: the lesson codes of the grid, shift then lesson. */
  const LessonCodes: seq<string> := [
    "1.1", "1.2", "1.3", "1.4", "1.5", "1.6", "1.7",
    "2.1", "2.2", "2.3", "2.4", "2.5", "2.6"]

  /** The name of the checkbox for `lesson` on `day`. */
  function FieldKey(day: string, lesson: string): string
  {
    "wt_" + day + "_" + lesson
  }

  /** The lessons of `day` whose checkbox was posted, in the order of `lessons`. */
  function DayLessons(posted: set<string>, day: string, lessons: seq<string>): (r: seq<string>)
    ensures |r| <= |lessons|
    ensures forall l :: l in r <==> l in lessons && FieldKey(day, l) in posted
  {
    if lessons == [] then []
    else
      var pre, last := lessons[..|lessons| - 1], lessons[|lessons| - 1];
      assert forall l :: l in lessons <==> l in pre || l == last;
      DayLessons(posted, day, pre) + (if FieldKey(day, last) in posted then [last] else [])
  }

  /** The cleaned `work_time`: one list of checked lessons per weekday. */
  function WorkTimeOf(posted: set<string>): map<string, WorkValue>
  {
    map d | d in DayCodes :: Slots(DayLessons(posted, d, LessonCodes))
  }

  /** The inner loop of `clean`: the checked lessons of one day, over the lesson codes `lessons`. */
  method CheckedLessons(posted: set<string>, day: string, lessons: seq<string>) returns (checked: seq<string>)
    ensures checked == DayLessons(posted, day, lessons)
  {
    checked := [];
    var i := 0;
    while i < |lessons|
      invariant 0 <= i <= |lessons|
      invariant checked == DayLessons(posted, day, lessons[..i])
    {
      assert lessons[..i + 1][..i] == lessons[..i];
      if FieldKey(day, lessons[i]) in posted {
        checked := checked + [lessons[i]];
      }
      i := i + 1;
    }
    assert lessons[..i] == lessons;
  }

  /** `TeacherForm.clean`, as far as `work_time` goes: the outer loop over the weekdays. */
  method CleanWorkTime(posted: set<string>) returns (workTime: map<string, WorkValue>)
    ensures workTime == WorkTimeOf(posted)
  {
    workTime := map[];
    var i := 0;
    while i < |DayCodes|
      invariant 0 <= i <= |DayCodes|
      invariant workTime == map d | d in DayCodes[..i] :: Slots(DayLessons(posted, d, LessonCodes))
    {
      var lessons := CheckedLessons(posted, DayCodes[i], LessonCodes);
      assert forall d :: d in DayCodes[..i + 1] <==> d in DayCodes[..i] || d == DayCodes[i];
      workTime := workTime[DayCodes[i] := Slots(lessons)];
      i := i + 1;
    }
    assert DayCodes[..i] == DayCodes;
  }

  /**
   * The cleaned map has exactly the six weekday keys, every value is a
   * list, and there is no weekly-hours key, so the generators fall back to
   * the default weekly capacity for a teacher saved through this form.
   */
  lemma WorkTimeKeys(posted: set<string>, id: TeacherId, subjects: set<SubjectId>)
    ensures WorkTimeOf(posted).Keys == {"Пн", "Вт", "Ср", "Чт", "Пт", "Сб"}
    ensures forall d <- WorkTimeOf(posted).Keys :: WorkTimeOf(posted)[d].Slots?
    ensures MaxHoursKey !in WorkTimeOf(posted)
    ensures Capacity(Teacher(id, subjects, WorkTimeOf(posted))) == DefaultCapacity
  {
    var wt := WorkTimeOf(posted);
    assert forall d :: d in wt <==> d in DayCodes;
    assert |MaxHoursKey| == 18;
  }

  /** A lesson is listed for a day exactly when it is a lesson code and its box was posted. */
  lemma WorkTimeMembers(posted: set<string>, day: string, lesson: string)
    requires day in DayCodes
    ensures lesson in WorkTimeOf(posted)[day].lessons <==> lesson in LessonCodes && FieldKey(day, lesson) in posted
  {
  }

  /** The first position of `x` in `s`. */
  function Position<T(==)>(s: seq<T>, x: T): (r: nat)
    requires x in s
    ensures r < |s| && s[r] == x
    ensures forall j | 0 <= j < r :: s[j] != x
  {
    if s[0] == x then 0
    else
      assert x in s[1..] by {
        var k :| 0 <= k < |s| && s[k] == x;
        assert s[1..][k - 1] == x;
      }
      var r := Position(s[1..], x);
      assert forall j | 1 <= j < r + 1 :: s[j] == s[1..][j - 1];
      r + 1
  }

  /** Over distinct lesson codes, the checked lessons keep the order of the codes and repeat none. */
  lemma {:induction false} DayLessonsOrdered(posted: set<string>, day: string, lessons: seq<string>)
    requires Distinct(lessons)
    ensures forall i, j | 0 <= i < j < |DayLessons(posted, day, lessons)| ::
              Position(lessons, DayLessons(posted, day, lessons)[i]) < Position(lessons, DayLessons(posted, day, lessons)[j])
  {
    if lessons != [] {
      var pre, last := lessons[..|lessons| - 1], lessons[|lessons| - 1];
      var r0 := DayLessons(posted, day, pre);
      var r := DayLessons(posted, day, lessons);
      assert Distinct(pre);
      DayLessonsOrdered(posted, day, pre);
      // positions in the prefix are positions in the whole sequence
      forall x <- r0 ensures Position(lessons, x) == Position(pre, x) && Position(pre, x) < |lessons| - 1 {
        var k := Position(pre, x);
        assert lessons[k] == x;
        assert forall j | 0 <= j < k :: lessons[j] == pre[j];
      }
      assert Position(lessons, last) == |lessons| - 1;
      forall i, j | 0 <= i < j < |r| ensures Position(lessons, r[i]) < Position(lessons, r[j]) {
        assert r[i] == r0[i] && r0[i] in r0;
        if j < |r0| {
          assert r[j] == r0[j] && r0[j] in r0;
        } else {
          assert r[j] == last;
        }
      }
    }
  }

  /** Each day's list follows the order of `LESSONS`. */
  lemma WorkTimeOrdered(posted: set<string>, day: string)
    requires day in DayCodes
    ensures forall i, j | 0 <= i < j < |WorkTimeOf(posted)[day].lessons| ::
              Position(LessonCodes, WorkTimeOf(posted)[day].lessons[i]) < Position(LessonCodes, WorkTimeOf(posted)[day].lessons[j])
  {
    assert Distinct(LessonCodes);
    DayLessonsOrdered(posted, day, LessonCodes);
  }

  // ---- TeacherForm.save ----

  /** The posted teacher form: the text fields, whether the password input was sent, the checked boxes, the subject list. */
  datatype TeacherPost = TeacherPost(
    username: string, password: string, passwordSent: bool,
    lastName: string, firstName: string, middleName: string,
    checked: set<string>, subjects: seq<SubjectId>)

  /**
   * The password after `super().save(commit=False)` and lines 97-99: the
   * model form copies every listed field, the password included, unless the
   * input was absent from the post and empty; then a non-empty password is
   * replaced by its hash.
   */
  function PasswordAsWritten(stored: string, raw: string, sent: bool, hashed: string): string
  {
    var copied := if !sent && raw == "" then stored else raw;
    if raw != "" then hashed else copied
  }

  /** The password as the field's help text promises: unchanged when left empty. */
  function PasswordIntended(stored: string, raw: string, hashed: string): string
  {
    if raw != "" then hashed else stored
  }

  /**
   * A teacher edited with the password input left empty loses the stored
   * password hash: the empty string is copied over it.
   */
  lemma BlankPasswordClears(stored: string, hashed: string)
    requires stored != ""
    ensures PasswordAsWritten(stored, "", true, hashed) == ""
    ensures PasswordAsWritten(stored, "", true, hashed) != PasswordIntended(stored, "", hashed)
  {
  }

  /** The intended rule changes the password exactly when one was typed. */
  lemma PasswordIntendedChanges(stored: string, raw: string, hashed: string)
    ensures PasswordIntended(stored, raw, hashed) != stored ==> raw != ""
    ensures raw != "" ==> PasswordIntended(stored, raw, hashed) == hashed
    ensures PasswordAsWritten(stored, raw, true, hashed) == PasswordIntended(stored, raw, hashed) <==> raw != "" || stored == ""
  {
  }

  class TeacherRecord {
    var username: string
    var password: string
    var lastName: string
    var firstName: string
    var middleName: string
    var workTime: map<string, WorkValue>
    var subjects: set<SubjectId>
    /** Whether `teacher.save()` has written the row. */
    var stored: bool

    constructor ()
      ensures username == "" && password == "password" && lastName == "" && firstName == "" && middleName == ""
      ensures workTime == map[] && subjects == {} && !stored
    {
      username, password := "", "password";
      lastName, firstName, middleName := "", "", "";
      workTime, subjects, stored := map[], {}, false;
    }

    /**
     * `TeacherForm.save` as written, with `hashed` standing for
     * `make_password(post.password)`: the fields are copied (the password
     * by the model form's rule), `work_time` is replaced by the cleaned
     * map, and only with `commit` is the row written and the subject set
     * replaced.
     */
    method SaveAsWritten(post: TeacherPost, hashed: string, commit: bool)
      modifies this
      ensures username == post.username && lastName == post.lastName
      ensures firstName == post.firstName && middleName == post.middleName
      ensures password == PasswordAsWritten(old(password), post.password, post.passwordSent, hashed)
      ensures workTime == WorkTimeOf(post.checked)
      ensures commit ==> stored && subjects == (set s | s in post.subjects)
      ensures !commit ==> stored == old(stored) && subjects == old(subjects)
    {
      var cleaned := CleanWorkTime(post.checked);
      username, lastName, firstName, middleName := post.username, post.lastName, post.firstName, post.middleName;
      if post.passwordSent || post.password != "" {
        password := post.password;
      }
      workTime := cleaned;
      if post.password != "" {
        password := hashed;
      }
      if commit {
        stored := true;
        subjects := set s | s in post.subjects;
      }
    }

    /** `TeacherForm.save` with the password left alone unless one was typed. */
    method Save(post: TeacherPost, hashed: string, commit: bool)
      modifies this
      ensures username == post.username && lastName == post.lastName
      ensures firstName == post.firstName && middleName == post.middleName
      ensures password == PasswordIntended(old(password), post.password, hashed)
      ensures workTime == WorkTimeOf(post.checked)
      ensures commit ==> stored && subjects == (set s | s in post.subjects)
      ensures !commit ==> stored == old(stored) && subjects == old(subjects)
    {
      var cleaned := CleanWorkTime(post.checked);
      username, lastName, firstName, middleName := post.username, post.lastName, post.firstName, post.middleName;
      workTime := cleaned;
      if post.password != "" {
        password := hashed;
      }
      if commit {
        stored := true;
        subjects := set s | s in post.subjects;
      }
    }
  }
}
