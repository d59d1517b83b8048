/**
 * Creation of the boolean variables (step 5 of the generator): for every
 * class, every hours row of that class and every teacher qualified for the
 * row's subject, one `z` for the (class, subject, teacher) binding and one
 * `y` per (weekday, slot of the class's shift). The loops are proved to
 * create exactly the universe the constraint model is stated over.
 */
module ModelBuilder {
  import opened Common
  import opened Calendar
  import opened Models
  import opened Validator
  import opened Constraints

  /** The y keys of one (class, subject, teacher) triple: the whole week grid of the class's shift. */
  function WeekGrid(cls: SchoolClass, s: SubjectId, t: TeacherId): set<YKey>
  {
    set d <- Weekdays, l <- SlotsOf(cls.shift) :: YKey(cls.id, s, t, d, l)
  }

  /** The y keys one hours row of `cls` contributes over the teachers `ts`. */
  function RowKeys(cls: SchoolClass, r: SubjectHours, ts: seq<Teacher>): set<YKey>
  {
    set t <- ts, d <- Weekdays, l <- SlotsOf(cls.shift)
      | r.schoolClass == cls.id && r.subject in t.subjects
      :: YKey(cls.id, r.subject, t.id, d, l)
  }

  function RowBindings(cls: SchoolClass, r: SubjectHours, ts: seq<Teacher>): set<ZKey>
  {
    set t <- ts | r.schoolClass == cls.id && r.subject in t.subjects :: ZKey(cls.id, r.subject, t.id)
  }

  /** The y keys the rows `rows` contribute for class `cls`. */
  function ClassKeys(cls: SchoolClass, rows: seq<SubjectHours>, ts: seq<Teacher>): set<YKey>
  {
    set r <- rows, t <- ts, d <- Weekdays, l <- SlotsOf(cls.shift)
      | r.schoolClass == cls.id && r.subject in t.subjects
      :: YKey(cls.id, r.subject, t.id, d, l)
  }

  function ClassBindings(cls: SchoolClass, rows: seq<SubjectHours>, ts: seq<Teacher>): set<ZKey>
  {
    set r <- rows, t <- ts | r.schoolClass == cls.id && r.subject in t.subjects :: ZKey(cls.id, r.subject, t.id)
  }

  lemma YOverPrefixClass(cs: seq<SchoolClass>, i: nat, rows: seq<SubjectHours>, ts: seq<Teacher>)
    requires i < |cs|
    ensures YOver(cs[..i + 1], rows, ts) == YOver(cs[..i], rows, ts) + ClassKeys(cs[i], rows, ts)
    ensures ZOver(cs[..i + 1], rows, ts) == ZOver(cs[..i], rows, ts) + ClassBindings(cs[i], rows, ts)
  {
    assert cs[..i + 1] == cs[..i] + [cs[i]];
    assert forall c :: c in cs[..i + 1] <==> c in cs[..i] || c == cs[i];
  }

  lemma YOverPrefixRow(cls: SchoolClass, rows: seq<SubjectHours>, j: nat, ts: seq<Teacher>)
    requires j < |rows|
    ensures ClassKeys(cls, rows[..j + 1], ts) == ClassKeys(cls, rows[..j], ts) + RowKeys(cls, rows[j], ts)
    ensures ClassBindings(cls, rows[..j + 1], ts) == ClassBindings(cls, rows[..j], ts) + RowBindings(cls, rows[j], ts)
  {
    assert rows[..j + 1] == rows[..j] + [rows[j]];
    assert forall x :: x in rows[..j + 1] <==> x in rows[..j] || x == rows[j];
  }

  lemma RowKeysPrefixTeacher(cls: SchoolClass, r: SubjectHours, ts: seq<Teacher>, k: nat)
    requires k < |ts|
    ensures RowKeys(cls, r, ts[..k + 1]) ==
            RowKeys(cls, r, ts[..k]) + (if r.schoolClass == cls.id && r.subject in ts[k].subjects then WeekGrid(cls, r.subject, ts[k].id) else {})
    ensures RowBindings(cls, r, ts[..k + 1]) ==
            RowBindings(cls, r, ts[..k]) + (if r.schoolClass == cls.id && r.subject in ts[k].subjects then {ZKey(cls.id, r.subject, ts[k].id)} else {})
  {
    assert ts[..k + 1] == ts[..k] + [ts[k]];
    assert forall x :: x in ts[..k + 1] <==> x in ts[..k] || x == ts[k];
  }

  /**
   * The body of the row loop for class `cls`: a row of another class is
   * skipped; otherwise a `z` and a week of `y`s per qualified teacher.
   */
  method AddRow(cls: SchoolClass, r: SubjectHours, teachers: seq<Teacher>, y0: set<YKey>, z0: set<ZKey>)
    returns (y: set<YKey>, z: set<ZKey>)
    ensures y == y0 + RowKeys(cls, r, teachers)
    ensures z == z0 + RowBindings(cls, r, teachers)
  {
    y, z := y0, z0;
    if r.schoolClass != cls.id {
      assert RowKeys(cls, r, teachers) == {} && RowBindings(cls, r, teachers) == {};
      return;
    }
    var k := 0;
    while k < |teachers|
      invariant 0 <= k <= |teachers|
      invariant y == y0 + RowKeys(cls, r, teachers[..k])
      invariant z == z0 + RowBindings(cls, r, teachers[..k])
    {
      var t := teachers[k];
      if r.subject in t.subjects {
        z := z + {ZKey(cls.id, r.subject, t.id)};
        y := y + WeekGrid(cls, r.subject, t.id);
      }
      RowKeysPrefixTeacher(cls, r, teachers, k);
      k := k + 1;
    }
    assert teachers[..k] == teachers;
  }

  /** One pass over `hours_map.items()` for class `cls`, skipping rows of other classes. */
  method AddClass(cls: SchoolClass, rows: seq<SubjectHours>, teachers: seq<Teacher>, y0: set<YKey>, z0: set<ZKey>)
    returns (y: set<YKey>, z: set<ZKey>)
    ensures y == y0 + ClassKeys(cls, rows, teachers)
    ensures z == z0 + ClassBindings(cls, rows, teachers)
  {
    y, z := y0, z0;
    var j := 0;
    while j < |rows|
      invariant 0 <= j <= |rows|
      invariant y == y0 + ClassKeys(cls, rows[..j], teachers)
      invariant z == z0 + ClassBindings(cls, rows[..j], teachers)
    {
      YOverPrefixRow(cls, rows, j, teachers);
      y, z := AddRow(cls, rows[j], teachers, y, z);
      j := j + 1;
    }
    assert rows[..j] == rows;
  }

  /** Step 5: the variables created are exactly the universe of the constraint model. */
  method BuildVariables(snap: Snapshot) returns (y: set<YKey>, z: set<ZKey>)
    ensures y == YUniverse(snap) && z == ZUniverse(snap)
  {
    var classes, rows, teachers := snap.classes, snap.hours, snap.teachers;
    y, z := {}, {};
    var i := 0;
    while i < |classes|
      invariant 0 <= i <= |classes|
      invariant y == YOver(classes[..i], rows, teachers)
      invariant z == ZOver(classes[..i], rows, teachers)
    {
      var cls := classes[i];
      y, z := AddClass(cls, rows, teachers, y, z);
      YOverPrefixClass(classes, i, rows, teachers);
      i := i + 1;
    }
    assert classes[..i] == classes;
  }

  /**
   * Step 5.6's weekly load, `model.Add(sum(week_vars) <= max_h)`, posted for
   * every teacher in table order: a stored non-number `max_h` raises
   * `TypeError` and ends the run (`ok == false`).
   */
  method PostTeacherLoads(teachers: seq<Teacher>) returns (ok: bool)
    ensures ok <==> CapacitiesAreNumbers(teachers)
  {
    var i := 0;
    while i < |teachers|
      invariant 0 <= i <= |teachers|
      invariant CapacitiesAreNumbers(teachers[..i])
    {
      if !CapacityIsNumber(teachers[i]) {
        return false;
      }
      assert teachers[..i + 1] == teachers[..i] + [teachers[i]];
      i := i + 1;
    }
    assert teachers[..i] == teachers;
    return true;
  }

  /**
   * Once the validator's sums have passed, a teacher with a non-number
   * capacity teaches no subject of the hours table, so it owns no variable:
   * its `week_vars` is empty and the failing comparison is `0 <= max_h`.
   */
  lemma NonNumberTeacherIdle(snap: Snapshot, t: Teacher)
    requires WellFormed(snap) && !CapacitySumRaises(snap.hours, snap.teachers)
    requires t in snap.teachers && !CapacityIsNumber(t)
    ensures forall k <- YUniverse(snap) :: k.t != t.id
  {
    CapacitySumRaisesIff(snap.hours, snap.teachers);
    forall k <- YUniverse(snap) ensures k.t != t.id {
      UniverseKey(snap, k);
      var r :| r in snap.hours && r.schoolClass == k.c && r.subject == k.s;
      var owner :| owner in snap.teachers && owner.id == k.t && k.s in owner.subjects;
    }
  }
}
