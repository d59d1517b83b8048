/**
 * The feasibility pre-check of the timetable generator. It runs two batches of
 * checks over the loaded data and collects every problem before deciding:
 *  - each (class, subject) requirement must fit in the class's weekly slots;
 *  - each subject that appears in the hours table needs at least one qualified
 *    teacher, and the qualified teachers' summed capacity must cover the
 *    subject's summed hours over all classes.
 */
module Validator {
  import opened Common
  import opened Calendar
  import opened Models

  /** The data one generator run reads: classes, the SubjectHours rows (`hours_map`), teachers, rooms. */
  datatype Snapshot = Snapshot(classes: seq<SchoolClass>, hours: seq<SubjectHours>,
                               teachers: seq<Teacher>, rooms: seq<Room>)

  /**
   * What the database guarantees about a snapshot: primary keys are unique,
   * (class, subject) is unique in SubjectHours, every SubjectHours row refers
   * to an existing class. (`work_time` is a free JSON object: nothing makes
   * a stored `max_hours_per_week` a number.)
   */
  predicate WellFormed(snap: Snapshot)
  {
    && (forall i, j | 0 <= i < |snap.classes| && 0 <= j < |snap.classes| && i != j ::
          snap.classes[i].id != snap.classes[j].id)
    && UniqueSubjectHours(snap.hours)
    && (forall r <- snap.hours :: exists c <- snap.classes :: c.id == r.schoolClass)
    && (forall i, j | 0 <= i < |snap.teachers| && 0 <= j < |snap.teachers| && i != j ::
          snap.teachers[i].id != snap.teachers[j].id)
  }

  datatype Violation =
    | HoursExceedSlots(schoolClass: ClassId, subject: SubjectId, hours: nat, available: nat)
    | NoQualifiedTeacher(subject: SubjectId)
    | CapacityShort(subject: SubjectId, need: nat, capacity: int, teacherCount: nat)

  /** `next(c for c in classes if c.id == c_id)`: the first class with that id. */
  function FindClass(classes: seq<SchoolClass>, id: ClassId): (r: Option<SchoolClass>)
    ensures r.Some? ==> r.value in classes && r.value.id == id
    ensures r.None? <==> forall c <- classes :: c.id != id
  {
    if classes == [] then None
    else if classes[0].id == id then Some(classes[0])
    else FindClass(classes[1..], id)
  }

  /** The weekly slot count of the class a row refers to (0 when the class is absent, which a well-formed snapshot excludes). */
  function AvailableFor(classes: seq<SchoolClass>, id: ClassId): nat
  {
    match FindClass(classes, id)
    case Some(c) => TotalSlots(c.shift)
    case None => 0
  }

  /** Check 4.1, row by row in query order. */
  function HoursViolations(classes: seq<SchoolClass>, rows: seq<SubjectHours>): seq<Violation>
  {
    if rows == [] then []
    else
      var r := rows[|rows| - 1];
      var avail := AvailableFor(classes, r.schoolClass);
      HoursViolations(classes, rows[..|rows| - 1])
        + (if r.hoursPerWeek > avail then [HoursExceedSlots(r.schoolClass, r.subject, r.hoursPerWeek, avail)] else [])
  }

  /** Keys of `subj_hours`: the subjects of the rows, in order of first appearance. */
  function SubjectOrder(rows: seq<SubjectHours>): seq<SubjectId>
  {
    if rows == [] then []
    else
      var p := SubjectOrder(rows[..|rows| - 1]);
      if rows[|rows| - 1].subject in p then p else p + [rows[|rows| - 1].subject]
  }

  /** `subj_hours[s]`: the hours of subject `s` summed over all classes. */
  function Demand(rows: seq<SubjectHours>, s: SubjectId): nat
  {
    if rows == [] then 0
    else Demand(rows[..|rows| - 1], s) + (if rows[|rows| - 1].subject == s then rows[|rows| - 1].hoursPerWeek else 0)
  }

  /** `[t for t in teachers if s_id in t.subjects]` */
  function Qualified(teachers: seq<Teacher>, s: SubjectId): seq<Teacher>
  {
    if teachers == [] then []
    else
      var p := Qualified(teachers[..|teachers| - 1], s);
      if s in teachers[|teachers| - 1].subjects then p + [teachers[|teachers| - 1]] else p
  }

  /** `[t for t in teachers if s in t.subjects]`: exactly the qualified teachers, in table order. */
  lemma {:induction false} QualifiedMembers(teachers: seq<Teacher>, s: SubjectId)
    ensures forall t <- Qualified(teachers, s) :: t in teachers && s in t.subjects
    ensures forall t <- teachers :: s in t.subjects ==> t in Qualified(teachers, s)
  {
    if teachers != [] {
      QualifiedMembers(teachers[..|teachers| - 1], s);
      assert teachers == teachers[..|teachers| - 1] + [teachers[|teachers| - 1]];
    }
  }

  function CapacitySum(ts: seq<Teacher>): int
  {
    if ts == [] then 0 else CapacitySum(ts[..|ts| - 1]) + Capacity(ts[|ts| - 1])
  }

  /**
   * Check 4.2 raises `TypeError` before deciding: for some subject of the hours
   * table, the `sum` of its qualified teachers' capacities meets a non-number.
   */
  predicate CapacitySumRaises(rows: seq<SubjectHours>, teachers: seq<Teacher>)
  {
    exists s <- SubjectOrder(rows) :: !CapacitiesAreNumbers(Qualified(teachers, s))
  }

  /** The verdict of check 4.2 for one subject. */
  function SubjectCheck(rows: seq<SubjectHours>, teachers: seq<Teacher>, s: SubjectId): seq<Violation>
  {
    var q := Qualified(teachers, s);
    if |q| == 0 then [NoQualifiedTeacher(s)]
    else if Demand(rows, s) > CapacitySum(q) then [CapacityShort(s, Demand(rows, s), CapacitySum(q), |q|)]
    else []
  }

  function SubjectViolations(rows: seq<SubjectHours>, teachers: seq<Teacher>, order: seq<SubjectId>): seq<Violation>
  {
    if order == [] then []
    else SubjectViolations(rows, teachers, order[..|order| - 1]) + SubjectCheck(rows, teachers, order[|order| - 1])
  }

  /** Every problem found, in the order the source logs them. The run is rejected iff this is non-empty. */
  function Violations(snap: Snapshot): seq<Violation>
  {
    HoursViolations(snap.classes, snap.hours)
      + SubjectViolations(snap.hours, snap.teachers, SubjectOrder(snap.hours))
  }

  // ---- The imperative validator: the loops of the source, proved to compute Violations ----

  method FindClassLoop(classes: seq<SchoolClass>, id: ClassId) returns (r: Option<SchoolClass>)
    ensures r == FindClass(classes, id)
  {
    var i := 0;
    while i < |classes|
      invariant 0 <= i <= |classes|
      invariant FindClass(classes, id) == FindClass(classes[i..], id)
    {
      if classes[i].id == id {
        return Some(classes[i]);
      }
      assert classes[i..][1..] == classes[i + 1..];
      i := i + 1;
    }
    return None;
  }

  /** Check 4.1: each row's hours against the slots of its class's shift. */
  method CheckHours(classes: seq<SchoolClass>, rows: seq<SubjectHours>) returns (violations: seq<Violation>)
    ensures violations == HoursViolations(classes, rows)
  {
    violations := [];
    var i := 0;
    while i < |rows|
      invariant 0 <= i <= |rows|
      invariant violations == HoursViolations(classes, rows[..i])
    {
      var cls := FindClassLoop(classes, rows[i].schoolClass);
      var available := if cls.Some? then TotalSlots(cls.value.shift) else 0;
      assert rows[..i + 1][..i] == rows[..i];
      if rows[i].hoursPerWeek > available {
        violations := violations + [HoursExceedSlots(rows[i].schoolClass, rows[i].subject, rows[i].hoursPerWeek, available)];
      }
      i := i + 1;
    }
    assert rows[..i] == rows;
  }

  /** `subj_hours = defaultdict(int)` filled row by row. */
  method AccumulateDemand(rows: seq<SubjectHours>) returns (subjHours: map<SubjectId, nat>, order: seq<SubjectId>)
    ensures order == SubjectOrder(rows)
    ensures forall s :: s in subjHours <==> s in order
    ensures forall s <- order :: subjHours[s] == Demand(rows, s)
  {
    subjHours := map[];
    order := [];
    var i := 0;
    while i < |rows|
      invariant 0 <= i <= |rows|
      invariant order == SubjectOrder(rows[..i])
      invariant forall s :: s in subjHours <==> s in order
      invariant forall s <- order :: subjHours[s] == Demand(rows[..i], s)
    {
      var s := rows[i].subject;
      assert rows[..i + 1][..i] == rows[..i];
      if s !in order {
        DemandOfAbsentSubject(rows[..i], s);
      }
      var prev := if s in subjHours then subjHours[s] else 0;
      subjHours := subjHours[s := prev + rows[i].hoursPerWeek];
      if s !in order {
        order := order + [s];
      }
      i := i + 1;
    }
    assert rows[..i] == rows;
  }

  lemma {:induction false} DemandOfAbsentSubject(rows: seq<SubjectHours>, s: SubjectId)
    requires s !in SubjectOrder(rows)
    ensures Demand(rows, s) == 0
  {
    if rows != [] {
      DemandOfAbsentSubject(rows[..|rows| - 1], s);
    }
  }

  /** `[t for t in teachers if s_id in ...]` as a loop. */
  method QualifiedLoop(teachers: seq<Teacher>, s: SubjectId) returns (qualified: seq<Teacher>)
    ensures qualified == Qualified(teachers, s)
  {
    qualified := [];
    var j := 0;
    while j < |teachers|
      invariant 0 <= j <= |teachers|
      invariant qualified == Qualified(teachers[..j], s)
    {
      assert teachers[..j + 1][..j] == teachers[..j];
      if s in teachers[j].subjects {
        qualified := qualified + [teachers[j]];
      }
      j := j + 1;
    }
    assert teachers[..j] == teachers;
  }

  /**
   * `sum(t.work_time.get(...) for t in qualified)`: the running total starts
   * at 0 and the first non-number stored capacity raises `TypeError` (`None`).
   */
  method SumCapacities(ts: seq<Teacher>) returns (capacity: Option<int>)
    ensures capacity.None? <==> !CapacitiesAreNumbers(ts)
    ensures capacity.Some? ==> capacity.value == CapacitySum(ts)
  {
    var total := 0;
    var i := 0;
    while i < |ts|
      invariant 0 <= i <= |ts|
      invariant CapacitiesAreNumbers(ts[..i])
      invariant total == CapacitySum(ts[..i])
    {
      if !CapacityIsNumber(ts[i]) {
        return None;
      }
      assert ts[..i + 1][..i] == ts[..i];
      total := total + Capacity(ts[i]);
      i := i + 1;
    }
    assert ts[..i] == ts;
    return Some(total);
  }

  /** The qualified teachers of a subject and the sum of their capacities, `None` where the sum raises. */
  method QualifiedCapacity(teachers: seq<Teacher>, s: SubjectId) returns (qualified: seq<Teacher>, capacity: Option<int>)
    ensures qualified == Qualified(teachers, s)
    ensures capacity.None? <==> !CapacitiesAreNumbers(qualified)
    ensures capacity.Some? ==> capacity.value == CapacitySum(qualified)
  {
    qualified := QualifiedLoop(teachers, s);
    capacity := SumCapacities(qualified);
  }

  /** One subject of check 4.2; `raised` when the capacity sum of its qualified teachers raises. */
  method CheckSubject(rows: seq<SubjectHours>, teachers: seq<Teacher>, s: SubjectId, need: nat)
    returns (found: seq<Violation>, raised: bool)
    requires need == Demand(rows, s)
    ensures raised <==> !CapacitiesAreNumbers(Qualified(teachers, s))
    ensures !raised ==> found == SubjectCheck(rows, teachers, s)
  {
    var qualified, capacity := QualifiedCapacity(teachers, s);
    found, raised := [], false;
    if |qualified| == 0 {
      found := [NoQualifiedTeacher(s)];
    } else if capacity.None? {
      raised := true;
    } else if need > capacity.value {
      found := [CapacityShort(s, need, capacity.value, |qualified|)];
    }
  }

  /**
   * Check 4.2: per subject, teachers exist and their capacity covers the
   * demand. `raised` reports the `TypeError` of a capacity sum, which ends the
   * run on the spot; the violations collected so far are then discarded.
   */
  method CheckSubjects(rows: seq<SubjectHours>, teachers: seq<Teacher>) returns (violations: seq<Violation>, raised: bool)
    ensures raised <==> CapacitySumRaises(rows, teachers)
    ensures !raised ==> violations == SubjectViolations(rows, teachers, SubjectOrder(rows))
  {
    var subjHours, order := AccumulateDemand(rows);
    violations := [];
    var k := 0;
    while k < |order|
      invariant 0 <= k <= |order|
      invariant violations == SubjectViolations(rows, teachers, order[..k])
      invariant forall s <- order[..k] :: CapacitiesAreNumbers(Qualified(teachers, s))
    {
      var found, failed := CheckSubject(rows, teachers, order[k], subjHours[order[k]]);
      if failed {
        return violations, true;
      }
      assert order[..k + 1] == order[..k] + [order[k]];
      violations := violations + found;
      k := k + 1;
    }
    assert order[..k] == order;
    raised := false;
  }

  /**
   * The validator as written: every check runs, errors only raise a flag,
   * and the decision is taken once, after all checks, unless a capacity sum
   * raised first (`raised`).
   */
  method Validate(snap: Snapshot) returns (violations: seq<Violation>, errors: bool, raised: bool)
    ensures raised <==> CapacitySumRaises(snap.hours, snap.teachers)
    ensures !raised ==> violations == Violations(snap) && (errors <==> |violations| > 0)
  {
    var hoursProblems := CheckHours(snap.classes, snap.hours);
    var subjectProblems;
    subjectProblems, raised := CheckSubjects(snap.hours, snap.teachers);
    violations := hoursProblems + subjectProblems;
    errors := |violations| > 0;
  }

  // ---- What the verdict means ----

  lemma {:induction false} SubjectOrderMembership(rows: seq<SubjectHours>, s: SubjectId)
    ensures s in SubjectOrder(rows) <==> exists r <- rows :: r.subject == s
  {
    if rows != [] {
      var pre := rows[..|rows| - 1];
      SubjectOrderMembership(pre, s);
      assert forall r <- pre :: r in rows;
      if exists r <- rows :: r.subject == s {
        var r :| r in rows && r.subject == s;
        if r != rows[|rows| - 1] {
          var i :| 0 <= i < |rows| && rows[i] == r;
          assert pre[i] == r;
        }
      }
    }
  }

  lemma {:induction false} HoursViolationsEmpty(classes: seq<SchoolClass>, rows: seq<SubjectHours>)
    ensures HoursViolations(classes, rows) == [] <==>
            forall r <- rows :: r.hoursPerWeek <= AvailableFor(classes, r.schoolClass)
  {
    if rows != [] {
      var pre := rows[..|rows| - 1];
      HoursViolationsEmpty(classes, pre);
      DropLastMembers(rows);
    }
  }

  lemma {:induction false} SubjectViolationsEmpty(rows: seq<SubjectHours>, teachers: seq<Teacher>, order: seq<SubjectId>)
    ensures SubjectViolations(rows, teachers, order) == [] <==> forall s <- order :: SubjectCheck(rows, teachers, s) == []
  {
    if order != [] {
      var pre := order[..|order| - 1];
      SubjectViolationsEmpty(rows, teachers, pre);
      DropLastMembers(order);
    }
  }

  /**
   * The validator accepts exactly when every requirement fits its class's
   * shift and every subject of the hours table has qualified teachers whose
   * summed capacity covers its summed demand (zero-hour rows included).
   */
  lemma ValidatorAcceptsIff(snap: Snapshot)
    ensures Violations(snap) == [] <==>
      && (forall r <- snap.hours :: r.hoursPerWeek <= AvailableFor(snap.classes, r.schoolClass))
      && (forall r <- snap.hours ::
            |Qualified(snap.teachers, r.subject)| > 0
            && Demand(snap.hours, r.subject) <= CapacitySum(Qualified(snap.teachers, r.subject)))
  {
    var order := SubjectOrder(snap.hours);
    HoursViolationsEmpty(snap.classes, snap.hours);
    SubjectViolationsEmpty(snap.hours, snap.teachers, order);
    assert SubjectViolations(snap.hours, snap.teachers, order) == [] <==>
           forall r <- snap.hours :: SubjectCheck(snap.hours, snap.teachers, r.subject) == [] by {
      forall r <- snap.hours ensures r.subject in order {
        SubjectOrderMembership(snap.hours, r.subject);
      }
      forall s <- order ensures exists r <- snap.hours :: r.subject == s {
        SubjectOrderMembership(snap.hours, s);
      }
    }
  }

  lemma {:induction false} HoursViolationListed(classes: seq<SchoolClass>, rows: seq<SubjectHours>, i: nat)
    requires i < |rows| && rows[i].hoursPerWeek > AvailableFor(classes, rows[i].schoolClass)
    ensures HoursExceedSlots(rows[i].schoolClass, rows[i].subject, rows[i].hoursPerWeek,
                             AvailableFor(classes, rows[i].schoolClass)) in HoursViolations(classes, rows)
  {
    if i < |rows| - 1 {
      var pre := rows[..|rows| - 1];
      assert pre[i] == rows[i];
      HoursViolationListed(classes, pre, i);
    }
  }

  lemma {:induction false} SubjectViolationListed(rows: seq<SubjectHours>, teachers: seq<Teacher>, order: seq<SubjectId>, k: nat)
    requires k < |order|
    ensures forall v <- SubjectCheck(rows, teachers, order[k]) :: v in SubjectViolations(rows, teachers, order)
  {
    if k < |order| - 1 {
      var pre := order[..|order| - 1];
      assert pre[k] == order[k];
      SubjectViolationListed(rows, teachers, pre, k);
    }
  }

  /**
   * No check stops the others: every over-long requirement, every subject
   * without teachers and every under-staffed subject is reported in one run.
   */
  lemma EveryProblemReported(snap: Snapshot)
    ensures forall r <- snap.hours :: r.hoursPerWeek > AvailableFor(snap.classes, r.schoolClass) ==>
      HoursExceedSlots(r.schoolClass, r.subject, r.hoursPerWeek, AvailableFor(snap.classes, r.schoolClass)) in Violations(snap)
    ensures forall r <- snap.hours :: |Qualified(snap.teachers, r.subject)| == 0 ==>
      NoQualifiedTeacher(r.subject) in Violations(snap)
    ensures forall r <- snap.hours ::
      var q := Qualified(snap.teachers, r.subject);
      |q| > 0 && Demand(snap.hours, r.subject) > CapacitySum(q) ==>
        CapacityShort(r.subject, Demand(snap.hours, r.subject), CapacitySum(q), |q|) in Violations(snap)
  {
    var order := SubjectOrder(snap.hours);
    forall r <- snap.hours
      ensures r.hoursPerWeek > AvailableFor(snap.classes, r.schoolClass) ==>
        HoursExceedSlots(r.schoolClass, r.subject, r.hoursPerWeek, AvailableFor(snap.classes, r.schoolClass)) in Violations(snap)
      ensures forall v <- SubjectCheck(snap.hours, snap.teachers, r.subject) :: v in Violations(snap)
    {
      var i :| 0 <= i < |snap.hours| && snap.hours[i] == r;
      if r.hoursPerWeek > AvailableFor(snap.classes, r.schoolClass) {
        HoursViolationListed(snap.classes, snap.hours, i);
      }
      SubjectOrderMembership(snap.hours, r.subject);
      var k :| 0 <= k < |order| && order[k] == r.subject;
      SubjectViolationListed(snap.hours, snap.teachers, order, k);
    }
  }

  /**
   * Scenario: a first-shift class asking more than its 42 weekly slots of a
   * subject whose one teacher has the default capacity is rejected twice over,
   * for the slots and for the capacity.
   */
  lemma OverlongRequirementRejected(cls: SchoolClass, s: SubjectId, h: nat, t: Teacher, rooms: seq<Room>)
    requires cls.shift == First && h > 42 && s in t.subjects && MaxHoursKey !in t.workTime
    ensures Violations(Snapshot([cls], [SubjectHours(cls.id, s, h)], [t], rooms))
            == [HoursExceedSlots(cls.id, s, h, 42), CapacityShort(s, h, 36, 1)]
  {
    var rows := [SubjectHours(cls.id, s, h)];
    assert rows[..0] == [] && [t][..0] == [] && [s][..0] == [];
    assert HoursViolations([cls], rows) == [HoursExceedSlots(cls.id, s, h, 42)] by {
      assert FindClass([cls], cls.id) == Some(cls);
      assert TotalSlots(First) == 42;
    }
    assert SubjectOrder(rows) == [s];
    assert Demand(rows, s) == h;
    assert Qualified([t], s) == [t];
    assert CapacitySum([t]) == 36;
    assert SubjectCheck(rows, [t], s) == [CapacityShort(s, h, 36, 1)];
    assert SubjectViolations(rows, [t], [s]) == [CapacityShort(s, h, 36, 1)];
  }

  /**
   * The capacity sum raises exactly when a teacher qualified for a subject of
   * the hours table stores a non-number; teachers of no such subject are never
   * summed.
   */
  lemma CapacitySumRaisesIff(rows: seq<SubjectHours>, teachers: seq<Teacher>)
    ensures CapacitySumRaises(rows, teachers) <==>
            exists r <- rows, t <- teachers :: r.subject in t.subjects && !CapacityIsNumber(t)
  {
    if CapacitySumRaises(rows, teachers) {
      var s :| s in SubjectOrder(rows) && !CapacitiesAreNumbers(Qualified(teachers, s));
      QualifiedMembers(teachers, s);
      SubjectOrderMembership(rows, s);
      var t :| t in Qualified(teachers, s) && !CapacityIsNumber(t);
      var r :| r in rows && r.subject == s;
      assert r.subject in t.subjects && !CapacityIsNumber(t);
    }
    if exists r <- rows, t <- teachers :: r.subject in t.subjects && !CapacityIsNumber(t) {
      var r, t :| r in rows && t in teachers && r.subject in t.subjects && !CapacityIsNumber(t);
      QualifiedMembers(teachers, r.subject);
      SubjectOrderMembership(rows, r.subject);
      assert !CapacitiesAreNumbers(Qualified(teachers, r.subject));
    }
  }
}
