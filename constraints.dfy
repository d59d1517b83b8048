/**
 * The boolean constraint model of the wired-in generator.
 *
 * `y[(c, s, t, d, l)]` says "class c has subject s with teacher t on weekday d
 * in slot l"; `z[(c, s, t)]` says "teacher t is bound to (c, s) for the week".
 * A solver assignment is represented by the sets of keys whose variable is
 * true. Each hard constraint of the source is one predicate over those sets;
 * the lemmas below derive the schedule properties the constraints are there for.
 */
module Constraints {
  import opened Common
  import opened Calendar
  import opened Models
  import opened Validator

  datatype YKey = YKey(c: ClassId, s: SubjectId, t: TeacherId, d: int, l: int)
  datatype ZKey = ZKey(c: ClassId, s: SubjectId, t: TeacherId)

  // ---- Variable universe ----

  /** The y keys created for the given classes, hours rows and teachers. */
  function YOver(classes: seq<SchoolClass>, rows: seq<SubjectHours>, teachers: seq<Teacher>): set<YKey>
  {
    set cls <- classes, r <- rows, t <- teachers, d <- Weekdays, l <- SlotsOf(cls.shift)
      | r.schoolClass == cls.id && r.subject in t.subjects
      :: YKey(cls.id, r.subject, t.id, d, l)
  }

  function ZOver(classes: seq<SchoolClass>, rows: seq<SubjectHours>, teachers: seq<Teacher>): set<ZKey>
  {
    set cls <- classes, r <- rows, t <- teachers
      | r.schoolClass == cls.id && r.subject in t.subjects
      :: ZKey(cls.id, r.subject, t.id)
  }

  /**
   * Every (c, s, t, d, l) with (c, s) in the hours table, t qualified for s,
   * d a weekday and l a slot of c's shift.
   */
  function YUniverse(snap: Snapshot): set<YKey>
  {
    YOver(snap.classes, snap.hours, snap.teachers)
  }

  function ZUniverse(snap: Snapshot): set<ZKey>
  {
    ZOver(snap.classes, snap.hours, snap.teachers)
  }

  // ---- Linear sums over the true variables ----

  function ClassSubjectLessons(y: set<YKey>, c: ClassId, s: SubjectId): set<YKey>
  {
    set k | k in y && k.c == c && k.s == s
  }

  function CountCS(y: set<YKey>, c: ClassId, s: SubjectId): nat
  {
    |ClassSubjectLessons(y, c, s)|
  }

  function ClassSubjectDayLessons(y: set<YKey>, c: ClassId, s: SubjectId, d: int): set<YKey>
  {
    set k | k in y && k.c == c && k.s == s && k.d == d
  }

  function CountCSD(y: set<YKey>, c: ClassId, s: SubjectId, d: int): nat
  {
    |ClassSubjectDayLessons(y, c, s, d)|
  }

  function CountSlot(y: set<YKey>, c: ClassId, d: int, l: int): nat
  {
    |set k | k in y && k.c == c && k.d == d && k.l == l|
  }

  function CountTeacherSlot(y: set<YKey>, t: TeacherId, cids: set<ClassId>, d: int, l: int): nat
  {
    |set k | k in y && k.t == t && k.c in cids && k.d == d && k.l == l|
  }

  function CountTeacher(y: set<YKey>, t: TeacherId): nat
  {
    |set k | k in y && k.t == t|
  }

  function DayLoad(y: set<YKey>, c: ClassId, d: int): nat
  {
    |DayLessons(y, c, d)|
  }

  function BoundTeachers(z: set<ZKey>, c: ClassId, s: SubjectId): set<ZKey>
  {
    set zk | zk in z && zk.c == c && zk.s == s
  }

  function ClassIdsOfShift(classes: seq<SchoolClass>, sh: Shift): set<ClassId>
  {
    set cls <- classes | cls.shift == sh :: cls.id
  }

  // ---- Hard constraints, one per block of the source ----

  /** 5.1: `y <= z` for every created y. */
  ghost predicate YBoundByZ(y: set<YKey>, z: set<ZKey>)
  {
    forall k <- y :: ZKey(k.c, k.s, k.t) in z
  }

  /** 5.2: exactly one bound teacher per (c, s) of the hours table, zero-hour rows included. */
  ghost predicate OneTeacherPerClassSubject(snap: Snapshot, z: set<ZKey>)
  {
    forall r <- snap.hours :: |BoundTeachers(z, r.schoolClass, r.subject)| == 1
  }

  /** 5.3: the lessons of (c, s) over the week number exactly its hours. */
  ghost predicate ExactHours(snap: Snapshot, y: set<YKey>)
  {
    forall r <- snap.hours :: CountCS(y, r.schoolClass, r.subject) == r.hoursPerWeek
  }

  /** 5.4, first half: at most one lesson of a subject per class and day. */
  ghost predicate AtMostOncePerDay(snap: Snapshot, y: set<YKey>)
  {
    forall r <- snap.hours, d <- Weekdays :: CountCSD(y, r.schoolClass, r.subject, d) <= 1
  }

  /** 5.4, second half: exactly one per day when the hours equal the number of weekdays. */
  ghost predicate FullWeekEveryDay(snap: Snapshot, y: set<YKey>)
  {
    forall r <- snap.hours, d <- Weekdays | r.hoursPerWeek == |Weekdays| ::
      CountCSD(y, r.schoolClass, r.subject, d) == 1
  }

  /** 5.5: at most one lesson per (class, day, slot). */
  ghost predicate OneLessonPerClassSlot(snap: Snapshot, y: set<YKey>)
  {
    forall cls <- snap.classes, d <- Weekdays, l <- SlotsOf(cls.shift) :: CountSlot(y, cls.id, d, l) <= 1
  }

  /** 5.6, first half: per shift, at most one lesson per (teacher, day, slot) among that shift's classes. */
  ghost predicate OneLessonPerTeacherSlot(snap: Snapshot, y: set<YKey>)
  {
    forall t <- snap.teachers, sh: Shift, d <- Weekdays, l <- SlotsOf(sh) ::
      CountTeacherSlot(y, t.id, ClassIdsOfShift(snap.classes, sh), d, l) <= 1
  }

  /** 5.6, second half: a teacher's weekly total is within `max_hours_per_week` (default 36). */
  ghost predicate TeacherWeeklyCap(snap: Snapshot, y: set<YKey>)
  {
    forall t <- snap.teachers :: CountTeacher(y, t.id) <= Capacity(t)
  }

  /** 5.7: the count at each slot is at most the count at the previous slot of the shift. */
  ghost predicate NoGaps(snap: Snapshot, y: set<YKey>)
  {
    forall cls <- snap.classes, d <- Weekdays, i | 1 <= i < |SlotsOf(cls.shift)| ::
      CountSlot(y, cls.id, d, SlotsOf(cls.shift)[i]) <= CountSlot(y, cls.id, d, SlotsOf(cls.shift)[i - 1])
  }

  /** All hard constraints of the wired-in generator, over true keys drawn from the universe. */
  ghost predicate HardConstraints(snap: Snapshot, y: set<YKey>, z: set<ZKey>)
  {
    && y <= YUniverse(snap) && z <= ZUniverse(snap)
    && YBoundByZ(y, z)
    && OneTeacherPerClassSubject(snap, z)
    && ExactHours(snap, y)
    && AtMostOncePerDay(snap, y)
    && FullWeekEveryDay(snap, y)
    && OneLessonPerClassSlot(snap, y)
    && OneLessonPerTeacherSlot(snap, y)
    && TeacherWeeklyCap(snap, y)
    && NoGaps(snap, y)
  }

  /** 5.8: per class, `Lmax`/`Lmin` lie in 0..len(slots) and bound every day's load. */
  ghost predicate Balanced(snap: Snapshot, y: set<YKey>, lmax: map<ClassId, int>, lmin: map<ClassId, int>)
  {
    forall cls <- snap.classes ::
      && cls.id in lmax && cls.id in lmin
      && 0 <= lmax[cls.id] <= |SlotsOf(cls.shift)|
      && 0 <= lmin[cls.id] <= |SlotsOf(cls.shift)|
      && forall d <- Weekdays :: lmin[cls.id] <= DayLoad(y, cls.id, d) <= lmax[cls.id]
  }

  /** `sum(Lmax[c.id] - Lmin[c.id] for c in classes)`, the quantity minimised. */
  function Objective(classes: seq<SchoolClass>, lmax: map<ClassId, int>, lmin: map<ClassId, int>): int
  {
    if classes == [] then 0
    else
      var c := classes[|classes| - 1].id;
      Objective(classes[..|classes| - 1], lmax, lmin) + (if c in lmax && c in lmin then lmax[c] - lmin[c] else 0)
  }

  // ---- Facts about keys of the universe ----

  /** A key of the universe comes from a class, an hours row of that class, and a teacher qualified for the subject. */
  lemma UniverseKey(snap: Snapshot, k: YKey)
    requires k in YUniverse(snap)
    ensures exists cls <- snap.classes :: cls.id == k.c && k.l in SlotsOf(cls.shift)
    ensures exists r <- snap.hours :: r.schoolClass == k.c && r.subject == k.s
    ensures exists t <- snap.teachers :: t.id == k.t && k.s in t.subjects
    ensures k.d in Weekdays
  {
  }

  /** In a snapshot with unique class ids, a key's slot belongs to the shift of the class with the key's id. */
  lemma UniverseKeySlot(snap: Snapshot, k: YKey, cls: SchoolClass)
    requires WellFormed(snap) && k in YUniverse(snap) && cls in snap.classes && cls.id == k.c
    ensures k.l in SlotsOf(cls.shift)
  {
    UniverseKey(snap, k);
    var other :| other in snap.classes && other.id == k.c && k.l in SlotsOf(other.shift);
    var i :| 0 <= i < |snap.classes| && snap.classes[i] == cls;
    var j :| 0 <= j < |snap.classes| && snap.classes[j] == other;
    assert i == j;
  }

  // ---- Counting helpers ----

  lemma AtMostOneMember<T>(S: set<T>, a: T, b: T)
    requires |S| <= 1 && a in S && b in S
    ensures a == b
  {
    var rest := S - {a};
    assert |rest| == 0;
    assert rest == {};
  }

  /** The weekday of a y key. */
  function KeyDay(k: YKey): int { k.d }

  /** The lesson number of a y key. */
  function KeySlot(k: YKey): int { k.l }

  function PartCounts(S: set<YKey>, f: YKey -> int, D: seq<int>): (r: seq<int>)
    ensures |r| == |D|
    ensures forall i | 0 <= i < |D| :: r[i] == |set k | k in S && f(k) == D[i]|
  {
    seq(|D|, i requires 0 <= i < |D| => |set k | k in S && f(k) == D[i]|)
  }

  /** The part of `S` whose `f` value is `x`. */
  function Part(S: set<YKey>, f: YKey -> int, x: int): (r: set<YKey>)
    ensures r <= S
    ensures forall k <- r :: f(k) == x
  {
    set k | k in S && f(k) == x
  }

  /** Removing the last value's part leaves the counts of the other values as they were. */
  lemma PartCountsDropLast(S: set<YKey>, f: YKey -> int, D: seq<int>)
    requires Distinct(D) && D != []
    ensures PartCounts(S - Part(S, f, D[|D| - 1]), f, D[..|D| - 1]) == PartCounts(S, f, D)[..|D| - 1]
  {
    var rest := S - Part(S, f, D[|D| - 1]);
    var pre := D[..|D| - 1];
    var pcS := PartCounts(S, f, D);
    var pcR := PartCounts(rest, f, pre);
    forall i | 0 <= i < |pre| ensures pcR[i] == pcS[i] {
      assert D[i] != D[|D| - 1];
      assert (set k | k in rest && f(k) == pre[i]) == (set k | k in S && f(k) == D[i]);
    }
  }

  /** Once the last value's part is removed, the remaining values still cover the set. */
  lemma RestCoveredByPrefix(S: set<YKey>, f: YKey -> int, D: seq<int>)
    requires D != [] && forall k <- S :: f(k) in D
    ensures forall k <- S - Part(S, f, D[|D| - 1]) :: f(k) in D[..|D| - 1]
  {
    forall k <- S - Part(S, f, D[|D| - 1]) ensures f(k) in D[..|D| - 1] {
      var i :| 0 <= i < |D| && D[i] == f(k);
      assert D[..|D| - 1][i] == f(k);
    }
  }

  /** Splitting a finite set by the value of `f` over distinct values `D` that cover it. */
  lemma {:induction false} PartitionCount(S: set<YKey>, f: YKey -> int, D: seq<int>)
    requires Distinct(D)
    requires forall k <- S :: f(k) in D
    ensures |S| == Sum(PartCounts(S, f, D))
    decreases |D|
  {
    if D == [] {
      assert S == {} by {
        forall k | k in S ensures false { }
      }
    } else {
      var A := Part(S, f, D[|D| - 1]);
      var rest := S - A;
      var pcS := PartCounts(S, f, D);
      RestCoveredByPrefix(S, f, D);
      assert Distinct(D[..|D| - 1]);
      PartitionCount(rest, f, D[..|D| - 1]);
      PartCountsDropLast(S, f, D);
      assert |S| == |rest| + |A| by {
        assert S == rest + A && rest * A == {};
      }
      assert Sum(pcS) == Sum(pcS[..|D| - 1]) + |A|;
    }
  }

  lemma {:induction false} SumAllAtMostOne(xs: seq<int>)
    requires forall i | 0 <= i < |xs| :: 0 <= xs[i] <= 1
    ensures Sum(xs) <= |xs|
    ensures Sum(xs) == |xs| ==> forall i | 0 <= i < |xs| :: xs[i] == 1
  {
    if xs != [] {
      var pre := xs[..|xs| - 1];
      SumAllAtMostOne(pre);
      if Sum(xs) == |xs| {
        assert Sum(pre) == |pre| && xs[|xs| - 1] == 1;
        forall i | 0 <= i < |xs| ensures xs[i] == 1 {
          if i < |pre| { assert pre[i] == xs[i]; }
        }
      }
    }
  }

  // ---- Properties the constraints enforce ----

  /**
   * `y <= z` together with exactly one true `z` per (class, subject) means all
   * lessons of a class-subject pair are taught by one teacher.
   */
  lemma OneTeacherForAllLessons(snap: Snapshot, y: set<YKey>, z: set<ZKey>)
    requires y <= YUniverse(snap) && YBoundByZ(y, z) && OneTeacherPerClassSubject(snap, z)
    ensures forall k1 <- y, k2 <- y | k1.c == k2.c && k1.s == k2.s :: k1.t == k2.t
  {
    forall k1 <- y, k2 <- y | k1.c == k2.c && k1.s == k2.s
      ensures k1.t == k2.t
    {
      UniverseKey(snap, k1);
      var r :| r in snap.hours && r.schoolClass == k1.c && r.subject == k1.s;
      var bound := BoundTeachers(z, r.schoolClass, r.subject);
      assert ZKey(k1.c, k1.s, k1.t) in bound;
      assert ZKey(k2.c, k2.s, k2.t) in bound;
      AtMostOneMember(bound, ZKey(k1.c, k1.s, k1.t), ZKey(k2.c, k2.s, k2.t));
    }
  }

  /** The first slot index at or after `i` that holds no lesson, or the slot count. */
  ghost function FirstFreeSlot(y: set<YKey>, c: ClassId, d: int, slots: seq<int>, i: nat): (n: nat)
    requires i <= |slots|
    ensures i <= n <= |slots|
    ensures forall j | i <= j < n :: CountSlot(y, c, d, slots[j]) >= 1
    ensures n < |slots| ==> CountSlot(y, c, d, slots[n]) == 0
    decreases |slots| - i
  {
    if i == |slots| then i
    else if CountSlot(y, c, d, slots[i]) == 0 then i
    else FirstFreeSlot(y, c, d, slots, i + 1)
  }

  lemma {:induction false} CountsDecrease(snap: Snapshot, y: set<YKey>, cls: SchoolClass, d: int, i: nat, j: nat)
    requires NoGaps(snap, y) && cls in snap.classes && d in Weekdays
    requires i <= j < |SlotsOf(cls.shift)|
    ensures CountSlot(y, cls.id, d, SlotsOf(cls.shift)[j]) <= CountSlot(y, cls.id, d, SlotsOf(cls.shift)[i])
    decreases j - i
  {
    if i < j {
      CountsDecrease(snap, y, cls, d, i, j - 1);
    }
  }

  /** Slots `0..n-1` of the list hold one lesson each and the remaining slots none. */
  ghost predicate OccupiedPrefix(y: set<YKey>, c: ClassId, d: int, slots: seq<int>, n: nat)
  {
    n <= |slots| && forall i | 0 <= i < |slots| :: CountSlot(y, c, d, slots[i]) == if i < n then 1 else 0
  }

  /**
   * The no-gap rule with one lesson per class slot makes a class's occupied
   * slots on each day a prefix of its shift's slot list: the first `n` slots
   * hold exactly one lesson each and the rest hold none.
   */
  lemma OccupiedSlotsFormPrefix(snap: Snapshot, y: set<YKey>, cls: SchoolClass, d: int)
    requires NoGaps(snap, y) && OneLessonPerClassSlot(snap, y)
    requires cls in snap.classes && d in Weekdays
    ensures exists n :: OccupiedPrefix(y, cls.id, d, SlotsOf(cls.shift), n)
  {
    var slots := SlotsOf(cls.shift);
    var n := FirstFreeSlot(y, cls.id, d, slots, 0);
    forall i | 0 <= i < |slots|
      ensures CountSlot(y, cls.id, d, slots[i]) == if i < n then 1 else 0
    {
      SlotAtMostOne(snap, y, cls, d, i);
      if i >= n {
        CountsDecrease(snap, y, cls, d, n, i);
      }
    }
    assert OccupiedPrefix(y, cls.id, d, slots, n);
  }

  lemma SlotAtMostOne(snap: Snapshot, y: set<YKey>, cls: SchoolClass, d: int, i: nat)
    requires OneLessonPerClassSlot(snap, y)
    requires cls in snap.classes && d in Weekdays && i < |SlotsOf(cls.shift)|
    ensures CountSlot(y, cls.id, d, SlotsOf(cls.shift)[i]) <= 1
  {
    assert SlotsOf(cls.shift)[i] in SlotsOf(cls.shift);
  }

  /** The day-by-day split of one class-subject pair's lessons. */
  lemma ClassSubjectByDay(snap: Snapshot, y: set<YKey>, c: ClassId, s: SubjectId)
    requires y <= YUniverse(snap)
    ensures CountCS(y, c, s) == Sum(PartCounts(ClassSubjectLessons(y, c, s), KeyDay, Weekdays))
    ensures forall i | 0 <= i < |Weekdays| ::
      PartCounts(ClassSubjectLessons(y, c, s), KeyDay, Weekdays)[i] == CountCSD(y, c, s, Weekdays[i])
  {
    var S := ClassSubjectLessons(y, c, s);
    assert forall k <- S :: KeyDay(k) in Weekdays by {
      forall k <- S ensures KeyDay(k) in Weekdays {
        UniverseKey(snap, k);
      }
    }
    assert Distinct(Weekdays) by {
      SlotFacts(First, 1);
    }
    PartitionCount(S, KeyDay, Weekdays);
    forall i | 0 <= i < |Weekdays|
      ensures PartCounts(S, KeyDay, Weekdays)[i] == CountCSD(y, c, s, Weekdays[i])
    {
      DayPart(y, c, s, Weekdays[i]);
    }
  }

  /** The part of a class-subject pair's lessons on weekday `d` is its lessons of that day. */
  lemma DayPart(y: set<YKey>, c: ClassId, s: SubjectId, d: int)
    ensures Part(ClassSubjectLessons(y, c, s), KeyDay, d) == ClassSubjectDayLessons(y, c, s, d)
  {
  }

  /**
   * "At most one per day" and "exactly the weekly hours" already force a
   * subject whose hours equal the number of weekdays onto every weekday; the
   * explicit "exactly one" constraint of 5.4 is implied.
   */
  lemma FullWeekSubjectDaily(snap: Snapshot, y: set<YKey>)
    requires y <= YUniverse(snap) && ExactHours(snap, y) && AtMostOncePerDay(snap, y)
    ensures FullWeekEveryDay(snap, y)
  {
    forall r <- snap.hours, d <- Weekdays | r.hoursPerWeek == |Weekdays|
      ensures CountCSD(y, r.schoolClass, r.subject, d) == 1
    {
      var pc := PartCounts(ClassSubjectLessons(y, r.schoolClass, r.subject), KeyDay, Weekdays);
      ClassSubjectByDay(snap, y, r.schoolClass, r.subject);
      forall i | 0 <= i < |pc| ensures 0 <= pc[i] <= 1 {
        assert Weekdays[i] in Weekdays;
      }
      SumAllAtMostOne(pc);
      var i :| 0 <= i < |Weekdays| && Weekdays[i] == d;
      assert pc[i] == CountCSD(y, r.schoolClass, r.subject, d);
    }
  }

  /** One lesson per class slot makes (class, weekday, lesson number) a key of the true y's. */
  lemma ClassSlotKeyUnique(snap: Snapshot, y: set<YKey>)
    requires y <= YUniverse(snap) && OneLessonPerClassSlot(snap, y)
    ensures forall k1 <- y, k2 <- y | k1.c == k2.c && k1.d == k2.d && k1.l == k2.l :: k1 == k2
  {
    forall k1 <- y, k2 <- y | k1.c == k2.c && k1.d == k2.d && k1.l == k2.l
      ensures k1 == k2
    {
      UniverseKey(snap, k1);
      var cls :| cls in snap.classes && cls.id == k1.c && k1.l in SlotsOf(cls.shift);
      var S := set k | k in y && k.c == cls.id && k.d == k1.d && k.l == k1.l;
      assert CountSlot(y, cls.id, k1.d, k1.l) <= 1;
      AtMostOneMember(S, k1, k2);
    }
  }

  /** The per-shift teacher constraint keeps every teacher in at most one place per (weekday, slot). */
  lemma TeacherNeverDoubleBooked(snap: Snapshot, y: set<YKey>)
    requires y <= YUniverse(snap) && OneLessonPerTeacherSlot(snap, y)
    ensures forall k1 <- y, k2 <- y | k1.t == k2.t && k1.d == k2.d && k1.l == k2.l :: k1 == k2
  {
    forall k1 <- y, k2 <- y | k1.t == k2.t && k1.d == k2.d && k1.l == k2.l
      ensures k1 == k2
    {
      TeacherSlotPair(snap, y, k1, k2);
    }
  }

  /** Two true keys of one teacher at one (weekday, slot) are the same key. */
  lemma TeacherSlotPair(snap: Snapshot, y: set<YKey>, k1: YKey, k2: YKey)
    requires y <= YUniverse(snap) && OneLessonPerTeacherSlot(snap, y)
    requires k1 in y && k2 in y && k1.t == k2.t && k1.d == k2.d && k1.l == k2.l
    ensures k1 == k2
  {
    var sh := SharedShift(snap, k1, k2);
    UniverseKey(snap, k1);
    var t :| t in snap.teachers && t.id == k1.t && k1.s in t.subjects;
    TeacherSlotBound(snap, y, t, sh, k1.d, k1.l);
    var cids := ClassIdsOfShift(snap.classes, sh);
    var S := set k | k in y && k.t == t.id && k.c in cids && k.d == k1.d && k.l == k1.l;
    AtMostOneMember(S, k1, k2);
  }

  /** Two keys of the universe at one slot number belong to classes of one shift, whose slot it is. */
  lemma SharedShift(snap: Snapshot, k1: YKey, k2: YKey) returns (sh: Shift)
    requires k1 in YUniverse(snap) && k2 in YUniverse(snap) && k1.l == k2.l
    ensures k1.c in ClassIdsOfShift(snap.classes, sh) && k2.c in ClassIdsOfShift(snap.classes, sh)
    ensures k1.l in SlotsOf(sh)
  {
    UniverseKey(snap, k1);
    UniverseKey(snap, k2);
    var c1 :| c1 in snap.classes && c1.id == k1.c && k1.l in SlotsOf(c1.shift);
    var c2 :| c2 in snap.classes && c2.id == k2.c && k2.l in SlotsOf(c2.shift);
    ShiftOfSlot(c1.shift, c2.shift, k1.l);
    ClassInShiftIds(snap.classes, c1);
    ClassInShiftIds(snap.classes, c2);
    sh := c1.shift;
  }

  lemma ClassInShiftIds(classes: seq<SchoolClass>, cls: SchoolClass)
    requires cls in classes
    ensures cls.id in ClassIdsOfShift(classes, cls.shift)
  {
  }

  /** The per-shift teacher constraint, at one teacher, shift, weekday and slot. */
  lemma TeacherSlotBound(snap: Snapshot, y: set<YKey>, t: Teacher, sh: Shift, d: int, l: int)
    requires OneLessonPerTeacherSlot(snap, y)
    requires t in snap.teachers && d in Weekdays && l in SlotsOf(sh)
    ensures CountTeacherSlot(y, t.id, ClassIdsOfShift(snap.classes, sh), d, l) <= 1
  {
  }

  function DayLessons(y: set<YKey>, c: ClassId, d: int): set<YKey>
  {
    set k | k in y && k.c == c && k.d == d
  }

  /** The slot-by-slot split of one class's lessons on one day. */
  lemma DayBySlot(y: set<YKey>, c: ClassId, d: int, slots: seq<int>)
    requires Distinct(slots)
    requires forall k <- DayLessons(y, c, d) :: k.l in slots
    ensures DayLoad(y, c, d) == Sum(PartCounts(DayLessons(y, c, d), KeySlot, slots))
    ensures forall i | 0 <= i < |slots| ::
      PartCounts(DayLessons(y, c, d), KeySlot, slots)[i] == CountSlot(y, c, d, slots[i])
  {
    var S := DayLessons(y, c, d);
    var f := KeySlot;
    PartitionCount(S, f, slots);
    forall i | 0 <= i < |slots|
      ensures PartCounts(S, f, slots)[i] == CountSlot(y, c, d, slots[i])
    {
      assert (set k | k in S && f(k) == slots[i]) == (set k | k in y && k.c == c && k.d == d && k.l == slots[i]);
    }
  }

  /** A class's lessons on one day never exceed its shift's slot count. */
  lemma DayLoadBounded(snap: Snapshot, y: set<YKey>, cls: SchoolClass, d: int)
    requires WellFormed(snap) && y <= YUniverse(snap) && OneLessonPerClassSlot(snap, y)
    requires cls in snap.classes && d in Weekdays
    ensures DayLoad(y, cls.id, d) <= |SlotsOf(cls.shift)|
  {
    var slots := SlotsOf(cls.shift);
    forall k <- DayLessons(y, cls.id, d) ensures k.l in slots {
      UniverseKeySlot(snap, k, cls);
    }
    SlotFacts(cls.shift, slots[0]);
    DayBySlot(y, cls.id, d, slots);
    var pc := PartCounts(DayLessons(y, cls.id, d), KeySlot, slots);
    forall i | 0 <= i < |pc| ensures 0 <= pc[i] <= 1 {
      SlotAtMostOne(snap, y, cls, d, i);
    }
    SumAllAtMostOne(pc);
  }

  /**
   * The balancing variables never make a model infeasible: any assignment
   * with one lesson per class slot admits `Lmax`/`Lmin` values in range.
   */
  lemma BalanceAlwaysAttainable(snap: Snapshot, y: set<YKey>)
    requires WellFormed(snap) && y <= YUniverse(snap) && OneLessonPerClassSlot(snap, y)
    ensures exists lmax, lmin :: Balanced(snap, y, lmax, lmin)
  {
    var ids := set cls <- snap.classes :: cls.id;
    var lmax := map id | id in ids && FindClass(snap.classes, id).Some? :: |SlotsOf(FindClass(snap.classes, id).value.shift)|;
    var lmin := map id | id in ids :: 0;
    forall cls <- snap.classes
      ensures cls.id in lmax && lmax[cls.id] == |SlotsOf(cls.shift)|
    {
      FindClassUnique(snap, cls);
    }
    forall cls <- snap.classes, d <- Weekdays
      ensures DayLoad(y, cls.id, d) <= lmax[cls.id]
    {
      DayLoadBounded(snap, y, cls, d);
    }
    assert Balanced(snap, y, lmax, lmin);
  }

  /** With unique class ids, looking a class up by its own id finds it. */
  lemma FindClassUnique(snap: Snapshot, cls: SchoolClass)
    requires WellFormed(snap) && cls in snap.classes
    ensures FindClass(snap.classes, cls.id) == Some(cls)
  {
    var found := FindClass(snap.classes, cls.id);
    assert found.Some?;
    var i :| 0 <= i < |snap.classes| && snap.classes[i] == cls;
    var j :| 0 <= j < |snap.classes| && snap.classes[j] == found.value;
    assert i == j;
  }

  /** The objective is never negative: `Lmax >= Lmin` for each class once both bound a day's load. */
  lemma {:induction false} ObjectiveNonNegative(snap: Snapshot, y: set<YKey>, lmax: map<ClassId, int>, lmin: map<ClassId, int>, classes: seq<SchoolClass>)
    requires Balanced(snap, y, lmax, lmin)
    requires forall cls <- classes :: cls in snap.classes
    ensures Objective(classes, lmax, lmin) >= 0
  {
    if classes != [] {
      var cls := classes[|classes| - 1];
      assert Weekdays[0] in Weekdays;
      assert lmin[cls.id] <= DayLoad(y, cls.id, 1) <= lmax[cls.id];
      ObjectiveNonNegative(snap, y, lmax, lmin, classes[..|classes| - 1]);
    }
  }
}
