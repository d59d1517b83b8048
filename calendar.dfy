/**
 * The fixed weekly calendar that every generator variant hard-codes:
 * weekdays Monday (1) to Saturday (6), lesson slots 1-7 for the first shift
 * and 8-13 for the second, and the total weekly slot count per shift.
 * Also the Gregorian weekday computation of Python's `date.weekday()`,
 * which the holiday filter of the oldest generator relies on.
 */
module Calendar {
  import opened Common

  datatype Shift = First | Second

  /** `WEEKDAYS = list(range(1, 7))`. */
  const Weekdays: seq<int> := [1, 2, 3, 4, 5, 6]
  /** `FIRST_SHIFT_SLOTS = list(range(1, 8))`. */
  const FirstShiftSlots: seq<int> := [1, 2, 3, 4, 5, 6, 7]
  /** `SECOND_SHIFT_SLOTS = list(range(8, 14))`. */
  const SecondShiftSlots: seq<int> := [8, 9, 10, 11, 12, 13]

  /** The slot list of a class is chosen by its shift (`class_slots`). */
  function SlotsOf(shift: Shift): seq<int>
  {
    if shift == First then FirstShiftSlots else SecondShiftSlots
  }

  /** `total_slots[shift]`: weekdays times slots of the shift. */
  function TotalSlots(shift: Shift): (n: nat)
    ensures n == |Weekdays| * |SlotsOf(shift)|
    ensures n == if shift == First then 42 else 36
  {
    |Weekdays| * |SlotsOf(shift)|
  }

  /** The capacity granted to a teacher without `max_hours_per_week`. */
  const DefaultCapacity: nat := TotalSlots(Second)

  lemma SlotFacts(shift: Shift, l: int)
    ensures l in SlotsOf(shift) <==> if shift == First then 1 <= l <= 7 else 8 <= l <= 13
    ensures Distinct(SlotsOf(shift)) && Distinct(Weekdays)
    ensures forall i | 0 <= i < |SlotsOf(shift)| :: SlotsOf(shift)[i] == SlotsOf(shift)[0] + i
  {
    var s := SlotsOf(shift);
    if shift == First {
      assert s == FirstShiftSlots;
      Consecutive(s, 1, l);
    } else {
      assert s == SecondShiftSlots;
      Consecutive(s, 8, l);
    }
    Consecutive(Weekdays, 1, l);
  }

  /** A run of consecutive integers from `a` has no repeats and holds exactly `a .. a + |s| - 1`. */
  lemma Consecutive(s: seq<int>, a: int, l: int)
    requires forall i | 0 <= i < |s| :: s[i] == a + i
    ensures Distinct(s)
    ensures l in s <==> a <= l < a + |s|
  {
    if a <= l < a + |s| {
      assert s[l - a] == l;
    }
  }

  /** A slot number determines the shift it belongs to. */
  lemma ShiftOfSlot(a: Shift, b: Shift, l: int)
    requires l in SlotsOf(a) && l in SlotsOf(b)
    ensures a == b
  {
    SlotFacts(a, l);
    SlotFacts(b, l);
  }

  // ---- Gregorian dates, as Python's datetime.date computes them ----

  datatype Date = Date(year: int, month: int, day: int)

  predicate IsLeap(y: int)
  {
    y % 4 == 0 && (y % 100 != 0 || y % 400 == 0)
  }

  function DaysInMonth(y: int, m: int): int
  {
    if m == 2 then (if IsLeap(y) then 29 else 28)
    else if m == 4 || m == 6 || m == 9 || m == 11 then 30
    else 31
  }

  predicate ValidDate(dt: Date)
  {
    1 <= dt.year && 1 <= dt.month <= 12 && 1 <= dt.day <= DaysInMonth(dt.year, dt.month)
  }

  function DaysBeforeYear(y: int): int
  {
    var p := y - 1;
    p * 365 + p / 4 - p / 100 + p / 400
  }

  function DaysBeforeMonth(y: int, m: int): int
    requires 1 <= m <= 12
    decreases m
  {
    if m == 1 then 0 else DaysBeforeMonth(y, m - 1) + DaysInMonth(y, m - 1)
  }

  /** `date.toordinal()`: 0001-01-01 is day 1. */
  function Ordinal(dt: Date): int
    requires ValidDate(dt)
  {
    DaysBeforeYear(dt.year) + DaysBeforeMonth(dt.year, dt.month) + dt.day
  }

  /** `date.weekday()`: Monday is 0, Sunday is 6. */
  function Weekday(dt: Date): (w: int)
    requires ValidDate(dt)
    ensures 0 <= w < 7
  {
    (Ordinal(dt) + 6) % 7
  }

  /** Within a month, the day after a date falls on the next weekday, Sunday wrapping to Monday. */
  lemma NextDayWeekday(dt: Date)
    requires ValidDate(dt) && dt.day < DaysInMonth(dt.year, dt.month)
    ensures Weekday(Date(dt.year, dt.month, dt.day + 1)) == (Weekday(dt) + 1) % 7
  {
    var o := Ordinal(dt) + 6;
    assert Ordinal(Date(dt.year, dt.month, dt.day + 1)) + 6 == o + 1;
    var q, r := o / 7, o % 7;
    assert o + 1 == 7 * q + (r + 1);
    if r == 6 {
      assert o + 1 == 7 * (q + 1);
    }
  }

  lemma {:induction false} DaysBeforeMonthShift(y: int, m: int)
    requires 1 <= m <= 12
    ensures DaysBeforeMonth(y + 400, m) == DaysBeforeMonth(y, m)
    decreases m
  {
    if m > 1 {
      DaysBeforeMonthShift(y, m - 1);
      LeapShift(y);
    }
  }

  /** 400 Gregorian years hold 146097 days: 97 of them are leap years. */
  lemma DaysBeforeYearShift(y: int)
    requires 1 <= y
    ensures DaysBeforeYear(y + 400) == DaysBeforeYear(y) + 146097
  {
    var p := y - 1;
    assert (p + 400) / 4 == p / 4 + 100;
    assert (p + 400) / 100 == p / 100 + 4;
    assert (p + 400) / 400 == p / 400 + 1;
  }

  /**
   * The Gregorian calendar repeats every 400 years (146097 days, a whole
   * number of weeks), so a date and the same date 400 years on share their weekday.
   */
  lemma WeekdayRepeatsEvery400Years(dt: Date)
    requires ValidDate(dt)
    ensures ValidDate(Date(dt.year + 400, dt.month, dt.day))
    ensures Weekday(Date(dt.year + 400, dt.month, dt.day)) == Weekday(dt)
  {
    OrdinalShift(dt);
    AddWeeks(Ordinal(dt) + 6, 20871);
  }

  lemma OrdinalShift(dt: Date)
    requires ValidDate(dt)
    ensures ValidDate(Date(dt.year + 400, dt.month, dt.day))
    ensures Ordinal(Date(dt.year + 400, dt.month, dt.day)) == Ordinal(dt) + 146097
  {
    LeapShift(dt.year);
    DaysBeforeMonthShift(dt.year, dt.month);
    DaysBeforeYearShift(dt.year);
  }

  lemma LeapShift(y: int)
    ensures IsLeap(y + 400) == IsLeap(y)
  {
    ShiftMod4(y);
    ShiftMod100(y);
    ShiftMod400(y);
  }

  lemma ShiftMod4(y: int)
    ensures (y + 400) % 4 == y % 4
  {
    assert y + 400 == 4 * (y / 4 + 100) + y % 4;
  }

  lemma ShiftMod100(y: int)
    ensures (y + 400) % 100 == y % 100
  {
    assert y + 400 == 100 * (y / 100 + 4) + y % 100;
  }

  lemma ShiftMod400(y: int)
    ensures (y + 400) % 400 == y % 400
  {
    assert y + 400 == 400 * (y / 400 + 1) + y % 400;
  }

  lemma AddWeeks(o: int, n: int)
    ensures (o + 7 * n) % 7 == o % 7
  {
    assert o + 7 * n == 7 * (o / 7 + n) + o % 7;
  }
}
