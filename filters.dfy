/**
 * The template filters of the timetable page: dictionary lookups with a
 * default, an inclusive integer range, and the lesson-number to clock-time
 * lookup, whose table is chosen by the class's shift code.
 */
module Filters {
  import opened Common
  import opened Calendar
  import opened Models

  /** `get_item`: the list under `key`; a missing key reads as an empty list. */
  function GetItem<K, V>(d: map<K, seq<V>>, key: K): (r: seq<V>)
    ensures key in d ==> r == d[key]
    ensures key !in d ==> r == []
  {
    if key in d then d[key] else []
  }

  /** `dict_get`: the string under `key`; a missing key reads as "". */
  function DictGet<K>(d: map<K, string>, key: K): (r: string)
    ensures key in d ==> r == d[key]
    ensures key !in d ==> r == ""
  {
    if key in d then d[key] else ""
  }

  /** `to_range(start, end)`: `range(start, end + 1)`, both ends included. */
  function ToRange(start: int, end: int): (r: seq<int>)
    ensures |r| == if end >= start then end - start + 1 else 0
    ensures forall i | 0 <= i < |r| :: r[i] == start + i
    decreases end - start
  {
    if start > end then [] else [start] + ToRange(start + 1, end)
  }

  /** The range holds exactly the integers from `start` to `end`, ascending. */
  lemma ToRangeMembers(start: int, end: int)
    ensures forall x :: x in ToRange(start, end) <==> start <= x <= end
    ensures forall i, j | 0 <= i < j < |ToRange(start, end)| :: ToRange(start, end)[i] < ToRange(start, end)[j]
  {
    var r := ToRange(start, end);
    forall x | start <= x <= end ensures x in r {
      assert r[x - start] == x;
    }
  }

  // ---- lesson_time ----

  /** The start and end of each first-shift lesson. */
  const TimesFirst: map<int, string> := map[
    1 := "08:00–08:40", 2 := "08:50–09:30", 3 := "09:50–10:30", 4 := "10:50–11:30",
    5 := "11:40–12:20", 6 := "12:30–13:10", 7 := "13:20–14:00"]

  /** The start and end of each second-shift lesson. */
  const TimesSecond: map<int, string> := map[
    8 := "13:40–14:20", 9 := "14:40–15:20", 10 := "15:40–16:20",
    11 := "16:30–17:10", 12 := "17:20–18:00", 13 := "18:10–18:50"]

  /** What a template hands the filter: a number, or text to be converted with `int()`. */
  datatype FilterArg = IntArg(n: int) | TextArg(s: string)

  predicate AllDigits(s: string)
  {
    forall c <- s :: '0' <= c <= '9'
  }

  predicate IsDigit(c: char)
  {
    '0' <= c <= '9'
  }

  /** The characters Python's `str.isspace` accepts; `int()` ignores them at both ends of its text. */
  predicate IsSpace(c: char)
  {
    || c == ' ' || '\t' <= c <= '\r' || '\U{1c}' <= c <= '\U{1f}' || c == '\U{85}' || c == '\U{a0}'
    || c == '\U{1680}' || '\U{2000}' <= c <= '\U{200a}' || c == '\U{2028}' || c == '\U{2029}'
    || c == '\U{202f}' || c == '\U{205f}' || c == '\U{3000}'
  }

  predicate AllSpace(s: string)
  {
    forall c <- s :: IsSpace(c)
  }

  function TrimStart(s: string): string
  {
    if |s| > 0 && IsSpace(s[0]) then TrimStart(s[1..]) else s
  }

  function TrimEnd(s: string): string
  {
    if |s| > 0 && IsSpace(s[|s| - 1]) then TrimEnd(s[..|s| - 1]) else s
  }

  /** `s.strip()`: the text without its leading and trailing white space. */
  function Strip(s: string): string
  {
    TrimEnd(TrimStart(s))
  }

  /**
   * The digits of a base-10 literal: at least one digit, and an underscore
   * only between two digits (`1_000`, not `_1`, `1_` or `1__0`).
   */
  predicate DigitRun(b: string)
  {
    |b| > 0 && forall i | 0 <= i < |b| ::
      IsDigit(b[i]) || (b[i] == '_' && 0 < i < |b| - 1 && IsDigit(b[i - 1]) && IsDigit(b[i + 1]))
  }

  /** The text `int()` accepts once stripped: an optional sign, then a digit run. */
  predicate IntLiteral(t: string)
  {
    DigitRun(t) || (|t| > 1 && (t[0] == '-' || t[0] == '+') && DigitRun(t[1..]))
  }

  function DropUnderscores(s: string): (r: string)
    ensures |r| <= |s|
  {
    if s == [] then []
    else DropUnderscores(s[..|s| - 1]) + (if s[|s| - 1] == '_' then [] else [s[|s| - 1]])
  }

  /**
   * `int(s)` on text: white space at both ends is ignored, then an optional
   * sign and a digit run whose underscores are skipped.
   */
  function ParseInt(s: string): (r: Option<int>)
    ensures r.Some? <==> IntLiteral(Strip(s))
  {
    var t := Strip(s);
    if DigitRun(t) then Some(ParseDigits(DropUnderscores(t)))
    else if |t| > 1 && t[0] == '-' && DigitRun(t[1..]) then Some(0 - (ParseDigits(DropUnderscores(t[1..])) as int))
    else if |t| > 1 && t[0] == '+' && DigitRun(t[1..]) then Some(ParseDigits(DropUnderscores(t[1..])))
    else None
  }

  // ---- what int() makes of padded and grouped digits ----

  lemma {:induction false} TrimStartPadded(w: string, s: string)
    requires AllSpace(w)
    ensures TrimStart(w + s) == TrimStart(s)
  {
    if w != [] {
      assert w[0] in w && (w + s)[0] == w[0];
      assert (w + s)[1..] == w[1..] + s;
      TrimStartPadded(w[1..], s);
    } else {
      assert w + s == s;
    }
  }

  lemma {:induction false} TrimEndPadded(s: string, w: string)
    requires AllSpace(w)
    ensures TrimEnd(s + w) == TrimEnd(s)
    decreases |w|
  {
    if w != [] {
      assert w[|w| - 1] in w && (s + w)[|s + w| - 1] == w[|w| - 1];
      assert (s + w)[..|s + w| - 1] == s + w[..|w| - 1];
      TrimEndPadded(s, w[..|w| - 1]);
    } else {
      assert s + w == s;
    }
  }

  /** Trailing white space survives `TrimStart` unless nothing else is left. */
  lemma {:induction false} TrimStartAppend(s: string, w: string)
    requires AllSpace(w)
    ensures TrimStart(s + w) == TrimStart(s) + (if TrimStart(s) == [] then [] else w)
  {
    if s == [] {
      assert w + [] == w && s + w == w;
      TrimStartPadded(w, []);
    } else if IsSpace(s[0]) {
      assert (s + w)[0] == s[0];
      assert (s + w)[1..] == s[1..] + w;
      TrimStartAppend(s[1..], w);
    } else {
      assert (s + w)[0] == s[0];
    }
  }

  lemma StripPadded(w1: string, s: string, w2: string)
    requires AllSpace(w1) && AllSpace(w2)
    ensures Strip(w1 + s + w2) == Strip(s)
  {
    assert w1 + s + w2 == w1 + (s + w2);
    TrimStartPadded(w1, s + w2);
    TrimStartAppend(s, w2);
    if TrimStart(s) != [] {
      TrimEndPadded(TrimStart(s), w2);
    } else {
      assert TrimStart(s) + [] == TrimStart(s);
    }
  }

  /** White space around the text does not change what `int()` reads. */
  lemma ParseIntPadded(w1: string, s: string, w2: string)
    requires AllSpace(w1) && AllSpace(w2)
    ensures ParseInt(w1 + s + w2) == ParseInt(s)
  {
    StripPadded(w1, s, w2);
  }

  lemma {:induction false} DropUnderscoresAppend(a: string, b: string)
    ensures DropUnderscores(a + b) == DropUnderscores(a) + DropUnderscores(b)
    decreases |b|
  {
    if b != [] {
      var b' := b[..|b| - 1];
      assert (a + b)[..|a + b| - 1] == a + b';
      DropUnderscoresAppend(a, b');
    } else {
      assert a + b == a;
    }
  }

  lemma {:induction false} DropUnderscoresDigits(a: string)
    requires AllDigits(a)
    ensures DropUnderscores(a) == a
  {
    if a != [] {
      var a' := a[..|a| - 1];
      assert a[|a| - 1] in a;
      assert forall c <- a' :: c in a;
      DropUnderscoresDigits(a');
      assert a' + [a[|a| - 1]] == a;
    }
  }

  lemma DigitsStripped(a: string)
    requires |a| > 0 && IsDigit(a[0]) && IsDigit(a[|a| - 1])
    ensures Strip(a) == a
  {
  }

  /** Plain digit text reads as its digits' value. */
  lemma ParseIntDigits(t: string)
    requires |t| > 0 && AllDigits(t)
    ensures ParseInt(t) == Some(ParseDigits(t))
  {
    assert t[0] in t && t[|t| - 1] in t;
    DigitsStripped(t);
    assert DigitRun(t) by {
      forall i | 0 <= i < |t| ensures IsDigit(t[i]) {
        assert t[i] in t;
      }
    }
    DropUnderscoresDigits(t);
  }

  /** Two digit groups joined by one underscore form a digit run. */
  lemma GroupedRun(a: string, b: string)
    requires |a| > 0 && |b| > 0 && AllDigits(a) && AllDigits(b)
    ensures DigitRun(a + "_" + b) && Strip(a + "_" + b) == a + "_" + b
  {
    var g := a + "_" + b;
    assert a[0] in a && b[|b| - 1] in b;
    assert g[0] == a[0] && g[|g| - 1] == b[|b| - 1];
    DigitsStripped(g);
    forall i | 0 <= i < |g|
      ensures IsDigit(g[i]) || (g[i] == '_' && 0 < i < |g| - 1 && IsDigit(g[i - 1]) && IsDigit(g[i + 1]))
    {
      if i < |a| {
        assert g[i] == a[i] && a[i] in a;
      } else if i > |a| {
        assert g[i] == b[i - |a| - 1] && b[i - |a| - 1] in b;
      } else {
        assert g[i - 1] == a[|a| - 1] && a[|a| - 1] in a;
        assert g[i + 1] == b[0] && b[0] in b;
      }
    }
  }

  /** An underscore between two groups of digits is skipped: `int("1_000") == int("1000")`. */
  lemma ParseIntGrouped(a: string, b: string)
    requires |a| > 0 && |b| > 0 && AllDigits(a) && AllDigits(b)
    ensures ParseInt(a + "_" + b) == ParseInt(a + b) == Some(ParseDigits(a + b))
  {
    var g, j := a + "_" + b, a + b;
    GroupedRun(a, b);
    assert AllDigits(j) by {
      assert forall c <- j :: c in a || c in b;
    }
    ParseIntDigits(j);
    assert DropUnderscores(g) == j by {
      assert g == (a + "_") + b;
      DropUnderscoresAppend(a + "_", b);
      DropUnderscoresAppend(a, "_");
      DropUnderscoresDigits(a);
      DropUnderscoresDigits(b);
      assert DropUnderscores("_") == [];
      assert a + [] == a;
    }
  }

  function ToInt(a: FilterArg): Option<int>
  {
    match a
    case IntArg(n) => Some(n)
    case TextArg(s) => ParseInt(s)
  }

  /** `times_first if shift == "1" else times_second`. */
  function TableFor(shift: string): map<int, string>
  {
    if shift == "1" then TimesFirst else TimesSecond
  }

  /**
   * `lesson_time`: the clock time of the lesson in the table of the shift;
   * a failed conversion or a number missing from the table gives "".
   */
  function LessonTime(arg: FilterArg, shift: string): (r: string)
    ensures r == "" <==> ToInt(arg).None? || ToInt(arg).value !in TableFor(shift)
  {
    match ToInt(arg)
    case None => ""
    case Some(n) => if n in TableFor(shift) then TableFor(shift)[n] else ""
  }

  /** A template value `" 3"` gets the third lesson's time. */
  lemma PaddedThree()
    ensures LessonTime(TextArg(" 3"), "1") == "09:50–10:30"
  {
    assert NatToString(3) == "3";
    assert " 3" == " " + NatToString(3) + "";
    PaddedLessonNumber(" ", 3, "", "1");
  }

  /** `int("1_0") == 10`. */
  lemma GroupedTen()
    ensures ParseInt("1_0") == Some(10)
  {
    assert "1" + "_" + "0" == "1_0" && "1" + "0" == "10";
    ParseIntGrouped("1", "0");
  }

  /** An underscore at either end, or two in a row, make `int()` fail. */
  lemma MisplacedUnderscores()
    ensures ParseInt("_1").None? && ParseInt("1_").None? && ParseInt("1__0").None?
  {
    UnpaddedBadRun("_1", 0);
    UnpaddedBadRun("1_", 1);
    UnpaddedBadRun("1__0", 1);
  }

  /** Unpadded text that is no digit run, at position `i`, and starts with a digit or `_`, is refused. */
  lemma UnpaddedBadRun(t: string, i: nat)
    requires i < |t| && (IsDigit(t[0]) || t[0] == '_') && !IsSpace(t[|t| - 1])
    requires t[i] == '_' && !(0 < i < |t| - 1 && IsDigit(t[i - 1]) && IsDigit(t[i + 1]))
    ensures ParseInt(t).None?
  {
    assert Strip(t) == t;
  }

  /** The two tables are keyed by exactly the slots of the two shifts. */
  lemma TablesMatchSlots()
    ensures forall l :: l in TimesFirst <==> l in SlotsOf(First)
    ensures forall l :: l in TimesSecond <==> l in SlotsOf(Second)
  {
    forall l ensures l in TimesFirst <==> l in SlotsOf(First) {
      SlotFacts(First, l);
    }
    forall l ensures l in TimesSecond <==> l in SlotsOf(Second) {
      SlotFacts(Second, l);
    }
  }

  /**
   * A lesson in a slot of its class's shift always gets a time when the
   * shift's stored code is passed; with any code other than "1" the
   * second-shift table answers, so first-shift slots read "".
   */
  lemma LessonTimeOfSlot(s: Shift, l: int)
    ensures l in SlotsOf(s) ==> LessonTime(IntArg(l), ShiftCode(s)) != ""
    ensures l !in SlotsOf(s) ==> LessonTime(IntArg(l), ShiftCode(s)) == ""
    ensures forall code | code != "1" :: LessonTime(IntArg(l), code) == LessonTime(IntArg(l), "2")
  {
    TablesMatchSlots();
    assert ShiftCode(Second) != "1";
  }

  lemma {:induction false} NatToStringDigits(n: nat)
    ensures AllDigits(NatToString(n))
  {
    if n >= 10 {
      NatToStringDigits(n / 10);
    }
  }

  /** Text that `str` made from a lesson number is looked up as the number itself. */
  lemma TextArgAsNumber(n: nat, shift: string)
    ensures ParseInt(NatToString(n)) == Some(n)
    ensures LessonTime(TextArg(NatToString(n)), shift) == LessonTime(IntArg(n), shift)
  {
    NatToStringDigits(n);
    NatToStringRoundTrip(n);
    ParseIntDigits(NatToString(n));
  }

  /** Padded text reads as its number: a template value `" 3"` gets the third lesson's time. */
  lemma PaddedLessonNumber(w1: string, n: nat, w2: string, shift: string)
    requires AllSpace(w1) && AllSpace(w2)
    ensures LessonTime(TextArg(w1 + NatToString(n) + w2), shift) == LessonTime(IntArg(n), shift)
  {
    ParseIntPadded(w1, NatToString(n), w2);
    TextArgAsNumber(n, shift);
  }
}
