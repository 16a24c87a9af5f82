/**
 The recurrence rule of a bill and the engine that turns it into due dates
 (internal/models/bill.go).
 */
module Schedule {
  import opened Basics
  import opened Civil

  datatype Kind = Monthly | Quarterly | OneOff | Vendor

  /** The schedule columns of a bill definition; NULL columns are `None`. */
  datatype Plan = Plan(
    kind: Kind,
    dayOfMonth: Option<int>,
    quarterStart: Option<int>,
    oneOffDate: Option<Date>)

  /** The column CHECKs: ranges of the two small integers. */
  predicate InRange(p: Plan) {
    && (p.dayOfMonth.Some? ==> 1 <= p.dayOfMonth.value <= 31)
    && (p.quarterStart.Some? ==> 1 <= p.quarterStart.value <= 3)
  }

  /** The table CHECK: exactly the columns its kind uses are set. */
  predicate WellShaped(p: Plan) {
    && InRange(p)
    && (p.dayOfMonth.Some? <==> p.kind == Monthly || p.kind == Quarterly)
    && (p.quarterStart.Some? <==> p.kind == Quarterly)
    && (p.oneOffDate.Some? <==> p.kind == OneOff)
  }

  // ----- what a due date is -----

  /** Whether a month is in the rotation. */
  predicate MonthDue(p: Plan, m: Month) {
    match p.kind
    case Monthly => true
    case Quarterly => p.quarterStart.Some? && (m.number - p.quarterStart.value) % 3 == 0
    case _ => false
  }

  /**
   The reference definition: the day falls in a due month, on the scheduled
   day or on the last day of a month too short for it.
   */
  predicate IsDue(p: Plan, d: Date) {
    match p.kind
    case Vendor => false
    case OneOff => p.oneOffDate == Some(d)
    case _ =>
      && p.dayOfMonth.Some?
      && MonthDue(p, MonthOf(d))
      && d.day == Min(p.dayOfMonth.value, DaysIn(MonthOf(d)))
  }

  predicate Within(d: Date, from: Date, to: Date) {
    Ordinal(from) <= Ordinal(d) <= Ordinal(to)
  }

  ghost predicate Increasing(s: seq<Date>) {
    forall i, j :: 0 <= i < j < |s| ==> Ordinal(s[i]) < Ordinal(s[j])
  }

  /** `s` lists the due dates of the window, each once, in order. */
  ghost predicate IsExact(p: Plan, from: Date, to: Date, s: seq<Date>) {
    && Increasing(s)
    && forall d: Date :: d in s <==> IsDue(p, d) && Within(d, from, to)
  }

  /**
   The same in closed form: month lengths and the order of days are those of the
   Gregorian formula; the months of a quarterly bill are its first and every
   third after it.
   */
  predicate IsDueByFormula(p: Plan, d: Date, from: Date, to: Date) {
    && DayNumber(from) <= DayNumber(d) <= DayNumber(to)
    && match p.kind
       case Vendor => false
       case OneOff => p.oneOffDate == Some(d)
       case Monthly => p.dayOfMonth.Some? && d.day == Min(p.dayOfMonth.value, MonthLength(MonthOf(d)))
       case Quarterly =>
         && p.dayOfMonth.Some? && d.day == Min(p.dayOfMonth.value, MonthLength(MonthOf(d)))
         && p.quarterStart.Some?
         && var q := p.quarterStart.value; d.month == q || d.month == q + 3 || d.month == q + 6 || d.month == q + 9
  }

  lemma QuarterMonths(month: int, q: int)
    requires 1 <= month <= 12 && 1 <= q <= 3
    ensures (month - q) % 3 == 0 <==> month == q || month == q + 3 || month == q + 6 || month == q + 9
  {}

  lemma DueByFormula(p: Plan, d: Date, from: Date, to: Date)
    requires InRange(p)
    ensures IsDueByFormula(p, d, from, to) <==> IsDue(p, d) && Within(d, from, to)
  {
    WithinByFormula(d, from, to);
    if p.quarterStart.Some? {
      QuarterMonths(d.month, p.quarterStart.value);
    }
  }

  lemma WithinByFormula(d: Date, from: Date, to: Date)
    ensures Within(d, from, to) <==> DayNumber(from) <= DayNumber(d) <= DayNumber(to)
    ensures DaysIn(MonthOf(d)) == MonthLength(MonthOf(d))
  {
    CalendarIsGregorian(d);
    CalendarIsGregorian(from);
    CalendarIsGregorian(to);
  }

  lemma ExactByFormula(p: Plan, from: Date, to: Date, s: seq<Date>)
    requires InRange(p) && IsExact(p, from, to, s)
    ensures forall d: Date :: d in s <==> IsDueByFormula(p, d, from, to)
  {
    forall d: Date
      ensures d in s <==> IsDueByFormula(p, d, from, to)
    {
      DueByFormula(p, d, from, to);
    }
  }

  // ----- the engine -----

  /** Go's `%`: the remainder has the sign of the dividend. */
  function GoRem(a: int, b: int): int
    requires b > 0
  {
    if a >= 0 then a % b else -((-a) % b)
  }

  lemma RotationTest(m: int, start: int)
    ensures GoRem(GoRem(m - start, 3) + 3, 3) == 0 <==> (m - start) % 3 == 0
  {}

  function Occurrence(p: Plan, m: Month): (d: Date)
    requires InRange(p) && p.dayOfMonth.Some?
    ensures MonthOf(d) == m
  {
    OnDay(m, Min(p.dayOfMonth.value, DaysIn(m)))
  }

  function InMonth(p: Plan, m: Month, from: Date, to: Date): seq<Date>
    requires InRange(p) && p.dayOfMonth.Some?
  {
    if MonthDue(p, m) && Within(Occurrence(p, m), from, to) then [Occurrence(p, m)] else []
  }

  /** The dates found in the months from `first` up to, not including, `m`. */
  function Before(p: Plan, first: Month, m: Month, from: Date, to: Date): seq<Date>
    requires InRange(p) && p.dayOfMonth.Some?
    decreases Index(m) - Index(first)
  {
    if Index(m) <= Index(first) then [] else Before(p, first, Prev(m), from, to) + InMonth(p, Prev(m), from, to)
  }

  /** The due dates of a plan in a window, as a function. */
  function DueDates(p: Plan, from: Date, to: Date): seq<Date>
    requires InRange(p)
  {
    match p.kind
    case Vendor => []
    case OneOff =>
      if p.oneOffDate.Some? && Within(p.oneOffDate.value, from, to) then [p.oneOffDate.value] else []
    case _ =>
      if p.dayOfMonth.None? then []
      else if p.kind == Quarterly && p.quarterStart.None? then []
      else Before(p, MonthOf(from), Next(MonthOf(to)), from, to)
  }

  lemma MonthNotAfter(m: Month, to: Date)
    ensures Ordinal(OnDay(m, 1)) <= Ordinal(to) <==> Index(m) <= Index(MonthOf(to))
  {
    if Index(m) > Index(MonthOf(to)) {
      LaterMonthIsLater(to, OnDay(m, 1));
    } else if Index(m) < Index(MonthOf(to)) {
      LaterMonthIsLater(OnDay(m, 1), to);
    } else {
      SameIndexSameMonth(m, MonthOf(to));
    }
  }

  /** Whether the cursor's month is due, by the source's rotation test. */
  predicate CursorDue(p: Plan, m: int)
    requires p.kind == Quarterly ==> p.quarterStart.Some?
  {
    p.kind != Quarterly || GoRem(GoRem(m - p.quarterStart.value, 3) + 3, 3) == 0
  }

  lemma CursorDueIsMonthDue(p: Plan, m: Month)
    requires p.kind == Monthly || (p.kind == Quarterly && p.quarterStart.Some?)
    ensures CursorDue(p, m.number) == MonthDue(p, m)
  {
    if p.kind == Quarterly {
      RotationTest(m.number, p.quarterStart.value);
    }
  }

  /** The loop of the source, cursor and all. */
  method NextDueDates(p: Plan, from: Date, to: Date) returns (out: seq<Date>)
    requires InRange(p)
    ensures out == DueDates(p, from, to)
    ensures IsExact(p, from, to, out)
    ensures forall d: Date :: d in out <==> IsDueByFormula(p, d, from, to)
  {
    DueDatesAreExact(p, from, to);
    ExactByFormula(p, from, to, DueDates(p, from, to));
    if p.kind == Vendor {
      return [];
    }
    if p.kind == OneOff {
      if p.oneOffDate.None? {
        return [];
      }
      var d := p.oneOffDate.value;
      if Ordinal(d) < Ordinal(from) || Ordinal(d) > Ordinal(to) {
        return [];
      }
      return [d];
    }
    if p.dayOfMonth.None? {
      return [];
    }
    if p.kind == Quarterly && p.quarterStart.None? {
      return [];
    }
    out := MonthLoop(p, p.dayOfMonth.value, from, to);
  }

  /** One turn of the loop: the occurrence of the cursor's month, if kept. */
  method OneMonth(p: Plan, day: int, cursor: Date, from: Date, to: Date) returns (kept: seq<Date>)
    requires InRange(p) && p.dayOfMonth == Some(day) && cursor.day == 1
    requires p.kind == Monthly || (p.kind == Quarterly && p.quarterStart.Some?)
    ensures kept == InMonth(p, MonthOf(cursor), from, to)
  {
    ghost var m := MonthOf(cursor);
    CursorDueIsMonthDue(p, m);
    kept := [];
    if CursorDue(p, cursor.month) {
      MonthSteps(m);
      var lastDay := AddDate(cursor, 0, 1, -1).day;
      var d := day;
      if d > lastDay {
        d := lastDay;
      }
      SameMonthDate(m, d);
      var occurrence := TimeDate(cursor.year, cursor.month, d);
      if !(Ordinal(occurrence) < Ordinal(from)) && !(Ordinal(occurrence) > Ordinal(to)) {
        kept := [occurrence];
      }
    }
  }

  lemma BeforeStep(p: Plan, first: Month, m: Month, from: Date, to: Date)
    requires InRange(p) && p.dayOfMonth.Some? && Index(first) <= Index(m)
    ensures Before(p, first, Next(m), from, to) == Before(p, first, m, from, to) + InMonth(p, m, from, to)
  {
    SameIndexSameMonth(Prev(Next(m)), m);
  }

  /** `time.Date(y, m, 1)` of a date. */
  method FirstOfMonth(d: Date) returns (c: Date)
    ensures c == OnDay(MonthOf(d), 1)
  {
    SameMonthDate(MonthOf(d), 1);
    c := TimeDate(d.year, d.month, 1);
  }

  /** `AddDate(0, 1, 0)` from the first of a month. */
  method NextFirst(cursor: Date) returns (c: Date)
    requires cursor.day == 1
    ensures c == OnDay(Next(MonthOf(cursor)), 1)
  {
    MonthSteps(MonthOf(cursor));
    c := AddDate(cursor, 0, 1, 0);
  }

  method MonthLoop(p: Plan, day: int, from: Date, to: Date) returns (out: seq<Date>)
    requires InRange(p) && p.dayOfMonth == Some(day)
    requires p.kind == Monthly || (p.kind == Quarterly && p.quarterStart.Some?)
    ensures out == Before(p, MonthOf(from), Next(MonthOf(to)), from, to)
  {
    out := [];
    ghost var first, last := MonthOf(from), MonthOf(to);
    var cursor := FirstOfMonth(from);
    MonthNotAfter(first, to);
    while Ordinal(cursor) <= Ordinal(to)
      invariant cursor == OnDay(MonthOf(cursor), 1)
      invariant Index(first) <= Index(MonthOf(cursor))
      invariant Index(first) < Index(MonthOf(cursor)) ==> Index(MonthOf(cursor)) <= Index(last) + 1
      invariant Ordinal(cursor) <= Ordinal(to) <==> Index(MonthOf(cursor)) <= Index(last)
      invariant out == Before(p, first, MonthOf(cursor), from, to)
      decreases Index(last) + 1 - Index(MonthOf(cursor))
    {
      ghost var m := MonthOf(cursor);
      var kept := OneMonth(p, day, cursor, from, to);
      out := out + kept;
      BeforeStep(p, first, m, from, to);
      MonthNotAfter(Next(m), to);
      cursor := NextFirst(cursor);
    }
    LastTurn(p, MonthOf(cursor), from, to);
  }

  lemma LastTurn(p: Plan, m: Month, from: Date, to: Date)
    requires InRange(p) && p.dayOfMonth.Some?
    requires Index(MonthOf(to)) < Index(m)
    requires Index(m) == Index(MonthOf(from)) || Index(m) == Index(MonthOf(to)) + 1
    ensures Before(p, MonthOf(from), m, from, to) == Before(p, MonthOf(from), Next(MonthOf(to)), from, to)
  {
    if Index(m) == Index(MonthOf(to)) + 1 {
      SameIndexSameMonth(m, Next(MonthOf(to)));
    }
  }

  // ----- exactness -----

  lemma {:induction false} BeforeIsExact(p: Plan, first: Month, m: Month, from: Date, to: Date)
    requires InRange(p) && p.dayOfMonth.Some? && (p.kind == Monthly || p.kind == Quarterly)
    ensures Increasing(Before(p, first, m, from, to))
    ensures forall d: Date :: d in Before(p, first, m, from, to) <==>
              IsDue(p, d) && Within(d, from, to) && Index(first) <= Index(MonthOf(d)) < Index(m)
    decreases Index(m) - Index(first)
  {
    if Index(m) > Index(first) {
      var n := Prev(m);
      BeforeIsExact(p, first, n, from, to);
      var rest, found := Before(p, first, n, from, to), InMonth(p, n, from, to);
      forall d: Date
        ensures d in rest + found <==>
                IsDue(p, d) && Within(d, from, to) && Index(first) <= Index(MonthOf(d)) < Index(m)
      {
        if Index(MonthOf(d)) == Index(n) {
          SameIndexSameMonth(MonthOf(d), n);
        }
      }
      forall j | 0 <= j < |rest| && found != []
        ensures Ordinal(rest[j]) < Ordinal(found[0])
      {
        assert rest[j] in rest;
        LaterMonthIsLater(rest[j], found[0]);
      }
    }
  }

  /**
   `DueDates` is exactly the set of due dates of the window, in order: for
   every plan the columns allow and every window, empty ones included.
   */
  lemma DueDatesAreExact(p: Plan, from: Date, to: Date)
    requires InRange(p)
    ensures IsExact(p, from, to, DueDates(p, from, to))
  {
    if (p.kind == Monthly || p.kind == Quarterly) && p.dayOfMonth.Some? {
      BeforeIsExact(p, MonthOf(from), Next(MonthOf(to)), from, to);
      forall d: Date | Within(d, from, to)
        ensures Index(MonthOf(from)) <= Index(MonthOf(d)) <= Index(MonthOf(to))
      {
        if Index(MonthOf(d)) < Index(MonthOf(from)) {
          LaterMonthIsLater(d, from);
        } else if Index(MonthOf(to)) < Index(MonthOf(d)) {
          LaterMonthIsLater(to, d);
        }
      }
    }
  }

  // ----- windows -----

  lemma {:induction false} IncreasingIsCanonical(a: seq<Date>, b: seq<Date>)
    requires Increasing(a) && Increasing(b)
    requires forall d: Date :: d in a <==> d in b
    ensures a == b
  {
    assert |a| > 0 ==> a[0] in b;
    assert |b| > 0 ==> b[0] in a;
    if a != [] {
      assert a[0] in b && (b != [] ==> b[0] in a);
      assert a[0] == b[0];
      forall d: Date
        ensures d in a[1..] <==> d in b[1..]
      {
        assert d in a <==> d == a[0] || d in a[1..];
        assert d in b <==> d == b[0] || d in b[1..];
        assert a[0] !in a[1..] && b[0] !in b[1..];
      }
      IncreasingIsCanonical(a[1..], b[1..]);
      assert a == [a[0]] + a[1..] && b == [b[0]] + b[1..];
    }
  }

  /** The two exactness clauses determine the result. */
  lemma ExactIsUnique(p: Plan, from: Date, to: Date, s: seq<Date>)
    requires InRange(p) && IsExact(p, from, to, s)
    ensures s == DueDates(p, from, to)
  {
    DueDatesAreExact(p, from, to);
    IncreasingIsCanonical(s, DueDates(p, from, to));
  }

  /** A window cut in two: the later part only appends. */
  lemma WindowsAdd(p: Plan, a: Date, b: Date, c: Date)
    requires InRange(p)
    requires Ordinal(a) <= Ordinal(b) < Ordinal(c)
    ensures DueDates(p, a, c) == DueDates(p, a, b) + DueDates(p, AddDate(b, 0, 0, 1), c)
  {
    var b1 := AddDate(b, 0, 0, 1);
    AddDaysIsExact(b, 1);
    var left, right := DueDates(p, a, b), DueDates(p, b1, c);
    DueDatesAreExact(p, a, b);
    DueDatesAreExact(p, b1, c);
    forall i, j | 0 <= i < |left| && 0 <= j < |right|
      ensures Ordinal(left[i]) < Ordinal(right[j])
    {
      assert left[i] in left && right[j] in right;
    }
    ExactIsUnique(p, a, c, left + right);
  }

  // ----- spacing -----

  /** The month of the next occurrence of a rotation. */
  function Step(p: Plan, m: Month): Month {
    if p.kind == Quarterly then Next(Next(Next(m))) else Next(m)
  }

  function ShortestGap(p: Plan): int { if p.kind == Quarterly then 89 else 28 }

  function LongestGap(p: Plan): int { if p.kind == Quarterly then 92 else 31 }

  ghost predicate Recurring(p: Plan) {
    WellShaped(p) && (p.kind == Monthly || p.kind == Quarterly)
  }

  lemma MonthArithmetic(day: int, a: int, b: int)
    requires 1 <= day <= 31 && 28 <= a <= 31 && 28 <= b <= 31
    ensures 28 <= a + Min(day, b) - Min(day, a) <= 31
  {}

  /** Four months in a row, of which at most one is a February. */
  lemma QuarterArithmetic(day: int, m: Month)
    requires 1 <= day <= 31
    ensures var a, b, c, d := DaysIn(m), DaysIn(Next(m)), DaysIn(Next(Next(m))), DaysIn(Next(Next(Next(m))));
            89 <= a + b + c + Min(day, d) - Min(day, a) <= 92
  {
    var n := m.number;
    assert n != 2 ==> DaysIn(m) == if n == 4 || n == 6 || n == 9 || n == 11 then 30 else 31;
  }

  lemma OccurrenceGap(p: Plan, m: Month)
    requires Recurring(p)
    ensures ShortestGap(p) <= Ordinal(Occurrence(p, Step(p, m))) - Ordinal(Occurrence(p, m)) <= LongestGap(p)
  {
    var day := p.dayOfMonth.value;
    NextMonthStart(m);
    if p.kind == Quarterly {
      NextMonthStart(Next(m));
      NextMonthStart(Next(Next(m)));
      QuarterArithmetic(day, m);
    } else {
      MonthArithmetic(day, DaysIn(m), DaysIn(Next(m)));
    }
  }

  lemma DueMonthsRepeat(p: Plan, m: Month)
    requires Recurring(p) && MonthDue(p, m)
    ensures MonthDue(p, Step(p, m))
  {}

  lemma NoDueMonthBetween(p: Plan, a: Month, b: Month)
    requires Recurring(p) && MonthDue(p, a) && MonthDue(p, b) && Index(a) < Index(b)
    ensures Index(Step(p, a)) <= Index(b)
  {}

  /** The next due date after a due date is in the next month of the rotation. */
  lemma NextOccurrence(p: Plan, d: Date, e: Date)
    requires Recurring(p) && IsDue(p, d) && IsDue(p, e) && Ordinal(d) < Ordinal(e)
    ensures var n := Occurrence(p, Step(p, MonthOf(d)));
            IsDue(p, n) && Ordinal(d) < Ordinal(n) <= Ordinal(e)
  {
    var i, j := MonthOf(d), MonthOf(e);
    var n := Occurrence(p, Step(p, i));
    DueMonthsRepeat(p, i);
    LaterMonthIsLater(d, n);
    if Index(j) < Index(i) {
      LaterMonthIsLater(e, d);
    } else if Index(j) == Index(i) {
      SameIndexSameMonth(i, j);
    } else {
      NoDueMonthBetween(p, i, j);
      if Index(Step(p, i)) < Index(j) {
        LaterMonthIsLater(n, e);
      } else {
        SameIndexSameMonth(Step(p, i), j);
      }
    }
  }

  lemma NextInWindow(p: Plan, from: Date, to: Date, s: seq<Date>, i: nat)
    requires Recurring(p) && i + 1 < |s| && IsExact(p, from, to, s)
    ensures IsDue(p, s[i]) && s[i + 1] == Occurrence(p, Step(p, MonthOf(s[i])))
  {
    assert s[i] in s && s[i + 1] in s;
    var n := Occurrence(p, Step(p, MonthOf(s[i])));
    NextOccurrence(p, s[i], s[i + 1]);
    assert n in s;
    var k :| 0 <= k < |s| && s[k] == n;
    NoneBetween(s, i, k);
  }

  lemma NoneBetween(s: seq<Date>, i: nat, k: nat)
    requires Increasing(s) && i + 1 < |s| && k < |s| && Ordinal(s[i]) < Ordinal(s[k]) <= Ordinal(s[i + 1])
    ensures k == i + 1
  {}

  /**
   Consecutive due dates of any window are 28 to 31 days apart for a monthly
   bill and 89 to 92 for a quarterly one, however the day is clamped.
   */
  lemma ConsecutiveGap(p: Plan, from: Date, to: Date, i: nat)
    requires Recurring(p) && i + 1 < |DueDates(p, from, to)|
    ensures var s := DueDates(p, from, to);
            ShortestGap(p) <= Ordinal(s[i + 1]) - Ordinal(s[i]) <= LongestGap(p)
  {
    var s := DueDates(p, from, to);
    DueDatesAreExact(p, from, to);
    NextInWindow(p, from, to, s, i);
    var d := s[i];
    assert d == Occurrence(p, MonthOf(d));
    OccurrenceGap(p, MonthOf(d));
  }

  lemma DueMonthBefore(p: Plan, m: Month) returns (b: Month)
    requires Recurring(p)
    ensures Index(b) < Index(m) && MonthDue(p, b)
  {
    b := if p.kind == Quarterly then YM(m.year - 1, p.quarterStart.value) else Prev(m);
  }

  /** The last month of the rotation whose occurrence lies before `from`. */
  lemma LastDueMonthBefore(p: Plan, from: Date) returns (m: Month)
    requires Recurring(p)
    ensures MonthDue(p, m) && MonthDue(p, Step(p, m))
    ensures Ordinal(Occurrence(p, m)) < Ordinal(from) <= Ordinal(Occurrence(p, Step(p, m)))
  {
    m := DueMonthBefore(p, MonthOf(from));
    LaterMonthIsLater(Occurrence(p, m), from);
    DueMonthsRepeat(p, m);
    while Ordinal(Occurrence(p, Step(p, m))) < Ordinal(from)
      invariant MonthDue(p, m) && MonthDue(p, Step(p, m))
      invariant Ordinal(Occurrence(p, m)) < Ordinal(from)
      decreases Index(MonthOf(from)) - Index(m)
    {
      if Index(MonthOf(from)) < Index(Step(p, m)) {
        LaterMonthIsLater(from, Occurrence(p, Step(p, m)));
      }
      m := Step(p, m);
      DueMonthsRepeat(p, m);
    }
  }

  /** Any 31 days in a row hold a monthly due date, any 92 a quarterly one. */
  lemma WindowIsNotEmpty(p: Plan, from: Date, to: Date)
    requires Recurring(p) && Ordinal(to) >= Ordinal(from) + LongestGap(p) - 1
    ensures DueDates(p, from, to) != []
  {
    DueDatesAreExact(p, from, to);
    var m := LastDueMonthBefore(p, from);
    OccurrenceGap(p, m);
    assert Occurrence(p, Step(p, m)) in DueDates(p, from, to);
  }
}
