/**
 Civil dates of the proleptic Gregorian calendar, in one time zone and without
 times of day: what `time.Date`, `AddDate`, `Before` and `After` do to values
 that stand for local midnight.
 */
module Civil {

  // ----- months -----

  datatype YM = YM(year: int, number: int)

  type Month = m: YM | 1 <= m.number <= 12 witness YM(1970, 1)

  /** Months numbered through, to compare them. */
  function Index(m: YM): int {
    12 * m.year + m.number
  }

  function Next(m: Month): (n: Month)
    ensures Index(n) == Index(m) + 1
  {
    if m.number == 12 then YM(m.year + 1, 1) else YM(m.year, m.number + 1)
  }

  function Prev(m: Month): (n: Month)
    ensures Next(n) == m
  {
    if m.number == 1 then YM(m.year - 1, 12) else YM(m.year, m.number - 1)
  }

  lemma SameIndexSameMonth(a: Month, b: Month)
    requires Index(a) == Index(b)
    ensures a == b
  {}

  predicate IsLeap(year: int) {
    year % 4 == 0 && (year % 100 != 0 || year % 400 == 0)
  }

  function DaysIn(m: Month): (n: int)
    ensures 28 <= n <= 31
  {
    match m.number
    case 2 => if IsLeap(m.year) then 29 else 28
    case 4 => 30
    case 6 => 30
    case 9 => 30
    case 11 => 30
    case _ => 31
  }

  // ----- dates -----

  datatype YMD = YMD(year: int, month: int, day: int)

  predicate IsDate(d: YMD) {
    1 <= d.month <= 12 && 1 <= d.day <= DaysIn(YM(d.year, d.month))
  }

  type Date = d: YMD | IsDate(d) witness YMD(1970, 1, 1)

  function MonthOf(d: Date): Month {
    YM(d.year, d.month)
  }

  function OnDay(m: Month, day: int): (d: Date)
    requires 1 <= day <= DaysIn(m)
    ensures MonthOf(d) == m && d.day == day
  {
    YMD(m.year, m.number, day)
  }

  // ----- day numbers -----

  /** The day number of the first of a month, counted in whole months from January of year 0. */
  function MonthStart(m: Month): int
    decreases if m.year < 0 then 2 - Index(m) else Index(m)
  {
    if m == YM(0, 1) then 0
    else if m.year < 0 then MonthStart(Next(m)) - DaysIn(m)
    else MonthStart(Prev(m)) + DaysIn(Prev(m))
  }

  /** The day number of a date: consecutive days have consecutive numbers. */
  function Ordinal(d: Date): int {
    MonthStart(MonthOf(d)) + d.day - 1
  }

  /** Months tile the line of days: each starts where the one before ends. */
  lemma NextMonthStart(m: Month)
    ensures MonthStart(Next(m)) == MonthStart(m) + DaysIn(m)
  {
    SameIndexSameMonth(Prev(Next(m)), m);
  }

  lemma {:induction false} MonthsInOrder(a: Month, b: Month)
    requires Index(a) < Index(b)
    ensures MonthStart(a) + DaysIn(a) <= MonthStart(b)
    decreases Index(b) - Index(a)
  {
    NextMonthStart(a);
    if Index(Next(a)) == Index(b) {
      SameIndexSameMonth(Next(a), b);
    } else {
      MonthsInOrder(Next(a), b);
    }
  }

  predicate LexBefore(a: YMD, b: YMD) {
    a.year < b.year || (a.year == b.year &&
      (a.month < b.month || (a.month == b.month && a.day < b.day)))
  }

  /** Comparing day numbers is comparing year, then month, then day. */
  lemma OrderIsLexicographic(a: Date, b: Date)
    ensures Ordinal(a) < Ordinal(b) <==> LexBefore(a, b)
    ensures Ordinal(a) == Ordinal(b) <==> a == b
  {
    var i, j := MonthOf(a), MonthOf(b);
    if Index(i) < Index(j) {
      MonthsInOrder(i, j);
    } else if Index(j) < Index(i) {
      MonthsInOrder(j, i);
    }
  }

  lemma LaterMonthIsLater(a: Date, b: Date)
    requires Index(MonthOf(a)) < Index(MonthOf(b))
    ensures Ordinal(a) < Ordinal(b)
  {
    MonthsInOrder(MonthOf(a), MonthOf(b));
  }

  // ----- the calendar in closed form -----

  /** Leap days of the Gregorian calendar up to the end of a year, from that of year 0 on. */
  function LeapDays(year: int): int {
    year / 4 - year / 100 + year / 400
  }

  /** Days from 1 March to the first of a month: 153 days make five months. */
  function DaysFromMarch(month: int): int {
    (153 * ((month + 9) % 12) + 2) / 5
  }

  /** Days from 1 January of year 0 to the first of a month, by the usual formula that counts years from March. */
  function DayCount(year: int, month: int): int {
    var y := if month <= 2 then year - 1 else year;
    365 * y + LeapDays(y) + DaysFromMarch(month) + 60
  }

  /** The day number of a date, in closed form. */
  function DayNumber(d: Date): int {
    DayCount(d.year, d.month) + d.day - 1
  }

  /** The length of a month: from its first day to the first of the next. */
  function MonthLength(m: Month): int {
    DayCount(Next(m).year, Next(m).number) - DayCount(m.year, m.number)
  }

  lemma OneMoreLeapDay(y: int)
    ensures LeapDays(y) == LeapDays(y - 1) + if IsLeap(y) then 1 else 0
  {
    QuotientStep4(y);
    QuotientStep100(y);
    QuotientStep400(y);
    Multiples(y);
  }

  lemma QuotientStep4(y: int)
    ensures y / 4 == (y - 1) / 4 + if y % 4 == 0 then 1 else 0
  {}

  lemma QuotientStep100(y: int)
    ensures y / 100 == (y - 1) / 100 + if y % 100 == 0 then 1 else 0
  {}

  lemma QuotientStep400(y: int)
    ensures y / 400 == (y - 1) / 400 + if y % 400 == 0 then 1 else 0
  {}

  lemma Multiples(y: int)
    ensures y % 400 == 0 ==> y % 100 == 0
    ensures y % 100 == 0 ==> y % 4 == 0
  {
    if y % 400 == 0 {
      HundredTimes(y, 4 * (y / 400));
    }
    if y % 100 == 0 {
      FourTimes(y, 25 * (y / 100));
    }
  }

  lemma HundredTimes(y: int, q: int)
    requires y == 100 * q
    ensures y % 100 == 0
  {}

  lemma FourTimes(y: int, q: int)
    requires y == 4 * q
    ensures y % 4 == 0
  {}

  lemma DaysFromMarchTable(month: int)
    requires 1 <= month <= 12
    ensures DaysFromMarch(month) == [306, 337, 0, 31, 61, 92, 122, 153, 184, 214, 245, 275][month - 1]
  {}

  /** The step from month to month is the length of the month. */
  lemma DayCountStep(m: Month)
    ensures DayCount(Next(m).year, Next(m).number) == DayCount(m.year, m.number) + DaysIn(m)
  {
    DaysFromMarchTable(m.number);
    DaysFromMarchTable(Next(m).number);
    if m.number == 2 {
      OneMoreLeapDay(m.year);
    }
  }

  /** Months start where the formula says. */
  lemma {:induction false} MonthStartIsDayCount(m: Month)
    ensures MonthStart(m) == DayCount(m.year, m.number)
    decreases if m.year < 0 then 2 - Index(m) else Index(m)
  {
    if m == YM(0, 1) {
      DaysFromMarchTable(1);
    } else if m.year < 0 {
      MonthStartIsDayCount(Next(m));
      DayCountStep(m);
    } else {
      MonthStartIsDayCount(Prev(m));
      DayCountStep(Prev(m));
    }
  }

  /**
   The calendar is the Gregorian one: the day number of a date is the formula's,
   and a month is as long as the formula says.
   */
  lemma CalendarIsGregorian(d: Date)
    ensures Ordinal(d) == DayNumber(d)
    ensures DaysIn(MonthOf(d)) == MonthLength(MonthOf(d))
  {
    MonthStartIsDayCount(MonthOf(d));
    DayCountStep(MonthOf(d));
  }

  // ----- normalisation, as in time.Date and AddDate -----

  /**
   Day `day` counted from the first of `m`, carried into neighbouring months
   when it lies outside: day 0 is the last of the month before.
   */
  function Settle(m: Month, day: int): (d: Date)
    decreases if day < 1 then 1 else 0, if day < 1 then -day else day
  {
    if day < 1 then Settle(Prev(m), day + DaysIn(Prev(m)))
    else if day > DaysIn(m) then Settle(Next(m), day - DaysIn(m))
    else OnDay(m, day)
  }

  lemma {:induction false} SettleKeepsDay(m: Month, day: int)
    ensures Ordinal(Settle(m, day)) == MonthStart(m) + day - 1
    decreases if day < 1 then 1 else 0, if day < 1 then -day else day
  {
    if day < 1 {
      NextMonthStart(Prev(m));
      SettleKeepsDay(Prev(m), day + DaysIn(Prev(m)));
    } else if day > DaysIn(m) {
      NextMonthStart(m);
      SettleKeepsDay(Next(m), day - DaysIn(m));
    }
  }

  /** Month numbers outside 1..12 carry into the year. */
  function CarryMonth(year: int, month: int): (m: Month)
    ensures Index(m) == 12 * year + month
  {
    YM(year + (month - 1) / 12, (month - 1) % 12 + 1)
  }

  function TimeDate(year: int, month: int, day: int): Date {
    Settle(CarryMonth(year, month), day)
  }

  function AddDate(d: Date, years: int, months: int, days: int): Date {
    TimeDate(d.year + years, d.month + months, d.day + days)
  }

  /** The date with a given day number. */
  function OfOrdinal(n: int): Date {
    Settle(YM(0, 1), n + 1)
  }

  lemma OrdinalRoundTrip(n: int, d: Date)
    ensures Ordinal(OfOrdinal(n)) == n
    ensures OfOrdinal(Ordinal(d)) == d
  {
    SettleKeepsDay(YM(0, 1), n + 1);
    SettleKeepsDay(YM(0, 1), Ordinal(d) + 1);
    OrderIsLexicographic(OfOrdinal(Ordinal(d)), d);
  }

  /** Adding days moves the day number by exactly that many. */
  lemma AddDaysIsExact(d: Date, days: int)
    ensures Ordinal(AddDate(d, 0, 0, days)) == Ordinal(d) + days
  {
    SameIndexSameMonth(CarryMonth(d.year, d.month), MonthOf(d));
    SettleKeepsDay(MonthOf(d), d.day + days);
  }

  lemma DayZero(m: Month)
    ensures Settle(Next(m), 0) == OnDay(m, DaysIn(m))
  {
    SameIndexSameMonth(Prev(Next(m)), m);
  }

  /**
   From the first of a month, one month on is the first of the next and one
   day less than that is the last of the month.
   */
  lemma MonthSteps(m: Month)
    ensures AddDate(OnDay(m, 1), 0, 1, 0) == OnDay(Next(m), 1)
    ensures AddDate(OnDay(m, 1), 0, 1, -1) == OnDay(m, DaysIn(m))
  {
    SameIndexSameMonth(CarryMonth(m.year, m.number + 1), Next(m));
    DayZero(m);
  }

  lemma SameMonthDate(m: Month, day: int)
    requires 1 <= day <= DaysIn(m)
    ensures TimeDate(m.year, m.number, day) == OnDay(m, day)
  {
    SameIndexSameMonth(CarryMonth(m.year, m.number), m);
  }
}
