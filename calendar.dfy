/** Proleptic Gregorian calendar arithmetic as the picker relies on it: the
    day count of a month, a day ordinal, the weekday, JavaScript's day-overflow
    normalisation in `new Date(y, m, d)` and date-fns' month and day addition. */
module Calendar {

  /** Months are numbered 0..11, as `Date.getMonth()` returns them. */
  type Month = m: int | 0 <= m < 12

  /** A local calendar date. `ValidDate` says when it names a real day. */
  datatype Date = Date(year: int, month: Month, day: int)

  /** A (year, month) pair, such as the picker's anchor month. */
  datatype YearMonth = YearMonth(year: int, month: Month)

  /** Milliseconds in a day: the resolution of a JavaScript `Date`. */
  const MsPerDay: int := 86_400_000

  /** A point in local time: a date plus the milliseconds elapsed since its midnight. */
  datatype Instant = Instant(date: Date, ms: int)

  predicate IsLeapYear(y: int) {
    y % 4 == 0 && (y % 100 != 0 || y % 400 == 0)
  }

  /** The number of days in month `m` of year `y` (date-fns `getDaysInMonth`). */
  function DaysInMonth(y: int, m: Month): (n: int)
    ensures 28 <= n <= 31
    ensures m == 1 ==> (n == 29 <==> IsLeapYear(y))
    ensures m != 1 ==> 30 <= n
  {
    if m == 1 then (if IsLeapYear(y) then 29 else 28)
    else if m == 3 || m == 5 || m == 8 || m == 10 then 30
    else 31
  }

  predicate ValidDate(d: Date) {
    1 <= d.day <= DaysInMonth(d.year, d.month)
  }

  predicate ValidInstant(i: Instant) {
    ValidDate(i.date) && 0 <= i.ms < MsPerDay
  }

  function YearLength(y: int): int {
    if IsLeapYear(y) then 366 else 365
  }

  /** Days from 1 January of year 1 to 1 January of year `y`. */
  function DaysBeforeYear(y: int): int {
    365 * (y - 1) + (y - 1) / 4 - (y - 1) / 100 + (y - 1) / 400
  }

  /** Days from 1 January to the first of month `m` in year `y`. */
  function DaysBeforeMonth(y: int, m: Month): int {
    var leapDay := if m >= 2 && IsLeapYear(y) then 1 else 0;
    leapDay +
      (if m == 0 then 0 else if m == 1 then 31 else if m == 2 then 59
       else if m == 3 then 90 else if m == 4 then 120 else if m == 5 then 151
       else if m == 6 then 181 else if m == 7 then 212 else if m == 8 then 243
       else if m == 9 then 273 else if m == 10 then 304 else 334)
  }

  /** Day number of a date, counted from 1 January of year 1 (ordinal 0). */
  function Ordinal(d: Date): int {
    DaysBeforeYear(d.year) + DaysBeforeMonth(d.year, d.month) + d.day - 1
  }

  /** Day of the week, 0 = Sunday .. 6 = Saturday (`Date.getDay()`).
      1 January of year 1 of the proleptic Gregorian calendar was a Monday. */
  function Weekday(d: Date): (w: int)
    ensures 0 <= w < 7
  {
    (Ordinal(d) + 1) % 7
  }

  /** Milliseconds since 1 January of year 1, local time (the analogue of `getTime()`). */
  function Stamp(i: Instant): (s: int)
    ensures ValidInstant(i) ==> Ordinal(i.date) * MsPerDay <= s < (Ordinal(i.date) + 1) * MsPerDay
  {
    Ordinal(i.date) * MsPerDay + i.ms
  }

  function FirstOf(a: YearMonth): Date {
    Date(a.year, a.month, 1)
  }

  /** The month after `a`, December rolling into January of the next year. */
  function NextMonth(a: YearMonth): YearMonth {
    if a.month == 11 then YearMonth(a.year + 1, 0) else YearMonth(a.year, a.month + 1)
  }

  /** The month before `a`, January rolling back into December of the previous year. */
  function PrevMonth(a: YearMonth): YearMonth {
    if a.month == 0 then YearMonth(a.year - 1, 11) else YearMonth(a.year, a.month - 1)
  }

  /** Months since January of year 0: consecutive months have consecutive indices. */
  function MonthIndex(y: int, m: Month): int {
    12 * y + m
  }

  lemma MonthIndexInverse(t: int)
    ensures 0 <= t % 12 < 12
    ensures MonthIndex(t / 12, t % 12) == t
  {
  }

  lemma MonthIndexInjective(y1: int, m1: Month, y2: int, m2: Month)
    requires MonthIndex(y1, m1) == MonthIndex(y2, m2)
    ensures y1 == y2 && m1 == m2
  {
  }

  lemma NextMonthIndex(a: YearMonth)
    ensures MonthIndex(NextMonth(a).year, NextMonth(a).month) == MonthIndex(a.year, a.month) + 1
    ensures MonthIndex(PrevMonth(a).year, PrevMonth(a).month) == MonthIndex(a.year, a.month) - 1
  {
  }

  /** Moving forward one month and back again, or back and forward, is the identity. */
  lemma PrevNextInverse(a: YearMonth)
    ensures PrevMonth(NextMonth(a)) == a
    ensures NextMonth(PrevMonth(a)) == a
  {
  }

  /** Integer division by a leap-cycle length steps up by one exactly at a multiple of it. */
  lemma DivStep(y: int, k: int)
    requires k == 4 || k == 100 || k == 400
    ensures y / k - (y - 1) / k == if y % k == 0 then 1 else 0
  {
  }

  /** The first day of year y + 1 comes exactly a year's length after that of y. */
  lemma YearStep(y: int)
    ensures DaysBeforeYear(y + 1) == DaysBeforeYear(y) + YearLength(y)
  {
    DivStep(y, 4);
    DivStep(y, 100);
    DivStep(y, 400);
  }

  /** The first of the following month comes exactly a month's length after the first of `a`. */
  lemma MonthStep(a: YearMonth)
    ensures Ordinal(FirstOf(NextMonth(a))) == Ordinal(FirstOf(a)) + DaysInMonth(a.year, a.month)
  {
    if a.month == 11 {
      YearStep(a.year);
    }
  }

  /** Two days the calendar knows: 1 January 1970 was a Thursday, and so was 1 February 2024. */
  lemma WeekdayAnchors()
    ensures Weekday(Date(1970, 0, 1)) == 4
    ensures Weekday(Date(2024, 1, 1)) == 4
  {
  }

  /** Lexicographic order on (year, month, day): calendar order. */
  predicate Precedes(a: Date, b: Date) {
    a.year < b.year ||
    (a.year == b.year && (a.month < b.month || (a.month == b.month && a.day < b.day)))
  }

  /** A year is at least 365 days long, so later years start later. */
  lemma {:induction false} YearsIncrease(y1: int, y2: int)
    requires y1 <= y2
    ensures DaysBeforeYear(y1) + 365 * (y2 - y1) <= DaysBeforeYear(y2)
    decreases y2 - y1
  {
    if y1 < y2 {
      YearsIncrease(y1, y2 - 1);
      YearStep(y2 - 1);
    }
  }

  /** The months of a year follow one another without overlap. */
  lemma MonthsIncrease(y: int, m1: Month, m2: Month)
    requires m1 < m2
    ensures DaysBeforeMonth(y, m1) + DaysInMonth(y, m1) <= DaysBeforeMonth(y, m2)
  {
  }

  /** Every valid day of year y lies between the first day of y and the first day of y + 1. */
  lemma OrdinalWithinYear(d: Date)
    requires ValidDate(d)
    ensures DaysBeforeYear(d.year) <= Ordinal(d) < DaysBeforeYear(d.year + 1)
  {
    YearStep(d.year);
  }

  lemma PrecedesOrdinal(a: Date, b: Date)
    requires ValidDate(a) && ValidDate(b) && Precedes(a, b)
    ensures Ordinal(a) < Ordinal(b)
  {
    if a.year < b.year {
      OrdinalWithinYear(a);
      OrdinalWithinYear(b);
      YearsIncrease(a.year + 1, b.year);
    } else if a.month < b.month {
      MonthsIncrease(a.year, a.month, b.month);
    }
  }

  /** The ordinal of valid dates follows calendar order exactly; in particular it is injective. */
  lemma OrdinalOrder(a: Date, b: Date)
    ensures ValidDate(a) && ValidDate(b) ==> (Precedes(a, b) <==> Ordinal(a) < Ordinal(b))
    ensures ValidDate(a) && ValidDate(b) ==> (a == b <==> Ordinal(a) == Ordinal(b))
  {
    if !(ValidDate(a) && ValidDate(b)) {
    } else if Precedes(a, b) {
      PrecedesOrdinal(a, b);
    } else if a != b {
      assert Precedes(b, a);
      PrecedesOrdinal(b, a);
    }
  }

  /** JavaScript's `new Date(y, m, d)` for a day `d >= 1` past the month's end:
      the surplus days spill over into the following months. */
  function MakeDate(y: int, m: Month, d: int): (r: Date)
    requires d >= 1
    ensures ValidDate(r)
    ensures Ordinal(r) == Ordinal(Date(y, m, 1)) + d - 1
    decreases d
  {
    var length := DaysInMonth(y, m);
    if d <= length then Date(y, m, d)
    else
      var next := NextMonth(YearMonth(y, m));
      MonthStep(YearMonth(y, m));
      MakeDate(next.year, next.month, d - length)
  }

  /** A day that fits its month is left as it is. */
  lemma MakeDateInMonth(y: int, m: Month, d: int)
    requires 1 <= d <= DaysInMonth(y, m)
    ensures MakeDate(y, m, d) == Date(y, m, d)
  {
  }

  /** date-fns `addMonths`: move `n` calendar months, clamping the day to the
      last day of the target month when that month is shorter. */
  function AddMonths(d: Date, n: int): (r: Date)
    requires ValidDate(d)
    ensures ValidDate(r)
    ensures MonthIndex(r.year, r.month) == MonthIndex(d.year, d.month) + n
    ensures r.day <= d.day
    ensures r.day == d.day || r.day == DaysInMonth(r.year, r.month)
  {
    var t := MonthIndex(d.year, d.month) + n;
    MonthIndexInverse(t);
    var last := DaysInMonth(t / 12, t % 12);
    Date(t / 12, t % 12, if d.day >= last then last else d.day)
  }

  /** Adding one month to the first of a month gives the first of the next month. */
  lemma AddMonthToFirst(a: YearMonth)
    ensures AddMonths(FirstOf(a), 1) == FirstOf(NextMonth(a))
    ensures AddMonths(FirstOf(a), -1) == FirstOf(PrevMonth(a))
  {
    var r, p := AddMonths(FirstOf(a), 1), AddMonths(FirstOf(a), -1);
    NextMonthIndex(a);
    MonthIndexInjective(r.year, r.month, NextMonth(a).year, NextMonth(a).month);
    MonthIndexInjective(p.year, p.month, PrevMonth(a).year, PrevMonth(a).month);
  }

  /** date-fns `add(date, {months: n})` on an instant: the time of day is kept. */
  function AddMonthsTo(i: Instant, n: int): (r: Instant)
    requires ValidInstant(i)
    ensures ValidInstant(r)
    ensures r.ms == i.ms
    ensures MonthIndex(r.date.year, r.date.month) == MonthIndex(i.date.year, i.date.month) + n
    ensures r.date.day <= i.date.day
    ensures r.date.day == i.date.day || r.date.day == DaysInMonth(r.date.year, r.date.month)
  {
    Instant(AddMonths(i.date, n), i.ms)
  }

  /** date-fns `add(date, {days: n})` for `n >= 0`: `setDate(getDate() + n)`,
      which JavaScript normalises by day overflow; the time of day is kept. */
  function AddDays(i: Instant, n: int): (r: Instant)
    requires ValidInstant(i) && n >= 0
    ensures ValidInstant(r)
    ensures Ordinal(r.date) == Ordinal(i.date) + n
    ensures r.ms == i.ms
  {
    Instant(MakeDate(i.date.year, i.date.month, i.date.day + n), i.ms)
  }

  /** The weekday of the next day is the following weekday: with the anchors
      above this fixes the weekday of every date. */
  lemma WeekdayStep(d: Date)
    requires ValidDate(d)
    ensures Weekday(MakeDate(d.year, d.month, d.day + 1)) == (Weekday(d) + 1) % 7
  {
    var next := MakeDate(d.year, d.month, d.day + 1);
    assert Ordinal(next) == Ordinal(d) + 1;
    WeekStep(Ordinal(d) + 1);
  }

  lemma WeekStep(x: int)
    ensures (x + 1) % 7 == (x % 7 + 1) % 7
  {
  }

  /** Stamps of valid instants order them as the calendar and the clock do,
      and distinct valid instants have distinct stamps. */
  lemma StampOrder(a: Instant, b: Instant)
    ensures ValidInstant(a) && ValidInstant(b) ==>
      (Stamp(a) < Stamp(b) <==> Precedes(a.date, b.date) || (a.date == b.date && a.ms < b.ms))
    ensures ValidInstant(a) && ValidInstant(b) ==> (Stamp(a) == Stamp(b) <==> a == b)
  {
    OrdinalOrder(a.date, b.date);
    if !(ValidInstant(a) && ValidInstant(b)) {
    } else if Ordinal(a.date) < Ordinal(b.date) {
      assert (Ordinal(a.date) + 1) * MsPerDay <= Ordinal(b.date) * MsPerDay;
    } else if Ordinal(b.date) < Ordinal(a.date) {
      assert (Ordinal(b.date) + 1) * MsPerDay <= Ordinal(a.date) * MsPerDay;
    }
  }
}
