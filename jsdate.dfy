/**
 * The calendar part of JavaScript's `new Date(year, monthIndex, day)`: the
 * day it lands on once an out-of-range month or day has been carried into
 * the next field, as `getFullYear`, `getMonth` and `getDate` report it.
 */
module JsDate {

  /** A calendar day as `getFullYear()`, `getMonth()` (0-based) and `getDate()` report it. */
  datatype CalendarDay = CalendarDay(year: int, month: int, date: int)

  predicate IsLeapYear(y: int) {
    y % 4 == 0 && (y % 100 != 0 || y % 400 == 0)
  }

  function DaysInMonth(y: int, m: int): (n: nat)
    requires 0 <= m < 12
    ensures 28 <= n <= 31
  {
    if m == 1 then (if IsLeapYear(y) then 29 else 28)
    else if m == 3 || m == 5 || m == 8 || m == 10 then 30
    else 31
  }

  predicate Valid(d: CalendarDay) {
    0 <= d.month < 12 && 1 <= d.date <= DaysInMonth(d.year, d.month)
  }

  /** The two-argument-or-more `Date` constructor reads a year from 0 to 99 as 1900 + year. */
  function FullYear(year: int): int {
    if 0 <= year <= 99 then 1900 + year else year
  }

  /** Carries a day outside month `m` of year `y` into the months before or after it. */
  function CarryDays(y: int, m: int, d: int): (r: CalendarDay)
    requires 0 <= m < 12
    ensures Valid(r)
    ensures 1 <= d <= DaysInMonth(y, m) ==> r == CalendarDay(y, m, d)
    decreases if d < 1 then 1 else 0, if d < 1 then -d else d
  {
    if d < 1 then
      var py := if m == 0 then y - 1 else y;
      var pm := if m == 0 then 11 else m - 1;
      CarryDays(py, pm, d + DaysInMonth(py, pm))
    else if d > DaysInMonth(y, m) then
      var ny := if m == 11 then y + 1 else y;
      var nm := if m == 11 then 0 else m + 1;
      CarryDays(ny, nm, d - DaysInMonth(y, m))
    else CalendarDay(y, m, d)
  }

  /** `new Date(year, monthIndex, day)` as a calendar day. */
  function MakeDate(year: int, monthIndex: int, day: int): (r: CalendarDay)
    ensures Valid(r)
    ensures 0 <= monthIndex < 12 && 1 <= day <= DaysInMonth(FullYear(year), monthIndex)
      ==> r == CalendarDay(FullYear(year), monthIndex, day)
  {
    var y := FullYear(year) + monthIndex / 12;
    CarryDays(y, monthIndex % 12, day)
  }

  /** 365 days, or 366 in a leap year. */
  function YearDays(y: int): int {
    if IsLeapYear(y) then 366 else 365
  }

  /**
   * The day number of January 1 of year `y` in the proleptic Gregorian
   * calendar, counted from January 1 of year 0 (negative before it).
   */
  function YearStart(y: int): int
    decreases if y > 0 then y else -y
  {
    if y == 0 then 0
    else if y > 0 then YearStart(y - 1) + YearDays(y - 1)
    else YearStart(y + 1) - YearDays(y)
  }

  /** Days in the months of year `y` before month `m`. */
  function DaysBeforeMonth(y: int, m: int): (n: nat)
    requires 0 <= m <= 12
  {
    if m == 0 then 0 else DaysBeforeMonth(y, m - 1) + DaysInMonth(y, m - 1)
  }

  /** A count of days that does not depend on months or years: consecutive days have consecutive numbers. */
  function DayNumber(d: CalendarDay): int
    requires 0 <= d.month < 12
  {
    YearStart(d.year) + DayOfYear(d)
  }

  /** Days from January 1 of the day's year to the day. */
  function DayOfYear(d: CalendarDay): int
    requires 0 <= d.month < 12
  {
    DaysBeforeMonth(d.year, d.month) + d.date - 1
  }

  /** A year is 365 days long, or 366 when it is a leap year. */
  lemma YearLength(y: int)
    ensures YearStart(y + 1) == YearStart(y) + YearDays(y)
  {
  }

  /** The months of a year add up to its length. */
  lemma MonthsOfYear(y: int)
    ensures DaysBeforeMonth(y, 12) == YearDays(y)
  {
    var feb := DaysInMonth(y, 1);
    assert DaysBeforeMonth(y, 1) == 31;
    assert DaysBeforeMonth(y, 2) == 31 + feb;
    assert DaysBeforeMonth(y, 3) == 62 + feb;
    assert DaysBeforeMonth(y, 4) == 92 + feb;
    assert DaysBeforeMonth(y, 5) == 123 + feb;
    assert DaysBeforeMonth(y, 6) == 153 + feb;
    assert DaysBeforeMonth(y, 7) == 184 + feb;
    assert DaysBeforeMonth(y, 8) == 215 + feb;
    assert DaysBeforeMonth(y, 9) == 245 + feb;
    assert DaysBeforeMonth(y, 10) == 276 + feb;
    assert DaysBeforeMonth(y, 11) == 306 + feb;
  }

  /** The first of the next month is the first of this month plus its length. */
  lemma NextMonthNumber(y: int, m: int)
    requires 0 <= m < 12
    ensures m < 11 ==> DayNumber(CalendarDay(y, m + 1, 1)) == DayNumber(CalendarDay(y, m, 1)) + DaysInMonth(y, m)
    ensures m == 11 ==> DayNumber(CalendarDay(y + 1, 0, 1)) == DayNumber(CalendarDay(y, m, 1)) + DaysInMonth(y, m)
  {
    if m == 11 {
      YearLength(y);
      MonthsOfYear(y);
    }
  }

  /** Months further into the year start later. */
  lemma {:induction false} DaysBeforeMonthGrows(y: int, m1: int, m2: int)
    requires 0 <= m1 <= m2 <= 12
    ensures DaysBeforeMonth(y, m1) <= DaysBeforeMonth(y, m2)
    decreases m2 - m1
  {
    if m1 < m2 {
      DaysBeforeMonthGrows(y, m1, m2 - 1);
    }
  }

  /** Later years start later: year `a` ends no later than year `b` starts. */
  lemma {:induction false} YearStartGrows(a: int, b: int)
    requires a < b
    ensures YearStart(a + 1) <= YearStart(b)
    decreases b - a
  {
    if a + 1 < b {
      YearStartGrows(a, b - 1);
      YearLength(b - 1);
    }
  }

  /** A valid day falls within its own month of the year. */
  lemma DayWithinMonth(d: CalendarDay)
    requires Valid(d)
    ensures DaysBeforeMonth(d.year, d.month) <= DayOfYear(d) < DaysBeforeMonth(d.year, d.month + 1)
  {
  }

  /** A valid day falls within its own year. */
  lemma DayWithinYear(d: CalendarDay)
    requires Valid(d)
    ensures YearStart(d.year) <= DayNumber(d) < YearStart(d.year + 1)
  {
    DaysBeforeMonthGrows(d.year, d.month + 1, 12);
    MonthsOfYear(d.year);
    YearLength(d.year);
  }

  /** Distinct valid days have distinct numbers, so a valid day is pinned down by its number. */
  lemma DayNumberInjective(a: CalendarDay, b: CalendarDay)
    requires Valid(a) && Valid(b) && DayNumber(a) == DayNumber(b)
    ensures a == b
  {
    SameYear(a, b);
    assert DayOfYear(a) == DayOfYear(b);
    SameMonth(a, b);
  }

  /** Valid days with the same number lie in the same year. */
  lemma SameYear(a: CalendarDay, b: CalendarDay)
    requires Valid(a) && Valid(b) && DayNumber(a) == DayNumber(b)
    ensures a.year == b.year
  {
    DayWithinYear(a);
    DayWithinYear(b);
    if a.year < b.year {
      YearStartGrows(a.year, b.year);
    } else if b.year < a.year {
      YearStartGrows(b.year, a.year);
    }
  }

  /** Valid days of one year at the same offset from January 1 lie in the same month. */
  lemma SameMonth(a: CalendarDay, b: CalendarDay)
    requires Valid(a) && Valid(b) && a.year == b.year && DayOfYear(a) == DayOfYear(b)
    ensures a.month == b.month
  {
    DayWithinMonth(a);
    DayWithinMonth(b);
    if a.month < b.month {
      DaysBeforeMonthGrows(a.year, a.month + 1, b.month);
    } else if b.month < a.month {
      DaysBeforeMonthGrows(a.year, b.month + 1, a.month);
    }
  }

  /** Carrying moves the day number by the offset from the first of the month. */
  lemma {:induction false} CarryDaysNumber(y: int, m: int, d: int)
    requires 0 <= m < 12
    ensures DayNumber(CarryDays(y, m, d)) == DayNumber(CalendarDay(y, m, 1)) + d - 1
    decreases if d < 1 then 1 else 0, if d < 1 then -d else d
  {
    if d < 1 {
      var py := if m == 0 then y - 1 else y;
      var pm := if m == 0 then 11 else m - 1;
      assert CarryDays(y, m, d) == CarryDays(py, pm, d + DaysInMonth(py, pm));
      CarryDaysNumber(py, pm, d + DaysInMonth(py, pm));
      NextMonthNumber(py, pm);
    } else if d > DaysInMonth(y, m) {
      var ny := if m == 11 then y + 1 else y;
      var nm := if m == 11 then 0 else m + 1;
      assert CarryDays(y, m, d) == CarryDays(ny, nm, d - DaysInMonth(y, m));
      CarryDaysNumber(ny, nm, d - DaysInMonth(y, m));
      NextMonthNumber(y, m);
    }
  }

  /** The first of month `monthIndex` counted from January of `year`, whole years carried. */
  function FirstOfMonth(year: int, monthIndex: int): (r: CalendarDay)
    ensures Valid(r) && r.date == 1
  {
    CalendarDay(FullYear(year) + monthIndex / 12, monthIndex % 12, 1)
  }

  /**
   * `new Date(year, monthIndex, day)`: the month index carries whole years
   * (`monthIndex / 12`, rounding down), and the day counts on from the first
   * of the month so reached.
   */
  lemma MakeDateNumber(year: int, monthIndex: int, day: int)
    ensures MakeDate(year, monthIndex, 1) == FirstOfMonth(year, monthIndex)
    ensures DayNumber(MakeDate(year, monthIndex, day)) == DayNumber(FirstOfMonth(year, monthIndex)) + day - 1
  {
    CarryDaysNumber(FullYear(year) + monthIndex / 12, monthIndex % 12, day);
  }

  /** A day past the end of a month, by less than the next month's length, lands in the next month. */
  lemma NextMonthCarry(y: int, m: int, d: int)
    requires 0 <= m < 11 && DaysInMonth(y, m) < d <= DaysInMonth(y, m) + DaysInMonth(y, m + 1)
    ensures CarryDays(y, m, d) == CalendarDay(y, m + 1, d - DaysInMonth(y, m))
  {
  }

  /** February 31 of a common year is March 3. */
  lemma FebruaryOverflowExample(year: int)
    requires year == 2025
    ensures MakeDate(year, 1, 31) == CalendarDay(2025, 2, 3)
  {
    assert !IsLeapYear(year);
    NextMonthCarry(year, 1, 31);
  }

  /** Month index -1 is December of the year before. */
  lemma MonthBeforeJanuary(year: int, day: int)
    requires 1 <= day <= 31
    ensures MakeDate(year, -1, day) == CalendarDay(FullYear(year) - 1, 11, day)
  {
    assert -1 / 12 == -1 && -1 % 12 == 11;
  }
}
