/** The weekday arithmetic of libraries/ls1c_rtc.c, against the calendar. */
module Weekday {

  /** RTC_IsLeapYear. */
  predicate IsLeapYear(year: nat) {
    if year % 4 != 0 then false else if year % 100 != 0 then true else year % 400 == 0
  }

  /** RTC_WeekDayNum; `nYear` counts from 2000. */
  function WeekDayNum(nYear: nat, month: nat, day: nat): (w: nat)
    ensures w < 7
  {
    var year := 2000 + nYear;
    if month < 3 then
      (23 * month / 9 + day + 4 + year + (year - 1) / 4 - (year - 1) / 100 + (year - 1) / 400) % 7
    else
      (23 * month / 9 + day + 4 + year + year / 4 - year / 100 + year / 400 - 2) % 7
  }

  // ----- The calendar

  datatype Date = Date(year: nat, month: nat, day: nat)

  function MonthLength(year: nat, month: nat): nat {
    if month == 2 then (if IsLeapYear(year) then 29 else 28)
    else if month == 4 || month == 6 || month == 9 || month == 11 then 30 else 31
  }

  predicate IsDate(d: Date) {
    d.year >= 2000 && 1 <= d.month <= 12 && 1 <= d.day <= MonthLength(d.year, d.month)
  }

  const FIRST := Date(2000, 1, 1)

  function NextDay(d: Date): (r: Date)
    requires IsDate(d)
    ensures IsDate(r)
  {
    if d.day < MonthLength(d.year, d.month) then d.(day := d.day + 1)
    else if d.month < 12 then Date(d.year, d.month + 1, 1)
    else Date(d.year + 1, 1, 1)
  }

  /** The date `n` days after 2000-01-01. */
  function DayAfter(n: nat): (d: Date)
    ensures IsDate(d)
  {
    if n == 0 then FIRST else NextDay(DayAfter(n - 1))
  }

  /** Days before the first of a month, and before the first of a year from 2000 on. */
  function DaysBeforeMonth(year: nat, month: nat): nat {
    if month <= 1 then 0 else DaysBeforeMonth(year, month - 1) + MonthLength(year, month - 1)
  }

  function DaysBeforeYear(year: nat): nat {
    if year <= 2000 then 0 else DaysBeforeYear(year - 1) + DaysBeforeMonth(year - 1, 13)
  }

  function DaysSince(d: Date): nat
    requires IsDate(d)
  {
    DaysBeforeYear(d.year) + DaysBeforeMonth(d.year, d.month) + d.day - 1
  }

  function WeekdayOf(d: Date): nat
    requires IsDate(d)
  {
    WeekDayNum(d.year - 2000, d.month, d.day)
  }

  // ----- The closed form agrees with the count of days

  lemma MonthDays(year: nat, month: nat)
    requires 1 <= month <= 13
    ensures var leap := if IsLeapYear(year) then 1 else 0;
            DaysBeforeMonth(year, month)
            == [0, 31, 59 + leap, 90 + leap, 120 + leap, 151 + leap, 181 + leap, 212 + leap, 243 + leap, 273 + leap,
                304 + leap, 334 + leap, 365 + leap][month - 1]
  {
    if month > 1 { MonthDays(year, month - 1); }
  }

  /** The years before `year` bring the days of their leap years beyond 365 each. */
  lemma {:induction false} YearDays(year: nat)
    requires year >= 2000
    ensures DaysBeforeYear(year) == 365 * (year - 2000) + (year - 1) / 4 - (year - 1) / 100 + (year - 1) / 400 - 484
  {
    if year > 2000 {
      YearDays(year - 1);
      MonthDays(year - 1, 13);
      LeapStep(year - 1);
    }
  }

  lemma LeapStep(year: nat)
    requires year > 0
    ensures year / 4 - year / 100 + year / 400 - (year - 1) / 4 + (year - 1) / 100 - (year - 1) / 400
            == if IsLeapYear(year) then 1 else 0
  {
    QuotientSteps(year, 4);
    QuotientSteps(year, 100);
    QuotientSteps(year, 400);
    MultiplesNest(year);
  }

  /** A quotient steps up at the multiples of the divisor. */
  lemma QuotientSteps(n: nat, d: nat)
    requires n > 0 && (d == 4 || d == 100 || d == 400)
    ensures n / d - (n - 1) / d == if n % d == 0 then 1 else 0
  {
    if d == 4 {
    } else if d == 100 {
    } else {
    }
  }

  lemma MultiplesNest(n: nat)
    ensures n % 400 == 0 ==> n % 100 == 0
    ensures n % 100 == 0 ==> n % 4 == 0
  {
    assert n % 400 == 0 ==> n == 100 * (4 * (n / 400));
    assert n % 100 == 0 ==> n == 4 * (25 * (n / 100));
  }

  /** Up to whole weeks, 23 * month / 9 is the number of days before the month. */
  lemma MonthTerm(year: nat, month: nat)
    requires 1 <= month <= 12
    ensures var leap := if IsLeapYear(year) then 1 else 0;
            23 * month / 9 + (if month < 3 then 0 else leap - 2) == DaysBeforeMonth(year, month) + 2 - 28 * (month - 1)
  {
    hide IsLeapYear;
    MonthDays(year, month);
  }

  lemma WholeWeeks(a: int, b: int, weeks: int)
    requires a == b + 7 * weeks
    ensures a % 7 == b % 7
  {
  }

  /** RTC_WeekDayNum is the number of days since 2000-01-01, a Saturday, modulo 7. */
  lemma WeekdayCountsDays(d: Date)
    requires IsDate(d)
    ensures WeekdayOf(d) == (6 + DaysSince(d)) % 7
  {
    hide IsLeapYear, DaysBeforeMonth, DaysBeforeYear;
    var y, m := d.year, d.month;
    YearDays(y);
    MonthTerm(y, m);
    LeapStep(y);
    var sum := if m < 3 then 23 * m / 9 + d.day + 4 + y + (y - 1) / 4 - (y - 1) / 100 + (y - 1) / 400
               else 23 * m / 9 + d.day + 4 + y + y / 4 - y / 100 + y / 400 - 2;
    WholeWeeks(sum, 6 + DaysSince(d), 104355 - 52 * y - 4 * (m - 1));
  }

  lemma NextDayCounts(d: Date)
    requires IsDate(d)
    ensures DaysSince(NextDay(d)) == DaysSince(d) + 1
  {
  }

  lemma OneMore(n: nat)
    ensures (n + 1) % 7 == (n % 7 + 1) % 7
  {
  }

  /** Each calendar day advances the weekday by one. */
  lemma WeekdayAdvances(d: Date)
    requires IsDate(d)
    ensures WeekdayOf(NextDay(d)) == (WeekdayOf(d) + 1) % 7
  {
    hide WeekdayOf, DaysSince, NextDay, IsDate;
    WeekdayCountsDays(d);
    WeekdayCountsDays(NextDay(d));
    NextDayCounts(d);
    OneMore(6 + DaysSince(d));
  }

  lemma {:induction false} DayAfterCounts(n: nat)
    ensures DaysSince(DayAfter(n)) == n && WeekdayOf(DayAfter(n)) == (6 + n) % 7
  {
    if n > 0 {
      DayAfterCounts(n - 1);
      NextDayCounts(DayAfter(n - 1));
    }
    WeekdayCountsDays(DayAfter(n));
  }

  lemma FirstIsZero()
    ensures DaysSince(FIRST) == 0
  {
  }

  /** Every date from 2000 on is reached, so the weekday is known for all of them. */
  lemma {:induction false} EveryDateReached(d: Date)
    requires IsDate(d)
    ensures DayAfter(DaysSince(d)) == d
    decreases d.year, d.month, d.day
  {
    hide DaysBeforeYear, DaysBeforeMonth, DaysSince, IsLeapYear;
    FirstIsZero();
    if d != FIRST {
      var before :=
        if d.day > 1 then d.(day := d.day - 1)
        else if d.month > 1 then Date(d.year, d.month - 1, MonthLength(d.year, d.month - 1))
        else Date(d.year - 1, 12, 31);
      assert NextDay(before) == d;
      EveryDateReached(before);
      NextDayCounts(before);
    }
  }
}
