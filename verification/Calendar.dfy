/** The proleptic Gregorian calendar as Go's `time` package computes it. All times the
    distro module compares are UTC midnights, so a time is a date. Month lengths follow
    section 5.7 of RFC 3339 and the leap year rule its Appendix C. */
module Calendar {
  import Arithmetic

  datatype Date = Date(year: int, month: int, day: int) {
    predicate Valid() {
      1 <= month <= 12 && 1 <= day <= DaysIn(year, month)
    }
  }

  predicate IsLeap(year: int) {
    year % 4 == 0 && (year % 100 != 0 || year % 400 == 0)
  }

  function DaysIn(year: int, month: int): (days: int)
    requires 1 <= month <= 12
    ensures 28 <= days <= 31
  {
    if month == 2 then (if IsLeap(year) then 29 else 28)
    else if month == 4 || month == 6 || month == 9 || month == 11 then 30
    else 31
  }

  /** `a.Before(b)`: lexicographic on year, month and day. */
  predicate Before(a: Date, b: Date) {
    a.year < b.year
    || (a.year == b.year && (a.month < b.month || (a.month == b.month && a.day < b.day)))
  }

  predicate AtMost(a: Date, b: Date) {
    !Before(b, a)
  }

  /** The day after, by the calendar alone. */
  function NextDay(d: Date): Date
    requires d.Valid()
  {
    if d.day < DaysIn(d.year, d.month) then Date(d.year, d.month, d.day + 1)
    else if d.month < 12 then Date(d.year, d.month + 1, 1)
    else Date(d.year + 1, 1, 1)
  }

  /** The day before, by the calendar alone: `AddDate(0, 0, -1)`. */
  function PrevDay(d: Date): Date
    requires d.Valid()
  {
    if d.day > 1 then Date(d.year, d.month, d.day - 1)
    else if d.month > 1 then Date(d.year, d.month - 1, DaysIn(d.year, d.month - 1))
    else Date(d.year - 1, 12, 31)
  }

  /** `time.Date(year, month+1, 0, ...).Day()`: day zero of the next month is the day
      before its first day. */
  function LastDayOf(year: int, month: int): (day: int)
    requires 1 <= month <= 12
    ensures day == DaysIn(year, month)
  {
    PrevDay(if month < 12 then Date(year, month + 1, 1) else Date(year + 1, 1, 1)).day
  }

  // Months and days counted on one line

  /** Months since January of year 0. */
  function MonthIndex(d: Date): int {
    12 * d.year + d.month - 1
  }

  function MonthLength(k: int): (days: int)
    ensures 28 <= days <= 31
  {
    DaysIn(k / 12, k % 12 + 1)
  }

  /** Days before 1 January of the year, counted from 1 January of year 0. */
  function YearStart(year: int): int {
    365 * year + (year + 3) / 4 - (year + 99) / 100 + (year + 399) / 400
  }

  function DaysBeforeMonth(year: int, month: int): int
    requires 1 <= month <= 12
  {
    if month == 1 then 0 else DaysBeforeMonth(year, month - 1) + DaysIn(year, month - 1)
  }

  /** The day number of the first day of month `k`. */
  function MonthStart(k: int): int {
    YearStart(k / 12) + DaysBeforeMonth(k / 12, k % 12 + 1)
  }

  /** Days since 1 January of year 0: what `t.Sub(u)` divides by 24 hours. */
  function DayNumber(d: Date): int
    requires d.Valid()
  {
    YearStart(d.year) + DaysBeforeMonth(d.year, d.month) + d.day - 1
  }

  lemma Floors4(y: int)
    ensures (y + 3) / 4 == y / 4 + (if y % 4 == 0 then 0 else 1)
    ensures (y + 4) / 4 == y / 4 + 1 && (y - 1) / 4 == (y + 3) / 4 - 1
  {
  }

  lemma Floors100(y: int)
    ensures (y + 99) / 100 == y / 100 + (if y % 100 == 0 then 0 else 1)
    ensures (y + 100) / 100 == y / 100 + 1 && (y - 1) / 100 == (y + 99) / 100 - 1
  {
  }

  lemma Floors400(y: int)
    ensures (y + 399) / 400 == y / 400 + (if y % 400 == 0 then 0 else 1)
    ensures (y + 400) / 400 == y / 400 + 1 && (y - 1) / 400 == (y + 399) / 400 - 1
  {
  }

  lemma YearStartStep(year: int)
    ensures YearStart(year + 1) == YearStart(year) + (if IsLeap(year) then 366 else 365)
  {
    LeapYears(year);
    Floors4(year);
    Floors100(year);
    Floors400(year);
  }

  /** A year divisible by 400 is divisible by 100, and one by 100 is by 4. */
  lemma LeapYears(year: int)
    ensures year % 400 == 0 ==> year % 100 == 0
    ensures year % 100 == 0 ==> year % 4 == 0
  {
    if year % 400 == 0 {
      Arithmetic.DivUnique(year, 100, 4 * (year / 400));
    }
    if year % 100 == 0 {
      Arithmetic.DivUnique(year, 4, 25 * (year / 100));
    }
  }

  lemma DaysBeforeDecember(year: int)
    ensures DaysBeforeMonth(year, 12) == if IsLeap(year) then 335 else 334
  {
    assert DaysBeforeMonth(year, 3) == DaysBeforeMonth(year, 2) + DaysIn(year, 2);
    assert DaysBeforeMonth(year, 6) == DaysBeforeMonth(year, 3) + 31 + 30 + 31 by {
      assert DaysBeforeMonth(year, 5) == DaysBeforeMonth(year, 4) + 30;
    }
    assert DaysBeforeMonth(year, 9) == DaysBeforeMonth(year, 6) + 30 + 31 + 31 by {
      assert DaysBeforeMonth(year, 8) == DaysBeforeMonth(year, 7) + 31;
    }
    assert DaysBeforeMonth(year, 12) == DaysBeforeMonth(year, 9) + 30 + 31 + 30 by {
      assert DaysBeforeMonth(year, 11) == DaysBeforeMonth(year, 10) + 31;
    }
  }

  lemma MonthStartStep(k: int)
    ensures MonthStart(k + 1) == MonthStart(k) + MonthLength(k)
  {
    if k % 12 == 11 {
      assert (k + 1) / 12 == k / 12 + 1 && (k + 1) % 12 == 0;
      YearStartStep(k / 12);
      DaysBeforeDecember(k / 12);
    } else {
      assert (k + 1) / 12 == k / 12 && (k + 1) % 12 == k % 12 + 1;
    }
  }

  lemma {:induction false} MonthStartsAreOrdered(k: int, j: int)
    requires k < j
    ensures MonthStart(j) >= MonthStart(k) + MonthLength(k)
    decreases j - k
  {
    MonthStartStep(j - 1);
    if k < j - 1 {
      MonthStartsAreOrdered(k, j - 1);
    }
  }

  lemma DayNumberByMonth(d: Date)
    requires d.Valid()
    ensures MonthIndex(d) / 12 == d.year && MonthIndex(d) % 12 == d.month - 1
    ensures MonthLength(MonthIndex(d)) == DaysIn(d.year, d.month)
    ensures DayNumber(d) == MonthStart(MonthIndex(d)) + d.day - 1
  {
  }

  lemma BeforeByMonth(a: Date, b: Date)
    requires a.Valid() && b.Valid()
    ensures Before(a, b) <==>
            MonthIndex(a) < MonthIndex(b) || (MonthIndex(a) == MonthIndex(b) && a.day < b.day)
    ensures a == b <==> MonthIndex(a) == MonthIndex(b) && a.day == b.day
  {
  }

  /** The order of dates and the order of day numbers agree, so a difference of day
      numbers has the sign of `Before`, and distinct dates have distinct numbers. */
  lemma OrderAgrees(a: Date, b: Date)
    requires a.Valid() && b.Valid()
    ensures Before(a, b) <==> DayNumber(a) < DayNumber(b)
    ensures a == b <==> DayNumber(a) == DayNumber(b)
  {
    DayNumberByMonth(a);
    DayNumberByMonth(b);
    BeforeByMonth(a, b);
    BeforeByMonth(b, a);
    var i, j := MonthIndex(a), MonthIndex(b);
    if i < j {
      MonthStartsAreOrdered(i, j);
    } else if j < i {
      MonthStartsAreOrdered(j, i);
    }
  }

  /** The day number is the count of calendar days: stepping to the next day adds one,
      and the previous day undoes the step. */
  lemma DayNumberCountsDays(d: Date)
    requires d.Valid()
    ensures NextDay(d).Valid() && PrevDay(d).Valid()
    ensures DayNumber(NextDay(d)) == DayNumber(d) + 1
    ensures DayNumber(PrevDay(d)) == DayNumber(d) - 1
    ensures PrevDay(NextDay(d)) == d && NextDay(PrevDay(d)) == d
  {
    hide DayNumber, MonthStart, IsLeap;
    var n, p := NextDay(d), PrevDay(d);
    DayNumberByMonth(d);
    DayNumberByMonth(n);
    DayNumberByMonth(p);
    MonthStartStep(MonthIndex(d));
    MonthStartStep(MonthIndex(d) - 1);
  }

  // The calendar in closed form

  /** Which dates exist, by the table of section 5.7 of RFC 3339. */
  lemma MonthTable(d: Date)
    ensures d.Valid() <==>
            && 1 <= d.month <= 12 && 1 <= d.day <= 31
            && (d.month == 4 || d.month == 6 || d.month == 9 || d.month == 11 ==> d.day <= 30)
            && (d.month == 2 ==> d.day <= 29)
            && (d.month == 2 && d.day == 29 ==> d.year % 4 == 0 && (d.year % 100 != 0 || d.year % 400 == 0))
  {
  }

  lemma {:induction false} DaysBeforeMonthClosed(year: int, month: int)
    requires 3 <= month <= 12
    ensures DaysBeforeMonth(year, month) == (153 * (month - 3) + 2) / 5 + (if IsLeap(year) then 60 else 59)
  {
    if month > 3 {
      DaysBeforeMonthClosed(year, month - 1);
      assert (153 * (month - 3) + 2) / 5 - (153 * (month - 4) + 2) / 5 == DaysIn(year, month - 1);
    } else {
      assert DaysBeforeMonth(year, 2) == 31;
    }
  }

  lemma FirstMonths(year: int)
    ensures DaysBeforeMonth(year, 1) == 0 && DaysBeforeMonth(year, 2) == 31
  {
  }

  lemma YearStartFromYearBefore(year: int)
    ensures YearStart(year) == 365 * year + (year - 1) / 4 - (year - 1) / 100 + (year - 1) / 400 + 1
  {
    Floors4(year);
    Floors100(year);
    Floors400(year);
  }

  lemma YearStartClosed(year: int)
    ensures YearStart(year) + (if IsLeap(year) then 1 else 0)
            == 365 * year + year / 4 - year / 100 + year / 400 + 1
  {
    LeapYears(year);
    Floors4(year);
    Floors100(year);
    Floors400(year);
  }

  /** The day number without a table of months or leap years: count years from March, so that
      the leap day comes last; then a month starts on day (153k + 2) / 5 of its year. */
  lemma DayNumberClosedForm(d: Date)
    requires d.Valid()
    ensures var y := if d.month <= 2 then d.year - 1 else d.year;
            var k := (d.month + 9) % 12;
            DayNumber(d) == 365 * y + y / 4 - y / 100 + y / 400 + (153 * k + 2) / 5 + d.day - 1 + 60
  {
    hide YearStart, IsLeap, DaysIn;
    if d.month > 2 {
      YearStartClosed(d.year);
      DaysBeforeMonthClosed(d.year, d.month);
      assert (d.month + 9) % 12 == d.month - 3;
    } else {
      assert (d.month + 9) % 12 == d.month + 9;
      FirstMonths(d.year);
      YearStartFromYearBefore(d.year);
    }
  }
}
