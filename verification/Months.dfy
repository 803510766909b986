/** The two month functions of the minting schedule. `AddMonths` places a period boundary
    and `MonthsBetween` picks a period; the schedule is right only if they agree on every
    date, month ends and 29 February included. */
module Months {
  import opened Machine
  import opened Calendar

  /** `addMonths`: Go's truncating `/` and `%`, a correction step for negative remainders,
      and the day clamped to the end of the month reached. */
  function AddMonths(t: Date, months: int): Date
    requires t.Valid()
  {
    var target := t.month + months;
    var year := t.year + TruncDiv(target - 1, 12);
    var month := TruncRem(target - 1, 12) + 1;
    var (year', month') := if month < 1 then (year - 1, month + 12) else (year, month);
    var lastDay := LastDayOf(year', month');
    Date(year', month', if t.day > lastDay then lastDay else t.day)
  }

  /** The month count before the final negative clamp. */
  function RawMonthsBetween(start: Date, end: Date): int
    requires start.Valid() && end.Valid()
  {
    var months := (end.year - start.year) * 12 + end.month - start.month;
    if end.day < start.day && end.day != LastDayOf(end.year, end.month) then months - 1 else months
  }

  /** `monthsBetween`: -1 when `end` is before `start`. */
  function MonthsBetween(start: Date, end: Date): int
    requires start.Valid() && end.Valid()
  {
    if Before(end, start) then -1
    else
      var months := RawMonthsBetween(start, end);
      if months < 0 then 0 else months
  }

  /** `AddMonths` is Euclidean arithmetic on the month line for every offset, negative ones
      included: the day stays, or becomes the last one of the month reached. */
  lemma AddMonthsIsEuclidean(t: Date, n: int)
    requires t.Valid()
    ensures AddMonths(t, n).Valid()
    ensures var r := AddMonths(t, n);
            && 12 * r.year + r.month == 12 * t.year + t.month + n && r.day <= t.day
            && (r.day < t.day ==> !Date(r.year, r.month, r.day + 1).Valid())
    ensures MonthIndex(AddMonths(t, n)) == MonthIndex(t) + n
    ensures AddMonths(t, n).day == Min(t.day, MonthLength(MonthIndex(t) + n))
  {
    DayNumberByMonth(AddMonths(t, n));
  }

  /** A larger offset gives a strictly later date. */
  lemma AddMonthsIncreases(t: Date, n: int, k: int)
    requires t.Valid() && n < k
    ensures Before(AddMonths(t, n), AddMonths(t, k))
  {
  }

  /** A later date stays at least as late after the same number of months. */
  lemma AddMonthsIsMonotone(s: Date, t: Date, n: int)
    requires s.Valid() && t.Valid() && AtMost(s, t)
    ensures AtMost(AddMonths(s, n), AddMonths(t, n))
  {
    AddMonthsIsEuclidean(s, n);
    AddMonthsIsEuclidean(t, n);
    BeforeByMonth(t, s);
    BeforeByMonth(AddMonths(t, n), AddMonths(s, n));
  }

  /** Two hops land in the month of the single hop, never after it, and on the same day
      exactly when the first hop clamps no deeper than the whole hop does. */
  lemma AddMonthsComposes(s: Date, a: int, b: int)
    requires s.Valid()
    ensures AddMonths(s, a).Valid()
    ensures MonthIndex(AddMonths(AddMonths(s, a), b)) == MonthIndex(AddMonths(s, a + b))
    ensures AtMost(AddMonths(AddMonths(s, a), b), AddMonths(s, a + b))
    ensures AddMonths(AddMonths(s, a), b) == AddMonths(s, a + b)
            <==> Min(s.day, MonthLength(MonthIndex(s) + a + b)) <= MonthLength(MonthIndex(s) + a)
    ensures s.day <= 28 ==> AddMonths(AddMonths(s, a), b) == AddMonths(s, a + b)
  {
    hide AddMonths, MonthLength;
    AddMonthsIsEuclidean(s, a);
    AddMonthsIsEuclidean(s, a + b);
    AddMonthsIsEuclidean(AddMonths(s, a), b);
    BeforeByMonth(AddMonths(s, a + b), AddMonths(AddMonths(s, a), b));
  }

  /** The agreement of the two functions, for every pair of dates and every offset: a
      month boundary has been reached exactly when its offset is at most `MonthsBetween`. */
  lemma MonthsBetweenIsGreatest(s: Date, e: Date, n: int)
    requires s.Valid() && e.Valid() && AtMost(s, e)
    ensures 0 <= RawMonthsBetween(s, e)
    ensures AtMost(AddMonths(s, n), e) <==> n <= MonthsBetween(s, e)
  {
  }

  /** `MonthsBetween` inverts `AddMonths` on every offset from the start date on. */
  lemma MonthsBetweenInverts(s: Date, n: nat)
    requires s.Valid()
    ensures AddMonths(s, n).Valid() && MonthsBetween(s, AddMonths(s, n)) == n
  {
  }

  /** The days from one clamped month boundary to the next are 28 to 31, whichever end is
      clamped. */
  lemma SpanOfMonth(s: Date, n: int)
    requires s.Valid()
    ensures AddMonths(s, n).Valid() && AddMonths(s, n + 1).Valid()
    ensures 28 <= DayNumber(AddMonths(s, n + 1)) - DayNumber(AddMonths(s, n)) <= 31
  {
    hide AddMonths, DayNumber, MonthStart, MonthLength;
    AddMonthsIsEuclidean(s, n);
    AddMonthsIsEuclidean(s, n + 1);
    DayNumberByMonth(AddMonths(s, n));
    DayNumberByMonth(AddMonths(s, n + 1));
    MonthStartStep(MonthIndex(s) + n);
  }

  /** So `k` months from any boundary hold 28k to 31k days. */
  lemma {:induction false} SpanOfMonths(s: Date, n: int, k: nat)
    requires s.Valid()
    ensures AddMonths(s, n).Valid() && AddMonths(s, n + k).Valid()
    ensures 28 * k <= DayNumber(AddMonths(s, n + k)) - DayNumber(AddMonths(s, n)) <= 31 * k
  {
    hide DayNumber, AddMonths;
    AddMonthsIsEuclidean(s, n);
    if k > 0 {
      SpanOfMonths(s, n, k - 1);
      SpanOfMonth(s, n + (k - 1));
      assert n + (k - 1) + 1 == n + k;
    }
  }

  /** Twelve months from any boundary are 365 or 366 days. */
  lemma SpanOfYear(s: Date, n: int)
    requires s.Valid()
    ensures AddMonths(s, n).Valid() && AddMonths(s, n + 12).Valid()
    ensures 365 <= DayNumber(AddMonths(s, n + 12)) - DayNumber(AddMonths(s, n)) <= 366
  {
    hide AddMonths, YearStart;
    var a, b := AddMonths(s, n), AddMonths(s, n + 12);
    AddMonthsIsEuclidean(s, n);
    AddMonthsIsEuclidean(s, n + 12);
    DayNumberByMonth(a);
    DayNumberByMonth(b);
    YearStartStep(a.year);
    DaysBeforeMonthVaries(a.year, a.month);
    assert b.year == a.year + 1 && b.month == a.month;
  }

  lemma {:induction false} DaysBeforeMonthVaries(year: int, month: int)
    requires 1 <= month <= 12
    ensures DaysBeforeMonth(year + 1, month) - DaysBeforeMonth(year, month)
            == if month <= 2 || IsLeap(year) == IsLeap(year + 1) then 0 else if IsLeap(year) then -1 else 1
  {
    if month > 1 {
      DaysBeforeMonthVaries(year, month - 1);
    }
  }
}
