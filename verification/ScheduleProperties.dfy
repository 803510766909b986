/** What the minting schedule promises over time. */
module ScheduleProperties {
  import opened Machine
  import opened Arithmetic
  import opened Calendar
  import opened Months
  import opened Halving
  import opened DistroParams
  import opened Schedule

  // The ceiling over time

  lemma {:induction false} SumOfLimitsGrows(maxSupply: uint64, n: nat, m: nat)
    requires n <= m
    ensures SumOfLimits(maxSupply, n) <= SumOfLimits(maxSupply, m)
    decreases m
  {
    if n < m {
      SumOfLimitsGrows(maxSupply, n, m - 1);
    }
  }

  lemma PeriodOfGrows(s: Date, months: nat, t: Date, u: Date)
    requires s.Valid() && t.Valid() && u.Valid() && AtMost(s, t) && AtMost(t, u) && months > 0
    ensures PeriodOf(s, months, t) <= PeriodOf(s, months, u)
  {
    var n := MonthsBetween(s, t);
    MonthsBetweenIsGreatest(s, t, n);
    MonthsBetweenIsGreatest(s, u, n);
    DivMonotone(n, MonthsBetween(s, u), months);
  }

  /** The ceiling over unbounded integers never decreases as the date advances. */
  lemma CeilingIsMonotone(s: Date, months: nat, maxSupply: uint64, t: Date, u: Date)
    requires s.Valid() && t.Valid() && u.Valid() && AtMost(s, t) && AtMost(t, u) && months > 0
    ensures Ceiling(s, months, maxSupply, t) <= Ceiling(s, months, maxSupply, u)
  {
    hide DayNumber, AddMonths;
    var p, q := PeriodOf(s, months, t), PeriodOf(s, months, u);
    PeriodOfGrows(s, months, t, u);
    if p == q {
      OrderAgrees(u, t);
      ShareMonotone(HalvingPeriodLimit(maxSupply, p), Elapsed(s, months, t), Elapsed(s, months, u),
                    PeriodDays(s, months, p));
    } else {
      CeilingWithinPeriod(s, months, maxSupply, t);
      CeilingWithinPeriod(s, months, maxSupply, u);
      SumOfLimitsGrows(maxSupply, p, q - 1);
    }
  }

  /** At a period boundary the ceiling is exactly the sum of the completed periods: a full
      period releases its whole limit, with no rounding loss. */
  lemma CeilingAtBoundary(s: Date, months: nat, maxSupply: uint64, period: nat)
    requires s.Valid() && months > 0 && period >= 1
    ensures AtMost(s, PeriodStart(s, months, period))
    ensures Ceiling(s, months, maxSupply, PeriodStart(s, months, period)) == SumOfLimits(maxSupply, period - 1)
  {
    hide DayNumber, AddMonths;
    var t := PeriodStart(s, months, period);
    MulOrder(months, 0, period - 1);
    AddMonthsIsEuclidean(s, 0);
    BeforeByMonth(t, s);
    BoundaryIsNotBefore(s, (period - 1) * months);
    assert (period - 1) * months + months == (period + 1 - 1) * months;
    AddMonthsIncreases(s, (period - 1) * months, period * months);
    PeriodsTile(s, months, t, period);
    ShareOfNone(HalvingPeriodLimit(maxSupply, period), PeriodDays(s, months, period));
  }

  /** The elapsed days the schedule uses are the true ones, saturated. */
  lemma ElapsedInPeriod(s: Date, months: nat, t: Date)
    requires s.Valid() && t.Valid() && AtMost(s, t) && months > 0
    ensures var p := PeriodOf(s, months, t);
            var e := DayNumber(t) - DayNumber(PeriodStart(s, months, p));
            && 0 <= e < Span(s, months, p)
            && Elapsed(s, months, t) == Min(e, MAX_DURATION_DAYS)
  {
    hide DayNumber, AddMonths;
    ElapsedWithinPeriod(s, months, t);
    OrderAgrees(t, PeriodStart(s, months, PeriodOf(s, months, t)));
  }

  lemma DayAfter(s: Date, t: Date)
    requires s.Valid() && t.Valid() && AtMost(s, t)
    ensures NextDay(t).Valid() && AtMost(s, NextDay(t)) && AtMost(t, NextDay(t))
    ensures DayNumber(NextDay(t)) == DayNumber(t) + 1
  {
    DayNumberCountsDays(t);
    OrderAgrees(t, s);
    OrderAgrees(NextDay(t), s);
    OrderAgrees(NextDay(t), t);
  }

  lemma NextDayAcross(s: Date, months: nat, maxSupply: uint64, t: Date)
    requires s.Valid() && t.Valid() && AtMost(s, t) && months > 0
    requires var p := PeriodOf(s, months, t);
             DayNumber(t) + 1 - DayNumber(PeriodStart(s, months, p)) == Span(s, months, p)
    ensures NextDay(t).Valid() && AtMost(s, NextDay(t))
    ensures Ceiling(s, months, maxSupply, NextDay(t)) == SumOfLimits(maxSupply, PeriodOf(s, months, t))
    ensures Elapsed(s, months, t) == PeriodDays(s, months, PeriodOf(s, months, t)) - 1
  {
    hide DayNumber, AddMonths;
    var p := PeriodOf(s, months, t);
    DayAfter(s, t);
    ElapsedInPeriod(s, months, t);
    OrderAgrees(NextDay(t), PeriodStart(s, months, p + 1));
    CeilingAtBoundary(s, months, maxSupply, p + 1);
  }

  lemma NextDayInside(s: Date, months: nat, t: Date)
    requires s.Valid() && t.Valid() && AtMost(s, t) && months > 0
    requires var p := PeriodOf(s, months, t);
             DayNumber(t) + 1 - DayNumber(PeriodStart(s, months, p)) < Span(s, months, p)
    ensures NextDay(t).Valid() && AtMost(s, NextDay(t))
    ensures PeriodOf(s, months, NextDay(t)) == PeriodOf(s, months, t)
    ensures Elapsed(s, months, NextDay(t)) == Min(Elapsed(s, months, t) + 1, MAX_DURATION_DAYS)
  {
    hide DayNumber, AddMonths;
    var p, u := PeriodOf(s, months, t), NextDay(t);
    DayAfter(s, t);
    ElapsedInPeriod(s, months, t);
    OrderAgrees(u, PeriodStart(s, months, p));
    OrderAgrees(u, PeriodStart(s, months, p + 1));
    PeriodsTile(s, months, u, p);
    ElapsedInPeriod(s, months, u);
  }

  lemma DatesInRange(t: Date)
    requires t.Valid()
    ensures LAST_DAY.Valid()
    ensures t.year <= 9999 <==> AtMost(t, LAST_DAY)
    ensures t.year <= 9999 <==> DayNumber(t) <= DayNumber(LAST_DAY)
  {
    hide DayNumber;
    OrderAgrees(LAST_DAY, t);
  }

  // The 64-bit ceiling

  /** The most days that can have elapsed in the first period on a date the program accepts;
      negative when the start is past them all. */
  function LongestElapsed(s: Date, months: nat): int
    requires s.Valid() && months > 0
  {
    Min(PeriodDays(s, months, 1) - 1, DayNumber(LAST_DAY) - DayNumber(s))
  }

  /** The condition under which no date's product wraps; it looks at the first period only. */
  predicate NoWrap(s: Date, months: nat, maxSupply: uint64)
    requires s.Valid() && months > 0
  {
    HalvingPeriodLimit(maxSupply, 1) * LongestElapsed(s, months) < TWO_64
  }

  /** Later periods release at most half as much per period and last less than twice as
      long, so no product on an accepted date exceeds the largest of the first period. */
  lemma FirstPeriodDominates(s: Date, months: nat, maxSupply: uint64, t: Date)
    requires s.Valid() && t.Valid() && AtMost(s, t) && AtMost(t, LAST_DAY) && months > 0
    ensures Product(s, months, maxSupply, t) <= HalvingPeriodLimit(maxSupply, 1) * LongestElapsed(s, months)
  {
    hide DayNumber, AddMonths, HalvingPeriodLimit, Before, DaysIn;
    var p := PeriodOf(s, months, t);
    var d1 := PeriodDays(s, months, 1) - 1;
    FirstPeriodStart(s, months);
    ElapsedInPeriod(s, months, t);
    DatesInRange(t);
    if p == 1 {
      MulOrder(HalvingPeriodLimit(maxSupply, 1), Elapsed(s, months, t), LongestElapsed(s, months));
    } else {
      LaterPeriodStarts(s, months, p);
      LimitFallsFromFirst(maxSupply, p);
      assert Span(s, months, p) - 1 <= 2 * (Span(s, months, 1) - 1);
      DoubledProduct(HalvingPeriodLimit(maxSupply, p), Elapsed(s, months, t), HalvingPeriodLimit(maxSupply, 1), d1);
    }
  }

  lemma LaterPeriodStarts(s: Date, months: nat, period: nat)
    requires s.Valid() && months > 0 && period >= 2
    ensures DayNumber(PeriodStart(s, months, period)) >= DayNumber(PeriodStart(s, months, 1)) + Span(s, months, 1)
  {
    hide DayNumber, AddMonths;
    if period > 2 {
      MulOrder(months, 1, period - 1);
      assert (period - 1) * months > (2 - 1) * months;
      AddMonthsIncreases(s, (2 - 1) * months, (period - 1) * months);
      OrderAgrees(PeriodStart(s, months, 2), PeriodStart(s, months, period));
    }
  }

  lemma DoubledProduct(limit: nat, e: nat, first: nat, d: nat)
    requires 2 * limit <= first && e <= 2 * d
    ensures limit * e <= first * d
  {
  }

  function AddDays(t: Date, n: nat): (d: Date)
    requires t.Valid()
    ensures d.Valid() && DayNumber(d) == DayNumber(t) + n
  {
    if n == 0 then t
    else
      var u := AddDays(t, n - 1);
      DayNumberCountsDays(u);
      NextDay(u)
  }

  /** When the condition fails, the first period has two successive accepted days on which
      the 64-bit ceiling goes down. */
  lemma WrapDropsCeiling(s: Date, months: nat, maxSupply: uint64) returns (t: Date)
    requires s.Valid() && 0 < months <= MAX_PERIOD_MONTHS && !NoWrap(s, months, maxSupply)
    ensures t.Valid() && AtMost(s, t) && NextDay(t).Valid() && AtMost(t, NextDay(t))
    ensures AtMost(s, NextDay(t)) && AtMost(NextDay(t), LAST_DAY)
    ensures Ceiling64(s, months, maxSupply, NextDay(t)) < Ceiling64(s, months, maxSupply, t)
  {
    hide DayNumber, AddMonths, NextDay, Before, DaysIn;
    FirstLimit(maxSupply);
    MulOrder(HalvingPeriodLimit(maxSupply, 1), LongestElapsed(s, months), 0);
    var n := FirstWrap(HalvingPeriodLimit(maxSupply, 1), LongestElapsed(s, months) + 1);
    t := AddDays(s, n - 1);
    FirstPeriodDay(s, months, maxSupply, t, n - 1);
    DayAfter(s, t);
    FirstPeriodDay(s, months, maxSupply, NextDay(t), n);
    DatesInRange(NextDay(t));
    WrapDip(HalvingPeriodLimit(maxSupply, 1), n, PeriodDays(s, months, 1));
  }

  lemma FirstLimit(maxSupply: uint64)
    ensures HalvingPeriodLimit(maxSupply, 1) == maxSupply / 2 < TWO_63
  {
    assert Pow2(0) == 1;
  }

  lemma WrapDip(limit: uint64, n: nat, days: nat)
    requires n >= 1 && limit < TWO_63 && 0 < days <= TWO_63
    requires limit * (n - 1) < TWO_64 <= limit * n
    ensures Wrap64(limit * n) / days < Wrap64(limit * (n - 1)) / days
  {
    assert limit * n == limit * (n - 1) + limit;
    WrapDrops(limit * n);
    MulOrder(limit, 0, n - 1);
    WrapDrops(limit * (n - 1));
    QuotientDrops(Wrap64(limit * n), Wrap64(limit * (n - 1)), days);
  }

  /** The least number of days whose product leaves 64 bits. */
  lemma FirstWrap(limit: uint64, days: nat) returns (n: nat)
    requires days > 0 && limit < TWO_63 && limit * (days - 1) >= TWO_64
    ensures 1 <= n < days && limit * (n - 1) < TWO_64 <= limit * n
  {
    n := days - 1;
    while limit * (n - 1) >= TWO_64
      invariant 1 <= n < days && limit * n >= TWO_64
    {
      n := n - 1;
    }
  }

  lemma FirstPeriodDay(s: Date, months: nat, maxSupply: uint64, t: Date, e: nat)
    requires s.Valid() && t.Valid() && months > 0
    requires DayNumber(t) == DayNumber(s) + e && e < PeriodDays(s, months, 1)
    ensures AtMost(s, t) && PeriodOf(s, months, t) == 1
    ensures Product(s, months, maxSupply, t) == HalvingPeriodLimit(maxSupply, 1) * e
    ensures Ceiling64(s, months, maxSupply, t)
            == Wrap64(HalvingPeriodLimit(maxSupply, 1) * e) / PeriodDays(s, months, 1)
  {
    hide DayNumber, AddMonths;
    AddMonthsIsEuclidean(s, 0);
    DayNumberByMonth(s);
    BeforeByMonth(PeriodStart(s, months, 1), s);
    BeforeByMonth(s, PeriodStart(s, months, 1));
    OrderAgrees(t, s);
    OrderAgrees(t, PeriodStart(s, months, 1));
    OrderAgrees(t, PeriodStart(s, months, 2));
    PeriodsTile(s, months, t, 1);
  }

  /** On the dates the program accepts, the 64-bit ceiling is the integer schedule, and it
      never decreases, if and only if the first period's largest product fits in 64 bits. */
  lemma NoWrapIsExact(s: Date, months: nat, maxSupply: uint64)
    requires s.Valid() && 0 < months <= MAX_PERIOD_MONTHS
    ensures NoWrap(s, months, maxSupply) <==>
            (forall t: Date | t.Valid() && AtMost(s, t) && AtMost(t, LAST_DAY) ::
               Ceiling64(s, months, maxSupply, t) == Ceiling(s, months, maxSupply, t))
    ensures NoWrap(s, months, maxSupply) <==>
            (forall t: Date, u: Date
               | t.Valid() && u.Valid() && AtMost(s, t) && AtMost(t, u) && AtMost(s, u) && AtMost(u, LAST_DAY) ::
               Ceiling64(s, months, maxSupply, t) <= Ceiling64(s, months, maxSupply, u))
  {
    hide DayNumber, AddMonths, NoWrap, NextDay, DaysIn, Ceiling, Ceiling64;
    if NoWrap(s, months, maxSupply) {
      forall t: Date | t.Valid() && AtMost(s, t) && AtMost(t, LAST_DAY)
        ensures Ceiling64(s, months, maxSupply, t) == Ceiling(s, months, maxSupply, t)
      {
        ExactWithoutWrap(s, months, maxSupply, t);
      }
      forall t: Date, u: Date
        | t.Valid() && u.Valid() && AtMost(s, t) && AtMost(t, u) && AtMost(s, u) && AtMost(u, LAST_DAY)
        ensures Ceiling64(s, months, maxSupply, t) <= Ceiling64(s, months, maxSupply, u)
      {
        Later(t, u, LAST_DAY);
        CeilingIsMonotone(s, months, maxSupply, t, u);
      }
    } else {
      var t := WrapDropsCeiling(s, months, maxSupply);
      Later(t, NextDay(t), LAST_DAY);
      CeilingIsMonotone(s, months, maxSupply, t, NextDay(t));
    }
  }

  lemma ExactWithoutWrap(s: Date, months: nat, maxSupply: uint64, t: Date)
    requires s.Valid() && t.Valid() && AtMost(s, t) && AtMost(t, LAST_DAY) && months > 0
    requires NoWrap(s, months, maxSupply)
    ensures Ceiling64(s, months, maxSupply, t) == Ceiling(s, months, maxSupply, t)
  {
    hide DayNumber, AddMonths, Product, LongestElapsed, Ceiling, Ceiling64, Before, DaysIn;
    FirstPeriodDominates(s, months, maxSupply, t);
    WrappingOnlyLowers(s, months, maxSupply, t);
  }

  lemma Later(a: Date, b: Date, c: Date)
    requires AtMost(a, b) && AtMost(b, c)
    ensures AtMost(a, c)
  {
  }

  lemma FirstYear(s: Date)
    requires s.Valid()
    ensures 365 <= PeriodDays(s, DEFAULT_MONTHS, 1) <= 366
  {
    hide AddMonths, DayNumber;
    SpanOfYear(s, 0);
    assert PeriodStart(s, DEFAULT_MONTHS, 2) == AddMonths(s, 12);
    assert PeriodStart(s, DEFAULT_MONTHS, 1) == AddMonths(s, 0);
  }

  /** The default supply with twelve-month periods never wraps, from any start date. */
  lemma DefaultsNeverWrap(s: Date)
    requires s.Valid()
    ensures NoWrap(s, DEFAULT_MONTHS, DEFAULT_MAX_SUPPLY)
  {
    hide DayNumber, PeriodDays;
    FirstYear(s);
    FirstLimit(DEFAULT_MAX_SUPPLY);
    MulOrder(HalvingPeriodLimit(DEFAULT_MAX_SUPPLY, 1), LongestElapsed(s, DEFAULT_MONTHS), 365);
  }

  const LARGEST_SUPPLY: uint64 := 0xFFFF_FFFF_FFFF_FFFF

  /** Parameters that do wrap: the largest supply with twelve-month periods, from every start
      that leaves three more accepted days and from no later one. */
  lemma LargestSupplyWraps(s: Date)
    requires s.Valid()
    ensures !NoWrap(s, DEFAULT_MONTHS, LARGEST_SUPPLY) <==> DayNumber(s) + 3 <= DayNumber(LAST_DAY)
  {
    hide DayNumber, PeriodDays, HalvingPeriodLimit;
    FirstYear(s);
    FirstLimit(LARGEST_SUPPLY);
    var limit := HalvingPeriodLimit(LARGEST_SUPPLY, 1);
    assert limit == 0x7FFF_FFFF_FFFF_FFFF;
    MulOrder(limit, 3, LongestElapsed(s, DEFAULT_MONTHS));
    MulOrder(limit, LongestElapsed(s, DEFAULT_MONTHS), 2);
  }
}
