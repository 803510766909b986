/** The date-dependent ceiling on the supply. `Ceiling64` is what the program computes, in
    wrapping `uint64` arithmetic over Go dates; `Ceiling` is the same schedule over unbounded
    integers. Both count days as `time.Duration` does, up to 106751. */
module Schedule {
  import opened Machine
  import opened Arithmetic
  import opened Calendar
  import opened Months
  import opened Halving

  /** The days of longer periods overflow Go's `time.Date`. */
  const MAX_PERIOD_MONTHS: int := 0x100_0000_0000

  /** `time.Duration` saturates at 2^63 - 1 nanoseconds, 106751 whole days. */
  const MAX_DURATION_DAYS: int := 106751

  /** The last date the layout "2006-01-02" can write and read back. */
  const LAST_DAY: Date := Date(9999, 12, 31)

  /** `uint64(to.Sub(from).Hours() / 24)`, on dates in order. */
  function DaysBetween(from: Date, to: Date): nat
    requires from.Valid() && to.Valid() && AtMost(from, to)
  {
    OrderAgrees(to, from);
    Min(DayNumber(to) - DayNumber(from), MAX_DURATION_DAYS)
  }

  /** Go's conversion from `uint64` to `int`. */
  function ToInt(x: uint64): (r: int)
    ensures -TWO_63 <= r < TWO_63 && (x - r) % TWO_64 == 0
  {
    if x < TWO_63 then x else x - TWO_64
  }

  // The half-open periods

  function PeriodStart(s: Date, months: nat, period: int): (d: Date)
    requires s.Valid()
    ensures d.Valid()
  {
    AddMonthsIsEuclidean(s, (period - 1) * months);
    AddMonths(s, (period - 1) * months)
  }

  lemma FirstPeriodStart(s: Date, months: nat)
    requires s.Valid()
    ensures PeriodStart(s, months, 1) == s
  {
    hide AddMonths;
    AddMonthsIsEuclidean(s, 0);
    DayNumberByMonth(s);
    BeforeByMonth(PeriodStart(s, months, 1), s);
  }

  lemma BoundaryIsNotBefore(s: Date, n: nat)
    requires s.Valid()
    ensures AddMonths(s, n).Valid() && AtMost(s, AddMonths(s, n))
  {
  }

  predicate InPeriod(s: Date, months: nat, period: int, t: Date)
    requires s.Valid()
  {
    AtMost(PeriodStart(s, months, period), t) && Before(t, PeriodStart(s, months, period + 1))
  }

  /** `1 + uint64(monthsBetween(s, t)) / months`. */
  function PeriodOf(s: Date, months: nat, t: Date): (period: nat)
    requires s.Valid() && t.Valid() && AtMost(s, t) && months > 0
    ensures period >= 1
  {
    MonthsBetweenIsGreatest(s, t, 0);
    DivShrinks(MonthsBetween(s, t), months);
    1 + MonthsBetween(s, t) / months
  }

  /** The true number of days in a period. */
  function Span(s: Date, months: nat, period: int): (days: nat)
    requires s.Valid() && months > 0
    ensures 28 * months <= days <= 31 * months
  {
    assert (period - 1) * months + months == (period + 1 - 1) * months;
    SpanOfMonths(s, (period - 1) * months, months);
    DayNumber(PeriodStart(s, months, period + 1)) - DayNumber(PeriodStart(s, months, period))
  }

  /** `daysInPeriod`, with the saturation of `time.Duration`. */
  function PeriodDays(s: Date, months: nat, period: int): (days: nat)
    requires s.Valid() && months > 0
    ensures 0 < days <= MAX_DURATION_DAYS + 1
  {
    Min(Span(s, months, period) - 1, MAX_DURATION_DAYS) + 1
  }

  /** The periods tile all dates from the start on: the one the program picks holds the
      date, and no other period does. */
  lemma PeriodsTile(s: Date, months: nat, t: Date, period: int)
    requires s.Valid() && t.Valid() && AtMost(s, t) && months > 0
    ensures InPeriod(s, months, period, t) <==> period == PeriodOf(s, months, t)
  {
    MonthsBetweenIsGreatest(s, t, 0);
    MonthsBetweenIsGreatest(s, t, (period - 1) * months);
    MonthsBetweenIsGreatest(s, t, (period + 1 - 1) * months);
    hide MonthsBetween, AddMonths, DaysIn;
    MultipleBelow(MonthsBetween(s, t), months, period);
  }

  lemma MultipleBelow(n: nat, d: nat, period: int)
    requires d > 0
    ensures (period - 1) * d <= n < (period + 1 - 1) * d <==> period == 1 + n / d
  {
    var q := n / d;
    DivMod(n, d);
    MulOrder(d, period - 1, q);
    MulOrder(d, q, period - 1);
    Distribute(d, period - 1, 1);
  }

  /** The elapsed days always fall inside the period, so neither the clamp on them nor the
      guard against an empty period is ever taken. */
  lemma ElapsedWithinPeriod(s: Date, months: nat, t: Date)
    requires s.Valid() && t.Valid() && AtMost(s, t) && months > 0
    ensures var p := PeriodOf(s, months, t);
            && AtMost(PeriodStart(s, months, p), t)
            && DayNumber(t) - DayNumber(PeriodStart(s, months, p)) < Span(s, months, p)
            && 0 <= DaysBetween(PeriodStart(s, months, p), t) < PeriodDays(s, months, p)
  {
    var p := PeriodOf(s, months, t);
    PeriodsTile(s, months, t, p);
    OrderAgrees(t, PeriodStart(s, months, p));
    OrderAgrees(t, PeriodStart(s, months, p + 1));
  }

  function Elapsed(s: Date, months: nat, t: Date): (days: nat)
    requires s.Valid() && t.Valid() && AtMost(s, t) && months > 0
    ensures days < PeriodDays(s, months, PeriodOf(s, months, t))
  {
    ElapsedWithinPeriod(s, months, t);
    DaysBetween(PeriodStart(s, months, PeriodOf(s, months, t)), t)
  }

  // The ceiling

  /** The schedule over unbounded integers: the completed periods in full, the current one
      in proportion to its elapsed days. Both day counts keep the saturation of
      `time.Duration`, so the proportion is the true one in periods of up to 106752 days. */
  function Ceiling(s: Date, months: nat, maxSupply: uint64, t: Date): nat
    requires s.Valid() && t.Valid() && AtMost(s, t) && months > 0
  {
    var p := PeriodOf(s, months, t);
    SumOfLimits(maxSupply, p - 1)
    + Share(HalvingPeriodLimit(maxSupply, p), Elapsed(s, months, t), PeriodDays(s, months, p))
  }

  /** The product the program forms in `uint64`. */
  function Product(s: Date, months: nat, maxSupply: uint64, t: Date): (r: nat)
    requires s.Valid() && t.Valid() && AtMost(s, t) && months > 0
  {
    var limit := HalvingPeriodLimit(maxSupply, PeriodOf(s, months, t));
    MulOrder(limit, 0, Elapsed(s, months, t));
    limit * Elapsed(s, months, t)
  }

  /** The schedule as the program computes it: only the product can wrap. */
  function Ceiling64(s: Date, months: nat, maxSupply: uint64, t: Date): (r: nat)
    requires s.Valid() && t.Valid() && AtMost(s, t) && months > 0
  {
    var p := PeriodOf(s, months, t);
    DivShrinks(Wrap64(Product(s, months, maxSupply, t)), PeriodDays(s, months, p));
    SumOfLimits(maxSupply, p - 1)
    + Wrap64(Product(s, months, maxSupply, t)) / PeriodDays(s, months, p)
  }

  /** Wrapping only ever lowers the ceiling, and it leaves it alone exactly when the
      product fits in 64 bits. */
  lemma WrappingOnlyLowers(s: Date, months: nat, maxSupply: uint64, t: Date)
    requires s.Valid() && t.Valid() && AtMost(s, t) && months > 0
    ensures Ceiling64(s, months, maxSupply, t) <= Ceiling(s, months, maxSupply, t)
    ensures Ceiling64(s, months, maxSupply, t) == Ceiling(s, months, maxSupply, t)
            <==> Product(s, months, maxSupply, t) < TWO_64
  {
    WrappedQuotient(Product(s, months, maxSupply, t), PeriodDays(s, months, PeriodOf(s, months, t)));
  }

  /** The ceiling lies between what the completed periods release and that plus the
      current period's limit. */
  lemma CeilingWithinPeriod(s: Date, months: nat, maxSupply: uint64, t: Date)
    requires s.Valid() && t.Valid() && AtMost(s, t) && months > 0
    ensures var p := PeriodOf(s, months, t);
            SumOfLimits(maxSupply, p - 1) <= Ceiling(s, months, maxSupply, t) <= SumOfLimits(maxSupply, p)
  {
    var p := PeriodOf(s, months, t);
    var limit, days := HalvingPeriodLimit(maxSupply, p), PeriodDays(s, months, p);
    ShareMonotone(limit, Elapsed(s, months, t), days, days);
    ShareOfAll(limit, days);
  }

  /** The ceiling never reaches a positive maximum supply, wrapped or not. */
  lemma CeilingBelowMaxSupply(s: Date, months: nat, maxSupply: uint64, t: Date)
    requires s.Valid() && t.Valid() && AtMost(s, t) && months > 0
    ensures Ceiling64(s, months, maxSupply, t) <= Ceiling(s, months, maxSupply, t) <= maxSupply
    ensures maxSupply > 0 ==> Ceiling(s, months, maxSupply, t) < maxSupply
  {
    WrappingOnlyLowers(s, months, maxSupply, t);
    CeilingWithinPeriod(s, months, maxSupply, t);
    SumOfLimitsBounds(maxSupply, PeriodOf(s, months, t));
  }

  /** The saturation is that of 2^63 - 1 nanoseconds. */
  lemma DurationDays()
    ensures MAX_DURATION_DAYS == 0x7FFF_FFFF_FFFF_FFFF / (24 * 3600 * 1_000_000_000) == 106751
  {
  }

  /** Both ceilings by the calendar alone: in the period that holds the date, the sum of the
      completed periods and `floor(N / 2^p)` pro-rated by the days since the boundary over the
      days between the boundaries. */
  lemma CeilingByCalendar(s: Date, months: nat, maxSupply: uint64, t: Date, p: nat, from: Date, to: Date)
    requires s.Valid() && t.Valid() && AtMost(s, t) && months > 0 && p >= 1
    requires from == AddMonths(s, (p - 1) * months) && to == AddMonths(s, p * months)
    requires AtMost(from, t) && Before(t, to)
    ensures from.Valid() && to.Valid() && DayNumber(from) < DayNumber(to)
    ensures var product := maxSupply / Pow2(p) * Min(DayNumber(t) - DayNumber(from), 106751);
            var days := Min(DayNumber(to) - DayNumber(from), 106752);
            && Ceiling(s, months, maxSupply, t) == SumOfLimits(maxSupply, p - 1) + product / days
            && Ceiling64(s, months, maxSupply, t)
               == SumOfLimits(maxSupply, p - 1) + product % 0x1_0000_0000_0000_0000 / days
  {
    hide DayNumber, AddMonths, HalvingPeriodLimit, Before, DaysIn;
    AddMonthsIsEuclidean(s, (p - 1) * months);
    AddMonthsIsEuclidean(s, p * months);
    assert p + 1 - 1 == p;
    PeriodsTile(s, months, t, p);
    LimitIsPowerDivision(maxSupply, p);
    OrderAgrees(t, from);
    assert Span(s, months, p) >= 28;
  }
}
