/** What one day adds to the ceiling, measured against the true length of the period.
    `time.Duration` saturates at 106751 days. In a longer period the program therefore
    divides by 106752 instead of the period's days, so the release runs ahead of the daily
    average, and it stops when 106751 days have elapsed, until the period ends. */
module DailyRelease {
  import opened Machine
  import opened Arithmetic
  import opened Calendar
  import opened Months
  import opened Halving
  import opened Schedule
  import opened ScheduleProperties

  /** The longest period whose days a `time.Duration` can count. */
  const MEASURABLE_DAYS: nat := MAX_DURATION_DAYS + 1

  // One day, by its place in the period

  /** The whole days of the period before `t`, true and not saturated. */
  function DayOfPeriod(s: Date, months: nat, t: Date): (e: nat)
    requires s.Valid() && t.Valid() && AtMost(s, t) && months > 0
    ensures e < Span(s, months, PeriodOf(s, months, t))
  {
    ElapsedWithinPeriod(s, months, t);
    OrderAgrees(t, PeriodStart(s, months, PeriodOf(s, months, t)));
    DayNumber(t) - DayNumber(PeriodStart(s, months, PeriodOf(s, months, t)))
  }

  /** What the part of the period released before day `e` comes to. */
  function Released(limit: nat, span: nat, e: nat): nat
    requires span > 0
  {
    if e >= span then limit else Share(limit, Min(e, MAX_DURATION_DAYS), Min(span, MEASURABLE_DAYS))
  }

  function Step(limit: nat, span: nat, e: nat): int
    requires span > 0
  {
    Released(limit, span, e + 1) - Released(limit, span, e)
  }

  /** What the ceiling gains from `t` to the day after, across a boundary too. */
  function CeilingGain(s: Date, months: nat, maxSupply: uint64, t: Date): int
    requires s.Valid() && t.Valid() && AtMost(s, t) && months > 0
  {
    DayAfter(s, t);
    Ceiling(s, months, maxSupply, NextDay(t)) - Ceiling(s, months, maxSupply, t)
  }

  lemma GainIsStep(s: Date, months: nat, maxSupply: uint64, t: Date)
    requires s.Valid() && t.Valid() && AtMost(s, t) && months > 0
    ensures var p := PeriodOf(s, months, t);
            CeilingGain(s, months, maxSupply, t)
            == Step(HalvingPeriodLimit(maxSupply, p), Span(s, months, p), DayOfPeriod(s, months, t))
  {
    hide DayNumber, AddMonths, Share;
    var p := PeriodOf(s, months, t);
    DayAfter(s, t);
    ElapsedInPeriod(s, months, t);
    if DayOfPeriod(s, months, t) + 1 == Span(s, months, p) {
      NextDayAcross(s, months, maxSupply, t);
    } else {
      NextDayInside(s, months, t);
    }
  }

  /** Every place in a period is the place of a date. */
  lemma DateAt(s: Date, months: nat, period: nat, e: nat) returns (t: Date)
    requires s.Valid() && months > 0 && period >= 1 && e < Span(s, months, period)
    ensures t.Valid() && AtMost(s, t) && PeriodOf(s, months, t) == period
    ensures DayOfPeriod(s, months, t) == e
  {
    hide DayNumber, AddMonths;
    var start := PeriodStart(s, months, period);
    t := AddDays(start, e);
    MulNonnegative(period - 1, months);
    BoundaryIsNotBefore(s, (period - 1) * months);
    OrderAgrees(start, s);
    OrderAgrees(t, s);
    OrderAgrees(t, start);
    OrderAgrees(t, PeriodStart(s, months, period + 1));
    PeriodsTile(s, months, t, period);
  }

  /** In a measurable period the ceiling is the true proportion of the period's days. */
  lemma MeasurableIsProportional(s: Date, months: nat, maxSupply: uint64, t: Date)
    requires s.Valid() && t.Valid() && AtMost(s, t) && months > 0
    requires Span(s, months, PeriodOf(s, months, t)) <= MEASURABLE_DAYS
    ensures var p := PeriodOf(s, months, t);
            Ceiling(s, months, maxSupply, t)
            == SumOfLimits(maxSupply, p - 1)
               + Share(HalvingPeriodLimit(maxSupply, p), DayOfPeriod(s, months, t), Span(s, months, p))
  {
    hide DayNumber, AddMonths, Share;
    ElapsedInPeriod(s, months, t);
  }

  // The daily average

  predicate WithinAverage(limit: nat, days: nat, step: int)
    requires days > 0
  {
    limit / days <= step <= (limit + days - 1) / days
  }

  /** Whether the day is past what a `time.Duration` can measure inside a period longer
      than 106752 days; the pro-rated amount then waits for the period to end. */
  predicate Stalled(s: Date, months: nat, t: Date)
    requires s.Valid() && t.Valid() && AtMost(s, t) && months > 0
  {
    var e := DayOfPeriod(s, months, t);
    e >= MAX_DURATION_DAYS && e + 1 < Span(s, months, PeriodOf(s, months, t))
  }

  lemma StepBounds(limit: nat, span: nat, e: nat)
    requires span > 0 && e < span
    ensures if e >= MAX_DURATION_DAYS && e + 1 < span then Step(limit, span, e) == 0
            else WithinAverage(limit, Min(span, MEASURABLE_DAYS), Step(limit, span, e))
  {
    hide Share;
    var days := Min(span, MEASURABLE_DAYS);
    ShareStep(limit, Min(e, MAX_DURATION_DAYS), days);
    ShareOfAll(limit, days);
  }

  lemma AverageShape(limit: nat, days: nat)
    requires days > 0
    ensures 0 <= limit / days <= (limit + days - 1) / days
    ensures limit / days == 0 <==> limit < days
    ensures (limit + days - 1) / days <= 1 <==> limit <= days
    ensures (limit + days - 1) / days >= 1 <==> limit >= 1
  {
    DivMonotone(limit, limit + days - 1, days);
    DivShrinks(limit, days);
    AtLeast(limit, days, 1);
    AtLeast(limit + days - 1, days, 1);
    AtLeast(limit + days - 1, days, 2);
  }

  lemma AtLeast(n: nat, d: nat, q: nat)
    requires d > 0
    ensures n / d >= q <==> n >= q * d
  {
    DivMod(n, d);
    MulOrder(d, q, n / d);
    MulOrder(d, n / d, q);
  }

  lemma LongerAverage(limit: nat, days: nat, longer: nat)
    requires 0 < days <= longer
    ensures limit / longer <= limit / days
  {
    DivMod(limit, longer);
    DivShrinks(limit, longer);
    MulOrder(limit / longer, days, longer);
    AtLeast(limit, days, limit / longer);
  }

  /** What one day adds, the step across a period boundary included: the limit over the days
      the program counts, rounded down or up, and nothing on a stalled day. Against the days
      the period has, a day falls short exactly when it is stalled and the period releases
      at least one unit a day; it exceeds the average only in a period that is too long to
      measure and releases more than one unit per measurable day. */
  lemma CeilingStep(s: Date, months: nat, maxSupply: uint64, t: Date)
    requires s.Valid() && t.Valid() && AtMost(s, t) && months > 0
    ensures var p := PeriodOf(s, months, t);
            var limit, span := HalvingPeriodLimit(maxSupply, p), Span(s, months, p);
            var gain := CeilingGain(s, months, maxSupply, t);
            && (if Stalled(s, months, t) then gain == 0
                else WithinAverage(limit, Min(span, MEASURABLE_DAYS), gain))
            && (gain < limit / span <==> Stalled(s, months, t) && limit >= span)
            && (gain > (limit + span - 1) / span ==> span > MEASURABLE_DAYS && limit > MEASURABLE_DAYS)
  {
    hide DayNumber, AddMonths, PeriodOf, Span, CeilingGain, Step, HalvingPeriodLimit, DaysIn, Before;
    var p := PeriodOf(s, months, t);
    var limit, span := HalvingPeriodLimit(maxSupply, p), Span(s, months, p);
    GainIsStep(s, months, maxSupply, t);
    StepBounds(limit, span, DayOfPeriod(s, months, t));
    LongerAverage(limit, Min(span, MEASURABLE_DAYS), span);
    AverageShape(limit, span);
    AverageShape(limit, Min(span, MEASURABLE_DAYS));
  }

  // Whole periods

  /** The condition under which the first `reach` days of a period keep its daily average.
      A measurable period always does. In a longer one the released total must not have run
      ahead of the average rounded up, the days on which the release stops must owe nothing,
      and the last day must not bring more than one unit. */
  predicate AverageKept(limit: nat, span: nat, reach: nat)
    requires 0 < span
  {
    span <= MEASURABLE_DAYS
    || (var n := Min(reach, MAX_DURATION_DAYS);
        && Share(limit, n, MEASURABLE_DAYS) <= n * ((limit + span - 1) / span)
        && (reach > MAX_DURATION_DAYS ==> limit < span)
        && (reach >= span ==> limit <= MEASURABLE_DAYS))
  }

  lemma ShareAtLeast(limit: nat, n: nat, days: nat, each: nat)
    requires days > 0 && each <= limit / days
    ensures n * each <= Share(limit, n, days)
  {
    AtLeast(limit, days, each);
    MulOrder(n, each * days, limit);
    assert n * each * days == n * (each * days);
    assert limit * n == n * limit;
    MulNonnegative(limit, n);
    MulNonnegative(n, each);
    AtLeast(limit * n, days, n * each);
  }

  lemma EarlyStep(limit: nat, span: nat, e: nat)
    requires span > MEASURABLE_DAYS && e < MAX_DURATION_DAYS
    ensures Step(limit, span, e) == Share(limit, e + 1, MEASURABLE_DAYS) - Share(limit, e, MEASURABLE_DAYS)
    ensures WithinAverage(limit, MEASURABLE_DAYS, Step(limit, span, e))
  {
    hide Share;
    StepBounds(limit, span, e);
  }

  /** As long as no day is stalled, every day adds at most `most` if and only if the days
      together add at most `most` each. */
  lemma {:induction false} RunningTotal(limit: nat, span: nat, n: nat, most: nat)
    requires span > MEASURABLE_DAYS && n <= MAX_DURATION_DAYS
    ensures (forall e :: 0 <= e < n ==> Step(limit, span, e) <= most)
            <==> Share(limit, n, MEASURABLE_DAYS) <= n * most
  {
    hide Share, Step;
    if n == 0 {
      ShareOfNone(limit, MEASURABLE_DAYS);
    } else {
      RunningTotal(limit, span, n - 1, most);
      EarlyStep(limit, span, n - 1);
      assert n * most == (n - 1) * most + most;
      var low := limit / MEASURABLE_DAYS;
      if most <= low {
        ShareAtLeast(limit, n - 1, MEASURABLE_DAYS, most);
      } else {
        forall e | 0 <= e < n ensures Step(limit, span, e) <= most {
          EarlyStep(limit, span, e);
          RoundedUp(limit, MEASURABLE_DAYS);
        }
      }
    }
  }

  lemma RoundedUp(limit: nat, days: nat)
    requires days > 0
    ensures (limit + days - 1) / days <= limit / days + 1
  {
    DivMod(limit, days);
    SumOfQuotients(limit + days - 1, limit / days, 0, limit % days + days - 1, days);
  }

  /** The last day brings what is left: the average over the measurable days, rounded up. */
  lemma LastShare(limit: nat, days: nat)
    requires days > 0
    ensures limit - Share(limit, days - 1, days) == (limit + days - 1) / days
  {
    var c := (limit + days - 1) / days;
    DivMod(limit + days - 1, days);
    assert limit * (days - 1) == limit * days - limit;
    assert (limit - c) * days == limit * days - c * days;
    DivUnique(limit * (days - 1), days, limit - c);
  }

  lemma LongStep(limit: nat, span: nat, e: nat)
    requires span > MEASURABLE_DAYS && e < span
    ensures e < MAX_DURATION_DAYS ==>
              (WithinAverage(limit, span, Step(limit, span, e)) <==> Step(limit, span, e) <= (limit + span - 1) / span)
    ensures MAX_DURATION_DAYS <= e && e + 1 < span ==>
              (WithinAverage(limit, span, Step(limit, span, e)) <==> limit < span)
    ensures e + 1 == span && limit < span ==>
              (WithinAverage(limit, span, Step(limit, span, e)) <==> limit <= MEASURABLE_DAYS)
  {
    AverageShape(limit, span);
    AverageShape(limit, MEASURABLE_DAYS);
    StepBounds(limit, span, e);
    LongerAverage(limit, MEASURABLE_DAYS, span);
    LastShare(limit, MEASURABLE_DAYS);
    hide Share;
  }

  lemma StepsKeepAverageIff(limit: nat, span: nat, reach: nat)
    requires 0 < span
    ensures AverageKept(limit, span, reach)
            <==> forall e :: 0 <= e < reach && e < span ==> WithinAverage(limit, span, Step(limit, span, e))
  {
    hide Share, Step;
    if span <= MEASURABLE_DAYS {
      forall e | 0 <= e < reach && e < span ensures WithinAverage(limit, span, Step(limit, span, e)) {
        StepBounds(limit, span, e);
      }
    } else {
      hide WithinAverage;
      RunningTotal(limit, span, Min(reach, MAX_DURATION_DAYS), (limit + span - 1) / span);
      forall e | 0 <= e < span
        ensures e < MAX_DURATION_DAYS ==>
                  (WithinAverage(limit, span, Step(limit, span, e))
                   <==> Step(limit, span, e) <= (limit + span - 1) / span)
        ensures MAX_DURATION_DAYS <= e && e + 1 < span ==>
                  (WithinAverage(limit, span, Step(limit, span, e)) <==> limit < span)
        ensures e + 1 == span && limit < span ==>
                  (WithinAverage(limit, span, Step(limit, span, e)) <==> limit <= MEASURABLE_DAYS)
      {
        LongStep(limit, span, e);
      }
      LongStep(limit, span, MAX_DURATION_DAYS);
      LongStep(limit, span, span - 1);
    }
  }

  lemma WholePeriodKept(limit: nat, span: nat)
    requires 0 < span
    ensures AverageKept(limit, span, span) <==> span <= MEASURABLE_DAYS || limit <= MEASURABLE_DAYS
  {
    hide Share;
    if MEASURABLE_DAYS < span {
      LastShare(limit, MEASURABLE_DAYS);
      AverageShape(limit, MEASURABLE_DAYS);
      AverageShape(limit, span);
      MulOrder(MAX_DURATION_DAYS, 1, (limit + span - 1) / span);
    }
  }

  /** Whether the day adds the limit of its period over the days the period has, rounded
      down or up. */
  predicate KeepsAverage(s: Date, months: nat, maxSupply: uint64, t: Date)
    requires s.Valid() && t.Valid() && AtMost(s, t) && months > 0
  {
    var p := PeriodOf(s, months, t);
    WithinAverage(HalvingPeriodLimit(maxSupply, p), Span(s, months, p), CeilingGain(s, months, maxSupply, t))
  }

  lemma DaysKeepAverageIff(s: Date, months: nat, maxSupply: uint64, period: nat, reach: nat)
    requires s.Valid() && months > 0 && period >= 1
    ensures (forall t: Date | t.Valid() && AtMost(s, t) && PeriodOf(s, months, t) == period
                              && DayOfPeriod(s, months, t) < reach
               :: KeepsAverage(s, months, maxSupply, t))
            <==> AverageKept(HalvingPeriodLimit(maxSupply, period), Span(s, months, period), reach)
  {
    hide DayOfPeriod, PeriodOf, Span, CeilingGain, Step, WithinAverage, AverageKept, HalvingPeriodLimit, DaysIn, Before;
    var limit, span := HalvingPeriodLimit(maxSupply, period), Span(s, months, period);
    StepsKeepAverageIff(limit, span, reach);
    forall t: Date | t.Valid() && AtMost(s, t) && PeriodOf(s, months, t) == period
      ensures KeepsAverage(s, months, maxSupply, t)
              <==> WithinAverage(limit, span, Step(limit, span, DayOfPeriod(s, months, t)))
    {
      GainIsStep(s, months, maxSupply, t);
    }
    if e :| 0 <= e < reach && e < span && !WithinAverage(limit, span, Step(limit, span, e)) {
      var t := DateAt(s, months, period, e);
      assert !KeepsAverage(s, months, maxSupply, t);
    }
  }

  /** The days from the start of the period to the last date the program accepts. */
  function Reach(s: Date, months: nat, period: nat): nat
    requires s.Valid()
  {
    var days := DayNumber(LAST_DAY) - DayNumber(PeriodStart(s, months, period));
    if days < 0 then 0 else days
  }

  /** Every day of a period adds its daily average, rounded down or up, if and only if the
      period is measurable or releases at most one unit per measurable day. Where the
      program stops accepting dates inside the period, the days it accepts keep the average
      if and only if the condition holds of as many days. */
  lemma AverageKeptIff(s: Date, months: nat, maxSupply: uint64, period: nat)
    requires s.Valid() && months > 0 && period >= 1
    ensures (forall t: Date | t.Valid() && AtMost(s, t) && PeriodOf(s, months, t) == period
               :: KeepsAverage(s, months, maxSupply, t))
            <==> Span(s, months, period) <= MEASURABLE_DAYS
                 || HalvingPeriodLimit(maxSupply, period) <= MEASURABLE_DAYS
    ensures (forall t: Date | t.Valid() && AtMost(s, t) && PeriodOf(s, months, t) == period
                              && AtMost(NextDay(t), LAST_DAY)
               :: KeepsAverage(s, months, maxSupply, t))
            <==> AverageKept(HalvingPeriodLimit(maxSupply, period), Span(s, months, period), Reach(s, months, period))
  {
    hide PeriodOf, Span, KeepsAverage, AverageKept, HalvingPeriodLimit, DaysIn, Before, NextDay, DayNumber;
    var limit, span, reach := HalvingPeriodLimit(maxSupply, period), Span(s, months, period), Reach(s, months, period);
    WholePeriodKept(limit, span);
    DaysKeepAverageIff(s, months, maxSupply, period, span);
    DaysKeepAverageIff(s, months, maxSupply, period, reach);
    forall t: Date | t.Valid() && AtMost(s, t) && PeriodOf(s, months, t) == period
      ensures AtMost(NextDay(t), LAST_DAY) <==> DayOfPeriod(s, months, t) < reach
    {
      DayAfter(s, t);
      DatesInRange(NextDay(t));
    }
  }

  /** A period has a stalled day if and only if it is longer than a `time.Duration` can
      measure, and one on a date the program accepts if and only if, besides, the 106752nd
      day of the period comes by the end of year 9999. */
  lemma PeriodStallsIff(s: Date, months: nat, period: nat)
    requires s.Valid() && months > 0 && period >= 1
    ensures (exists t: Date :: t.Valid() && AtMost(s, t) && PeriodOf(s, months, t) == period && Stalled(s, months, t))
            <==> Span(s, months, period) > MEASURABLE_DAYS
    ensures (exists t: Date :: t.Valid() && AtMost(s, t) && AtMost(t, LAST_DAY)
                               && PeriodOf(s, months, t) == period && Stalled(s, months, t))
            <==> Span(s, months, period) > MEASURABLE_DAYS
                 && DayNumber(PeriodStart(s, months, period)) + MAX_DURATION_DAYS <= DayNumber(LAST_DAY)
  {
    hide DayNumber, AddMonths, PeriodOf, Before, DaysIn, Span;
    DatesInRange(s);
    if Span(s, months, period) > MEASURABLE_DAYS {
      var t := DateAt(s, months, period, MAX_DURATION_DAYS);
      DatesInRange(t);
      assert Stalled(s, months, t);
    }
    forall t: Date | t.Valid() && AtMost(s, t) && AtMost(t, LAST_DAY)
      ensures DayNumber(t) <= DayNumber(LAST_DAY)
    {
      DatesInRange(t);
    }
  }

  /** The average can be missed on a day that is not stalled and with nothing wrapped: a
      limit of 10^9 over the 146097 days of 400 years averages 6844 or 6845 units a day, and
      the first day releases 9367. */
  lemma LongPeriodRunsAhead(s: Date, months: nat, maxSupply: uint64)
    requires s.Valid() && months > 0 && Span(s, months, 1) == 146_097 && maxSupply == 2_000_000_000
    ensures NextDay(s).Valid() && AtMost(s, NextDay(s))
    ensures PeriodOf(s, months, s) == 1 && !Stalled(s, months, s) && NoWrap(s, months, maxSupply)
    ensures Ceiling64(s, months, maxSupply, NextDay(s)) - Ceiling64(s, months, maxSupply, s) == 9367
    ensures !WithinAverage(HalvingPeriodLimit(maxSupply, 1), Span(s, months, 1), 9367)
  {
    hide AddMonths, DayNumber, NextDay, PeriodOf, HalvingPeriodLimit, DaysIn, Span, Ceiling64, PeriodStart, Product;
    FirstPeriodStart(s, months);
    FirstLimit(maxSupply);
    DayAfter(s, s);
    FirstPeriodDay(s, months, maxSupply, s, 0);
    FirstPeriodDay(s, months, maxSupply, NextDay(s), 1);
    MulOrder(HalvingPeriodLimit(maxSupply, 1), LongestElapsed(s, months), MAX_DURATION_DAYS);
  }

  /** Such a period: 4800 months from the first day of the year 2000. */
  lemma FourCenturies(s: Date, months: nat)
    requires s == Date(2000, 1, 1) && months == 4800
    ensures s.Valid() && Span(s, months, 1) == 146_097
  {
    hide AddMonths, DayNumber;
    FirstPeriodStart(s, months);
    AddMonthsIsEuclidean(s, (2 - 1) * months);
    BeforeByMonth(PeriodStart(s, months, 2), Date(2400, 1, 1));
    assert PeriodStart(s, months, 2) == Date(2400, 1, 1);
    NewYear(2000);
    NewYear(2400);
    assert YearStart(2000) == 730_485 && YearStart(2400) == 876_582;
  }

  lemma NewYear(year: int)
    ensures Date(year, 1, 1).Valid() && DayNumber(Date(year, 1, 1)) == YearStart(year)
  {
  }
}
