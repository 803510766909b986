/** `validateMintingLimits`: the check a mint must pass, computed step by step in wrapping
    `uint64` arithmetic and proved against the schedule. */
module MintingLimits {
  import opened Machine
  import opened Arithmetic
  import opened Calendar
  import opened Months
  import opened Halving
  import opened DateText
  import opened DistroParams
  import opened Schedule

  datatype LimitError =
    | BadStart
    | BadTarget
    | BeforeStart
    | DivideByZero
    | ExceedsLimit(limit: nat)

  /** Whether the schedule has a ceiling for today, or the error the check returns first. */
  function NoCeiling(params: Params, today: Date): Option<LimitError>
    requires today.Valid()
  {
    match ParseDate(params.distributionStartDate)
    case None => Some(BadStart)
    case Some(start) =>
      if !(0 <= today.year <= 9999) then Some(BadTarget)
      else if Before(today, start) then Some(BeforeStart)
      else if params.monthsInHalvingPeriod == 0 then Some(DivideByZero)
      else None
  }

  /** The days the program counts in the first period, by its start and its months, where
      the period is longer than MAX_PERIOD_MONTHS. The overflow inside Go's `time.Date`
      decides that number, and it can be any. */
  type LongPeriods = (Date, uint64) -> uint64

  /** The ceiling in such a period, which no accepted date outlasts: here the clamp and the
      guard against an empty period can be taken. */
  function LongCeiling(days: uint64, maxSupply: uint64, elapsed: nat): nat {
    if days == 0 then 0
    else
      var product := Wrap64(HalvingPeriodLimit(maxSupply, 1) * Min(elapsed, days));
      DivShrinks(product, days);
      product / days
  }

  /** Today's ceiling under the stored parameters. */
  function CeilingOn(long: LongPeriods, params: Params, today: Date): nat
    requires today.Valid() && NoCeiling(params, today).None?
  {
    var start, months := ParseDate(params.distributionStartDate).value, params.monthsInHalvingPeriod;
    if months <= MAX_PERIOD_MONTHS then Ceiling64(start, months, params.maxSupply, today)
    else LongCeiling(long(start, months), params.maxSupply, DaysBetween(start, today))
  }

  /** The verdict on minting `amount` on top of `supply`. */
  function CheckLimits(long: LongPeriods, params: Params, today: Date, supply: nat, amount: nat): Option<LimitError>
    requires today.Valid()
  {
    var blocked := NoCeiling(params, today);
    if blocked.Some? then blocked
    else
      var ceiling := CeilingOn(long, params, today);
      if amount + supply > ceiling then Some(ExceedsLimit(ceiling)) else None
  }

  /** Whatever day counts Go comes up with, the clamp keeps the period's part within the
      period's limit. */
  lemma LongCeilingWithinLimit(days: uint64, maxSupply: uint64, elapsed: nat)
    ensures LongCeiling(days, maxSupply, elapsed) <= HalvingPeriodLimit(maxSupply, 1)
  {
    hide HalvingPeriodLimit;
    if days > 0 {
      var limit, e := HalvingPeriodLimit(maxSupply, 1), Min(elapsed, days);
      MulNonnegative(limit, e);
      WrapDrops(limit * e);
      DivMonotone(Wrap64(limit * e), limit * e, days);
      ShareMonotone(limit, e, days, days);
      ShareOfAll(limit, days);
    }
  }

  /** The ceiling never exceeds the maximum supply and never reaches a positive one, for
      every period length the parameters can hold. */
  lemma CeilingWithinMax(long: LongPeriods, params: Params, today: Date)
    requires today.Valid() && NoCeiling(params, today).None?
    ensures CeilingOn(long, params, today) <= params.maxSupply
    ensures params.maxSupply > 0 ==> CeilingOn(long, params, today) < params.maxSupply
  {
    hide Ceiling64, Ceiling, ParseDate, LongCeiling, HalvingPeriodLimit, DaysBetween;
    var start, months := ParseDate(params.distributionStartDate).value, params.monthsInHalvingPeriod;
    if months <= MAX_PERIOD_MONTHS {
      CeilingBelowMaxSupply(start, months, params.maxSupply, today);
    } else {
      LongCeilingWithinLimit(long(start, months), params.maxSupply, DaysBetween(start, today));
      var n := params.maxSupply;
      assert SumOfLimits(n, 1) == SumOfLimits(n, 0) + HalvingPeriodLimit(n, 1);
      SumOfLimitsBounds(params.maxSupply, 1);
    }
  }

  lemma MonthsBetweenIsSmall(s: Date, t: Date)
    requires s.Valid() && t.Valid() && 0 <= s.year <= 9999 && 0 <= t.year <= 9999
    ensures MonthsBetween(s, t) <= 120_000
  {
  }

  /** The offsets of the two boundaries fit in Go's `int` unless the period is a long one,
      and then every accepted date is in the first period. */
  lemma BoundaryOffsetsFit(s: Date, months: nat, t: Date)
    requires s.Valid() && t.Valid() && 0 <= s.year <= 9999 && 0 <= t.year <= 9999
    requires AtMost(s, t) && 0 < months
    ensures var p := PeriodOf(s, months, t);
            && 1 <= p <= 120_001
            && (if months > MAX_PERIOD_MONTHS then p == 1 else 0 <= (p - 1) * months <= p * months < TWO_63)
  {
    hide MonthsBetween, Before, DaysIn;
    MonthsBetweenIsSmall(s, t);
    SignOfMonthsBetween(s, t);
    QuotientTimesDivisor(MonthsBetween(s, t), months);
    if months > MAX_PERIOD_MONTHS {
      DivUnique(MonthsBetween(s, t), months, 0);
    }
  }

  lemma QuotientTimesDivisor(n: nat, d: nat)
    requires d > 0
    ensures var q := n / d;
            0 <= q <= n && 0 <= q * d <= n && (q + 1) * d == q * d + d
  {
    DivShrinks(n, d);
    DivMod(n, d);
    MulNonnegative(n / d, d);
  }

  /** The loop over the completed periods: the `uint64` sum never wraps. */
  method SumCompleted(maxSupply: uint64, current: uint64) returns (total: uint64)
    requires current >= 1
    ensures total == SumOfLimits(maxSupply, current - 1)
  {
    total := 0;
    var period: uint64 := 1;
    while period < current
      invariant 1 <= period <= current
      invariant total == SumOfLimits(maxSupply, period - 1)
    {
      SumOfLimitsBounds(maxSupply, period);
      total := Wrap64(total + HalvingPeriodLimit(maxSupply, period));
      period := period + 1;
    }
  }

  /** The first day of the current period and the days the program counts in it, from the
      two boundaries as the source computes them. */
  method PeriodBounds(long: LongPeriods, startDate: Date, perPeriod: uint64, current: uint64)
    returns (periodStart: Date, daysInPeriod: uint64)
    requires startDate.Valid() && 0 < perPeriod && 1 <= current
    requires if perPeriod > MAX_PERIOD_MONTHS then current == 1
             else 0 <= (current - 1) * perPeriod <= current * perPeriod < TWO_63
    ensures periodStart == PeriodStart(startDate, perPeriod, current)
    ensures daysInPeriod == if perPeriod > MAX_PERIOD_MONTHS then long(startDate, perPeriod)
                            else PeriodDays(startDate, perPeriod, current)
  {
    hide DayNumber, AddMonths, PrevDay, Before, DaysIn, Span, ToInt, Wrap64;
    LastDayOfPeriod(startDate, perPeriod, current);
    ExactOffset((current - 1) * perPeriod);
    periodStart := AddMonths(startDate, ToInt(Wrap64((current - 1) * perPeriod)));
    if perPeriod > MAX_PERIOD_MONTHS {
      return periodStart, long(startDate, perPeriod);
    }
    ExactOffset(current * perPeriod);
    var nextStart := AddMonths(startDate, ToInt(Wrap64(current * perPeriod)));
    assert current + 1 - 1 == current;
    var periodEnd := PrevDay(nextStart);
    ExactOffset(DaysBetween(periodStart, periodEnd) + 1);
    daysInPeriod := Wrap64(DaysBetween(periodStart, periodEnd) + 1);
  }

  /** The current period's part, with the clamp and the guard as the source has them. */
  method ProRateCurrent(long: LongPeriods, startDate: Date, targetDate: Date, maxSupply: uint64, perPeriod: uint64,
        current: uint64)
    returns (amount: uint64)
    requires startDate.Valid() && targetDate.Valid() && AtMost(startDate, targetDate)
    requires 0 <= startDate.year <= 9999 && 0 <= targetDate.year <= 9999
    requires 0 < perPeriod && current == PeriodOf(startDate, perPeriod, targetDate)
    ensures SumOfLimits(maxSupply, current - 1) + amount
            == if perPeriod <= MAX_PERIOD_MONTHS then Ceiling64(startDate, perPeriod, maxSupply, targetDate)
               else LongCeiling(long(startDate, perPeriod), maxSupply, DaysBetween(startDate, targetDate))
  {
    hide DayNumber, AddMonths, MonthsBetween, PeriodOf, PeriodStart, PeriodDays, Before, DaysIn, HalvingPeriodLimit;
    BoundaryOffsetsFit(startDate, perPeriod, targetDate);
    ElapsedWithinPeriod(startDate, perPeriod, targetDate);
    FirstPeriodStart(startDate, perPeriod);
    var periodStart, daysInPeriod := PeriodBounds(long, startDate, perPeriod, current);
    var limit := HalvingPeriodLimit(maxSupply, current);
    var daysElapsed: uint64 := DaysBetween(periodStart, targetDate);
    if daysElapsed > daysInPeriod {
      daysElapsed := daysInPeriod;
    }
    amount := 0;
    if daysInPeriod != 0 {
      DivShrinks(Wrap64(limit * daysElapsed), daysInPeriod);
      amount := Wrap64(limit * daysElapsed) / daysInPeriod;
    }
  }

  lemma ExactOffset(x: nat)
    requires x < TWO_63
    ensures Wrap64(x) == x && ToInt(Wrap64(x)) == x
  {
  }

  method ValidateMintingLimits(long: LongPeriods, today: Date, supply: uint64, amount: uint64, params: Params)
    returns (err: Option<LimitError>)
    requires today.Valid()
    ensures err == CheckLimits(long, params, today, supply, amount)
  {
    hide ParseDate, FormatDate, Before, DaysIn, MonthsBetween, Ceiling, Ceiling64, LongCeiling, SumOfLimits,
          DaysBetween, HalvingPeriodLimit;
    ParseUndoesFormat(today);
    var start := ParseDate(params.distributionStartDate);
    if start.None? {
      return Some(BadStart);
    }
    var target := ParseDate(FormatDate(today));
    if target.None? {
      return Some(BadTarget);
    }
    var startDate, targetDate, perPeriod := start.value, target.value, params.monthsInHalvingPeriod;
    SignOfMonthsBetween(startDate, targetDate);
    var months := MonthsBetween(startDate, targetDate);
    if months < 0 {
      return Some(BeforeStart);
    }
    if perPeriod == 0 {
      return Some(DivideByZero);
    }
    BoundaryOffsetsFit(startDate, perPeriod, targetDate);
    CeilingWithinMax(long, params, today);
    var current: uint64 := Wrap64(1 + months / perPeriod);
    var total := SumCompleted(params.maxSupply, current);
    if current > 0 {
      var currentAmount := ProRateCurrent(long, startDate, targetDate, params.maxSupply, perPeriod, current);
      total := Wrap64(total + currentAmount);
    }
    if amount + supply > total {
      return Some(ExceedsLimit(total));
    }
    return None;
  }

  lemma SignOfMonthsBetween(s: Date, t: Date)
    requires s.Valid() && t.Valid()
    ensures MonthsBetween(s, t) < 0 <==> Before(t, s)
  {
  }

  /** The last day the program counts is one less than the true length of the period. */
  lemma LastDayOfPeriod(s: Date, months: nat, period: int)
    requires s.Valid() && months > 0
    ensures var start, end := PeriodStart(s, months, period), PrevDay(PeriodStart(s, months, period + 1));
            && end.Valid() && AtMost(start, end)
            && DaysBetween(start, end) + 1 == PeriodDays(s, months, period)
  {
    hide AddMonths, DayNumber;
    var start, next := PeriodStart(s, months, period), PeriodStart(s, months, period + 1);
    DayNumberCountsDays(next);
    OrderAgrees(PrevDay(next), start);
    assert Span(s, months, period) >= 28;
  }

  // The check by the calendar

  /** When the check has no ceiling to compare with, and which error it then gives. */
  lemma LimitErrors(long: LongPeriods, params: Params, today: Date, supply: nat, amount: nat)
    requires today.Valid()
    ensures var start, r := ParseDate(params.distributionStartDate), CheckLimits(long, params, today, supply, amount);
            var dated := start.Some? && 0 <= today.year <= 9999;
            var started := dated && !Before(today, start.value);
            && (r == Some(BadStart) <==> start.None?)
            && (r == Some(BadTarget) <==> start.Some? && !(0 <= today.year <= 9999))
            && (r == Some(BeforeStart) <==> dated && Before(today, start.value))
            && (r == Some(DivideByZero) <==> started && params.monthsInHalvingPeriod == 0)
            && (NoCeiling(params, today).None? <==> started && params.monthsInHalvingPeriod > 0)
  {
    hide CeilingOn, ParseDate, Before, DaysIn;
  }

  /** With a supported period, in the period that holds today, the check accepts exactly what
      the completed periods release and today's share of the current one. */
  lemma LimitsByCalendar(long: LongPeriods, params: Params, today: Date, supply: nat, amount: nat, s: Date, p: nat,
        from: Date, to: Date)
    requires today.Valid() && today.year <= 9999 && p >= 1 && ParseDate(params.distributionStartDate) == Some(s)
    requires 0 < params.monthsInHalvingPeriod <= 0x100_0000_0000 && AtMost(s, today)
    requires from == AddMonths(s, (p - 1) * params.monthsInHalvingPeriod)
    requires to == AddMonths(s, p * params.monthsInHalvingPeriod)
    requires AtMost(from, today) && Before(today, to)
    ensures NoCeiling(params, today).None? && from.Valid() && to.Valid() && DayNumber(from) < DayNumber(to)
    ensures var r := CheckLimits(long, params, today, supply, amount);
            var product := params.maxSupply / Pow2(p) * Min(DayNumber(today) - DayNumber(from), 106751);
            var total := SumOfLimits(params.maxSupply, p - 1)
                         + product % 0x1_0000_0000_0000_0000 / Min(DayNumber(to) - DayNumber(from), 106752);
            && CeilingOn(long, params, today) == total
            && (r.None? <==> supply + amount <= total)
            && (supply + amount > total ==> r == Some(ExceedsLimit(total)))
  {
    hide DayNumber, AddMonths, ParseDate, Ceiling64, Ceiling, SumOfLimits, Pow2, DaysIn;
    CeilingByCalendar(s, params.monthsInHalvingPeriod, params.maxSupply, today, p, from, to);
    YearsAreOrdered(s, today);
  }

  lemma YearsAreOrdered(s: Date, t: Date)
    requires AtMost(s, t)
    ensures s.year <= t.year
  {
  }

  /** With a longer period, by the days Go counts in it. */
  lemma LongLimitsByCalendar(long: LongPeriods, params: Params, today: Date, supply: nat, amount: nat, s: Date)
    requires today.Valid() && today.year <= 9999 && ParseDate(params.distributionStartDate) == Some(s)
    requires params.monthsInHalvingPeriod > 0x100_0000_0000 && AtMost(s, today)
    ensures NoCeiling(params, today).None?
    ensures var days, r := long(s, params.monthsInHalvingPeriod), CheckLimits(long, params, today, supply, amount);
            var elapsed := Min(DayNumber(today) - DayNumber(s), 106751);
            var total := if days == 0 then 0
                         else params.maxSupply / 2 * Min(elapsed, days) % 0x1_0000_0000_0000_0000 / days;
            && CeilingOn(long, params, today) == total
            && (r.None? <==> supply + amount <= total)
            && (supply + amount > total ==> r == Some(ExceedsLimit(total)))
  {
    hide DayNumber, ParseDate, DaysIn;
    YearsAreOrdered(s, today);
    OrderAgrees(today, s);
    assert Pow2(0) == 1;
  }

  /** On the start date nothing can be minted, whatever the period length. */
  lemma NothingOnStartDate(long: LongPeriods, params: Params, supply: nat, amount: nat, s: Date)
    requires ParseDate(params.distributionStartDate) == Some(s) && params.monthsInHalvingPeriod > 0
    ensures s.Valid() && (CheckLimits(long, params, s, supply, amount).None? <==> supply + amount == 0)
  {
    hide DayNumber, AddMonths, ParseDate, DaysIn, CheckLimits, CeilingOn, Before;
    var m := params.monthsInHalvingPeriod;
    if m > 0x100_0000_0000 {
      DayIsAtMostItself(s);
      LongLimitsByCalendar(long, params, s, supply, amount, s);
      ZeroShare(params.maxSupply / 2, long(s, m));
    } else {
      FirstPeriodStart(s, m);
      assert AddMonths(s, (1 - 1) * m) == s;
      OnBoundary(long, params, supply, amount, s, 1);
      assert SumOfLimits(params.maxSupply, 1 - 1) == 0;
    }
  }

  lemma ZeroShare(limit: nat, days: uint64)
    ensures days > 0 ==> limit * Min(0, days) % 0x1_0000_0000_0000_0000 / days == 0
  {
    if days > 0 {
      DivUnique(0, days, 0);
    }
  }

  lemma DayIsAtMostItself(t: Date)
    ensures AtMost(t, t)
  {
  }

  /** On a period boundary exactly what the completed periods release can be minted. */
  lemma OnBoundary(long: LongPeriods, params: Params, supply: nat, amount: nat, s: Date, p: nat)
    requires ParseDate(params.distributionStartDate) == Some(s) && p >= 1
    requires 0 < params.monthsInHalvingPeriod <= 0x100_0000_0000
    requires AddMonths(s, (p - 1) * params.monthsInHalvingPeriod).year <= 9999
    ensures var today := AddMonths(s, (p - 1) * params.monthsInHalvingPeriod);
            && today.Valid()
            && (CheckLimits(long, params, today, supply, amount).None?
                <==> supply + amount <= SumOfLimits(params.maxSupply, p - 1))
  {
    hide DayNumber, AddMonths, ParseDate, DaysIn, CheckLimits, CeilingOn, SumOfLimits, Pow2;
    var m := params.monthsInHalvingPeriod;
    var today := AddMonths(s, (p - 1) * m);
    AddMonthsIsEuclidean(s, (p - 1) * m);
    MulNonnegative(p - 1, m);
    BoundaryIsNotBefore(s, (p - 1) * m);
    assert (p - 1) * m < p * m;
    AddMonthsIncreases(s, (p - 1) * m, p * m);
    DayIsAtMostItself(today);
    var next := AddMonths(s, p * m);
    hide Before;
    LimitsByCalendar(long, params, today, supply, amount, s, p, today, next);
    assert params.maxSupply / Pow2(p) * 0 == 0;
    DivUnique(0, Min(DayNumber(next) - DayNumber(today), 106752), 0);
  }
}
