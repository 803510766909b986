/** The share each halving period releases, and the closed form of their sum. */
module Halving {
  import opened Machine
  import opened Arithmetic

  /** `halvingPeriodLimit`: `uint64(1) << (period-1)` is `Pow2(period - 1)` for the shifts
      the guard lets through. */
  function HalvingPeriodLimit(maxSupply: uint64, period: nat): (limit: uint64)
    ensures limit <= maxSupply
  {
    if period == 0 || period > 64 then 0
    else
      DivShrinks(maxSupply, Pow2(period - 1));
      maxSupply / Pow2(period - 1) / 2
  }

  /** What periods 1 to `n` release together. */
  function SumOfLimits(maxSupply: uint64, n: nat): nat {
    if n == 0 then 0 else SumOfLimits(maxSupply, n - 1) + HalvingPeriodLimit(maxSupply, n)
  }

  /** The number of one bits. */
  function Popcount(x: nat): nat {
    if x == 0 then 0 else x % 2 + Popcount(x / 2)
  }

  /** Every period's limit is `floor(MaxSupply / 2^period)`: the two floor divisions make
      one, and the guard above period 64 agrees with the formula. */
  lemma LimitIsPowerDivision(maxSupply: uint64, period: nat)
    requires period > 0
    ensures HalvingPeriodLimit(maxSupply, period) == maxSupply / Pow2(period)
  {
    if period <= 64 {
      DivPow2(maxSupply, period - 1);
    } else {
      Pow2Of64();
      Pow2Bounds(maxSupply, 64);
      DivUnique(maxSupply, Pow2(period), 0);
    }
  }

  /** Each period releases at most half of what the one before releases. */
  lemma LimitHalves(maxSupply: uint64, period: nat)
    requires period > 0
    ensures HalvingPeriodLimit(maxSupply, period + 1) == HalvingPeriodLimit(maxSupply, period) / 2
  {
    LimitIsPowerDivision(maxSupply, period);
    LimitIsPowerDivision(maxSupply, period + 1);
    DivPow2(maxSupply, period);
  }

  lemma {:induction false} LimitFallsFromFirst(maxSupply: uint64, period: nat)
    requires period >= 2
    ensures 2 * HalvingPeriodLimit(maxSupply, period) <= HalvingPeriodLimit(maxSupply, 1)
  {
    LimitHalves(maxSupply, period - 1);
    if period > 2 {
      LimitFallsFromFirst(maxSupply, period - 1);
    }
  }

  /** Dropping the last bit of the supply drops the first period. */
  lemma {:induction false} SumOfHalvedSupply(maxSupply: uint64, n: nat)
    ensures SumOfLimits(maxSupply, n + 1) == maxSupply / 2 + SumOfLimits(maxSupply / 2, n)
  {
    LimitIsPowerDivision(maxSupply, n + 1);
    if n == 0 {
      assert Pow2(1) == 2;
      assert SumOfLimits(maxSupply, 1) == SumOfLimits(maxSupply, 0) + HalvingPeriodLimit(maxSupply, 1);
    } else {
      SumOfHalvedSupply(maxSupply, n - 1);
      LimitIsPowerDivision(maxSupply / 2, n);
      DivPow2(maxSupply, n);
    }
  }

  /** The completed periods release `N - floor(N/2^n) - popcount(N mod 2^n)`. */
  lemma {:induction false} SumOfLimitsClosedForm(maxSupply: uint64, n: nat)
    ensures SumOfLimits(maxSupply, n)
            == maxSupply - maxSupply / Pow2(n) - Popcount(maxSupply % Pow2(n))
  {
    if n > 0 {
      SumOfHalvedSupply(maxSupply, n - 1);
      SumOfLimitsClosedForm(maxSupply / 2, n - 1);
      DivPow2(maxSupply, n - 1);
      var low := maxSupply % Pow2(n);
      assert low / 2 == (maxSupply / 2) % Pow2(n - 1) && low % 2 == maxSupply % 2;
      assert Popcount(low) == low % 2 + Popcount(low / 2);
    }
  }

  /** A positive supply is never released in full, so the `uint64` sum never wraps. */
  lemma SumOfLimitsBounds(maxSupply: uint64, n: nat)
    ensures SumOfLimits(maxSupply, n) <= maxSupply
    ensures maxSupply > 0 ==> SumOfLimits(maxSupply, n) < maxSupply
  {
    SumOfLimitsClosedForm(maxSupply, n);
    QuotientOrRemainder(maxSupply, Pow2(n));
    var low := maxSupply % Pow2(n);
    if low > 0 {
      PopcountPositive(low);
    }
  }

  /** All periods together release everything but one unit per one bit of the supply. */
  lemma SumOfAllLimits(maxSupply: uint64, n: nat)
    requires n >= 64
    ensures SumOfLimits(maxSupply, n) == maxSupply - Popcount(maxSupply)
  {
    SumOfLimitsClosedForm(maxSupply, n);
    Pow2Of64();
    Pow2Bounds(maxSupply, 64);
    DivUnique(maxSupply, Pow2(n), 0);
  }

  lemma {:induction false} PopcountPositive(x: nat)
    requires x > 0
    ensures Popcount(x) > 0
  {
    if x % 2 == 0 {
      PopcountPositive(x / 2);
    }
  }
}
