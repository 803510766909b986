/** Facts about floor division and powers of two that the solver needs spelled out. */
module Arithmetic {
  import opened Machine

  lemma MulNonnegative(a: int, b: int)
    requires a >= 0 && b >= 0
    ensures a * b >= 0
  {
  }

  lemma MulOrder(d: int, a: int, b: int)
    requires d >= 0
    ensures a < b ==> d * a + d <= d * b
    ensures a <= b ==> d * a <= d * b
  {
    if a <= b {
      MulNonnegative(d, b - a);
      assert d * b == d * a + d * (b - a);
      if a < b {
        MulNonnegative(d, b - a - 1);
        assert d * (b - a) == d * (b - a - 1) + d;
      }
    }
  }

  lemma Distribute(a: int, b: int, c: int)
    ensures a * (b + c) == a * b + a * c
  {
  }

  lemma DivMod(n: int, d: int)
    requires d > 0
    ensures n == d * (n / d) + n % d && 0 <= n % d < d
  {
  }

  lemma DivUnique(n: int, d: int, q: int)
    requires d > 0 && q * d <= n < q * d + d
    ensures n / d == q && n % d == n - q * d
  {
    var q' := n / d;
    assert n == d * q' + n % d;
    MulOrder(d, q', q);
    MulOrder(d, q, q');
  }

  lemma DivShrinks(n: nat, d: nat)
    requires d > 0
    ensures 0 <= n / d <= n
  {
    var q := n / d;
    assert n == d * q + n % d;
    MulOrder(d, q, 0);
    if q >= 0 {
      MulOrder(q, 1, d);
    }
  }

  /** Halving before or after dividing by a power of two is dividing by the next power,
      and the remainder grows by the bit that was shifted out. */
  lemma DivPow2(x: nat, n: nat)
    ensures x / Pow2(n) / 2 == x / Pow2(n + 1) == (x / 2) / Pow2(n)
    ensures x % Pow2(n + 1) == 2 * ((x / 2) % Pow2(n)) + x % 2
  {
    HalvesOfQuotient(x, Pow2(n));
  }

  lemma HalvesOfQuotient(x: nat, d: nat)
    requires d > 0
    ensures x / d / 2 == x / (2 * d) == (x / 2) / d
    ensures x % (2 * d) == 2 * ((x / 2) % d) + x % 2
  {
    var q, r := (x / 2) / d, (x / 2) % d;
    assert x / 2 == d * q + r;
    assert q * (2 * d) == 2 * (d * q);
    DivUnique(x, 2 * d, q);
    var p, t := x / d, x % d;
    assert x == d * p + t;
    var h := p / 2;
    if p == 2 * h {
      assert d * p == h * (2 * d);
    } else {
      assert p == 2 * h + 1;
      assert d * p == h * (2 * d) + d;
    }
    DivUnique(x, 2 * d, h);
  }

  lemma {:induction false} Pow2Bounds(x: nat, n: nat)
    requires x < Pow2(n)
    ensures forall m: nat :: n <= m ==> x < Pow2(m)
  {
    forall m: nat | n <= m ensures x < Pow2(m) {
      Pow2Grows(n, m);
    }
  }

  lemma {:induction false} Pow2Grows(n: nat, m: nat)
    requires n <= m
    ensures Pow2(n) <= Pow2(m)
    decreases m
  {
    if n < m {
      Pow2Grows(n, m - 1);
    }
  }

  lemma Pow2Of64()
    ensures Pow2(64) == TWO_64
  {
    assert Pow2(0) == 1;
    hide Pow2;
    Pow2OfByte(0);
    Pow2OfByte(8);
    Pow2OfByte(16);
    Pow2OfByte(24);
    Pow2OfByte(32);
    Pow2OfByte(40);
    Pow2OfByte(48);
    Pow2OfByte(56);
  }

  lemma Pow2OfByte(n: nat)
    ensures Pow2(n + 8) == 256 * Pow2(n)
  {
    assert Pow2(n + 2) == 4 * Pow2(n);
    assert Pow2(n + 4) == 4 * Pow2(n + 2);
    assert Pow2(n + 6) == 4 * Pow2(n + 4);
    assert Pow2(n + 8) == 4 * Pow2(n + 6);
  }

  lemma {:induction false} Pow2Adds(a: nat, b: nat)
    ensures Pow2(a + b) == Pow2(a) * Pow2(b)
  {
    if b > 0 {
      Pow2Adds(a, b - 1);
      assert Pow2(a) * (2 * Pow2(b - 1)) == 2 * (Pow2(a) * Pow2(b - 1));
    }
  }

  lemma QuotientOrRemainder(x: nat, d: nat)
    requires d > 0
    ensures x / d >= 0 && x % d >= 0
    ensures x > 0 ==> x / d > 0 || x % d > 0
  {
    DivShrinks(x, d);
    assert x == d * (x / d) + x % d;
  }

  lemma DivMonotone(a: int, b: int, d: int)
    requires d > 0 && a <= b
    ensures a / d <= b / d
  {
    assert a == d * (a / d) + a % d;
    assert b == d * (b / d) + b % d;
    MulOrder(d, b / d, a / d);
  }

  // Pro-rata shares

  /** `(limit * elapsed) / days` over unbounded integers. */
  function Share(limit: nat, elapsed: nat, days: nat): (r: nat)
    requires days > 0
  {
    MulOrder(limit, 0, elapsed);
    DivShrinks(limit * elapsed, days);
    limit * elapsed / days
  }

  lemma ShareMonotone(limit: nat, e: nat, f: nat, days: nat)
    requires days > 0 && e <= f
    ensures Share(limit, e, days) <= Share(limit, f, days)
  {
    MulOrder(limit, e, f);
    DivMonotone(limit * e, limit * f, days);
  }

  lemma ShareOfNone(limit: nat, days: nat)
    requires days > 0
    ensures Share(limit, 0, days) == 0
  {
    DivUnique(limit * 0, days, 0);
  }

  lemma ShareOfAll(limit: nat, days: nat)
    requires days > 0
    ensures Share(limit, days, days) == limit
  {
    DivUnique(limit * days, days, limit);
  }

  /** One more day adds the floor or the ceiling of the daily average. */
  lemma ShareStep(limit: nat, e: nat, days: nat)
    requires days > 0
    ensures limit / days <= Share(limit, e + 1, days) - Share(limit, e, days) <= (limit + days - 1) / days
  {
    var q, r := limit * e / days, limit * e % days;
    var m, t := limit / days, limit % days;
    DivMod(limit * e, days);
    DivMod(limit, days);
    Distribute(limit, e, 1);
    assert limit * (e + 1) == days * q + days * m + (r + t);
    SumOfQuotients(limit * (e + 1), q, m, r + t, days);
    SumOfQuotients(limit + days - 1, m, 0, t + days - 1, days);
  }

  lemma SumOfQuotients(n: int, q: int, m: int, rest: int, d: int)
    requires d > 0 && n == d * q + d * m + rest && 0 <= rest < 2 * d
    ensures n / d == q + m + (if rest < d then 0 else 1)
  {
    Distribute(d, q, m);
    Distribute(d, q + m, 1);
    DivUnique(n, d, q + m + (if rest < d then 0 else 1));
  }

  lemma QuotientDrops(a: int, b: int, d: int)
    requires d > 0 && a <= b - d
    ensures a / d < b / d
  {
  }

  lemma WrapDrops(x: nat)
    ensures x < TWO_64 ==> Wrap64(x) == x
    ensures x >= TWO_64 ==> Wrap64(x) <= x - TWO_64
  {
  }

  /** Wrapping a product before dividing never raises the quotient, and keeps it exactly
      when nothing was lost. */
  lemma WrappedQuotient(product: nat, days: nat)
    requires 0 < days <= TWO_64
    ensures Wrap64(product) / days <= product / days
    ensures Wrap64(product) / days == product / days <==> product < TWO_64
  {
    WrapDrops(product);
    if product >= TWO_64 {
      QuotientDrops(Wrap64(product), product, days);
    }
  }
}
