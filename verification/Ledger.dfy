/** The bank as its two clients see it: coins, balances per account, and the supply. A zero
    amount and an empty balance are not stored, as in the SDK's bank, so equal contents are
    equal values. */
module Ledger {
  import opened DistroParams

  /** `sdk.Coins`: positive amounts by denom. */
  type Coins = m: map<Denom, nat> | forall d :: d in m ==> m[d] > 0 witness map[]

  type Balances = m: map<Account, Coins> | forall a :: a in m ==> m[a] != map[] witness map[]

  datatype Ledger = Ledger(balances: Balances, supply: Coins)

  function Amount(c: Coins, d: Denom): nat {
    if d in c then c[d] else 0
  }

  lemma SameAmounts(a: Coins, b: Coins)
    requires forall d :: Amount(a, d) == Amount(b, d)
    ensures a == b
  {
    assert forall d :: d in a <==> Amount(a, d) > 0;
    assert forall d :: d in b <==> Amount(b, d) > 0;
    assert forall d :: d in a ==> a[d] == Amount(b, d);
  }

  /** `sdk.NewCoins(sdk.NewCoin(denom, amount))`: a zero coin is dropped. */
  function OneCoin(denom: Denom, amount: nat): (r: Coins)
    ensures forall d :: Amount(r, d) == if d == denom then amount else 0
  {
    if amount == 0 then map[] else map[denom := amount]
  }

  function AddCoins(a: Coins, b: Coins): (r: Coins)
    ensures forall d :: Amount(r, d) == Amount(a, d) + Amount(b, d)
  {
    map d | d in a.Keys + b.Keys :: Amount(a, d) + Amount(b, d)
  }

  predicate Covers(a: Coins, b: Coins) {
    forall d :: d in b ==> b[d] <= Amount(a, d)
  }

  function SubCoins(a: Coins, b: Coins): (r: Coins)
    requires Covers(a, b)
    ensures forall d :: Amount(r, d) == Amount(a, d) - Amount(b, d)
  {
    map d | d in a && a[d] > Amount(b, d) :: a[d] - Amount(b, d)
  }

  // Balances

  function BalanceIn(b: Balances, a: Account): Coins {
    if a in b then b[a] else map[]
  }

  function BalanceOf(l: Ledger, a: Account): Coins {
    BalanceIn(l.balances, a)
  }

  function Store(b: Balances, a: Account, c: Coins): (r: Balances)
    ensures BalanceIn(r, a) == c
    ensures forall x :: x != a ==> BalanceIn(r, x) == BalanceIn(b, x)
  {
    if c == map[] then b - {a} else b[a := c]
  }

  /** The balances with some accounts emptied. */
  function Without(b: Balances, s: set<Account>): (r: Balances)
    ensures forall x :: BalanceIn(r, x) == if x in s then map[] else BalanceIn(b, x)
  {
    b - s
  }

  lemma SameBalances(a: Balances, b: Balances)
    requires forall x :: BalanceIn(a, x) == BalanceIn(b, x)
    ensures a == b
  {
    assert forall x :: x in a <==> BalanceIn(a, x) != map[];
    assert forall x :: x in b <==> BalanceIn(b, x) != map[];
    forall x | x in a ensures a[x] == b[x] {
      assert BalanceIn(a, x) == BalanceIn(b, x);
    }
  }

  /** The sum of the balances of some accounts in one denom. */
  ghost function SumOver(b: Balances, s: set<Account>, d: Denom): nat {
    if s == {} then 0
    else
      var a :| a in s;
      Amount(BalanceIn(b, a), d) + SumOver(b, s - {a}, d)
  }

  ghost function Total(b: Balances, d: Denom): nat {
    SumOver(b, b.Keys, d)
  }

  /** The sum does not depend on which account is counted first. */
  lemma {:induction false} SumWithout(b: Balances, s: set<Account>, a: Account, d: Denom)
    requires a in s
    ensures SumOver(b, s, d) == Amount(BalanceIn(b, a), d) + SumOver(b, s - {a}, d)
  {
    hide BalanceIn, Amount;
    var x :| x in s && SumOver(b, s, d) == Amount(BalanceIn(b, x), d) + SumOver(b, s - {x}, d);
    if x != a {
      SumWithout(b, s - {x}, a, d);
      SumWithout(b, s - {a}, x, d);
      assert s - {x} - {a} == s - {a} - {x};
    }
  }

  lemma {:induction false} SumOfSame(b: Balances, c: Balances, s: set<Account>, d: Denom)
    requires forall a :: a in s ==> BalanceIn(b, a) == BalanceIn(c, a)
    ensures SumOver(b, s, d) == SumOver(c, s, d)
  {
    hide BalanceIn, Amount;
    if s != {} {
      var a :| a in s;
      SumWithout(b, s, a, d);
      SumWithout(c, s, a, d);
      SumOfSame(b, c, s - {a}, d);
    }
  }

  /** Summing over more accounts than hold anything changes nothing. */
  lemma TotalOverMore(b: Balances, a: Account, d: Denom)
    ensures SumOver(b, b.Keys + {a}, d) == Total(b, d)
  {
    if a in b {
      assert b.Keys + {a} == b.Keys;
    } else {
      SumWithout(b, b.Keys + {a}, a, d);
      assert b.Keys + {a} - {a} == b.Keys;
    }
  }

  lemma TotalWithout(b: Balances, a: Account, d: Denom)
    ensures Total(b, d) == Amount(BalanceIn(b, a), d) + SumOver(b, b.Keys - {a}, d)
  {
    TotalOverMore(b, a, d);
    SumWithout(b, b.Keys + {a}, a, d);
    assert b.Keys + {a} - {a} == b.Keys - {a};
  }

  lemma TotalOfStore(b: Balances, a: Account, c: Coins, d: Denom)
    ensures Total(Store(b, a, c), d) == Total(b, d) - Amount(BalanceIn(b, a), d) + Amount(c, d)
  {
    var r := Store(b, a, c);
    assert r.Keys - {a} == b.Keys - {a};
    hide Store, Amount, BalanceIn;
    TotalWithout(b, a, d);
    TotalWithout(r, a, d);
    SumOfSame(b, r, b.Keys - {a}, d);
  }

  // The three operations

  function Minted(l: Ledger, a: Account, c: Coins): Ledger {
    Ledger(Store(l.balances, a, AddCoins(BalanceOf(l, a), c)), AddCoins(l.supply, c))
  }

  function Sent(l: Ledger, from: Account, to: Account, c: Coins): (r: Ledger)
    requires Covers(BalanceOf(l, from), c)
    ensures r.supply == l.supply
  {
    var less := Store(l.balances, from, SubCoins(BalanceOf(l, from), c));
    Ledger(Store(less, to, AddCoins(BalanceIn(less, to), c)), l.supply)
  }

  function Burned(l: Ledger, a: Account, c: Coins): Ledger
    requires Covers(BalanceOf(l, a), c) && Covers(l.supply, c)
  {
    Ledger(Store(l.balances, a, SubCoins(BalanceOf(l, a), c)), SubCoins(l.supply, c))
  }

  /** Minting raises one balance and the supply by exactly the coins. */
  lemma MintedAmounts(l: Ledger, a: Account, c: Coins, x: Account, d: Denom)
    ensures Amount(BalanceOf(Minted(l, a, c), x), d)
            == Amount(BalanceOf(l, x), d) + (if x == a then Amount(c, d) else 0)
    ensures Amount(Minted(l, a, c).supply, d) == Amount(l.supply, d) + Amount(c, d)
  {
    hide Store, AddCoins, Amount, BalanceIn;
  }

  /** Sending changes only the two balances, by exactly the coins sent. */
  lemma SentBalance(l: Ledger, from: Account, to: Account, c: Coins, x: Account, d: Denom)
    requires Covers(BalanceOf(l, from), c)
    ensures Amount(BalanceOf(Sent(l, from, to, c), x), d)
            == Amount(BalanceOf(l, x), d) - (if x == from then Amount(c, d) else 0)
               + (if x == to then Amount(c, d) else 0)
  {
    hide Store, AddCoins, SubCoins, Amount, Covers, BalanceIn;
  }

  /** Burning lowers one balance and the supply by exactly the coins. */
  lemma BurnedBalance(l: Ledger, a: Account, c: Coins, x: Account, d: Denom)
    requires Covers(BalanceOf(l, a), c) && Covers(l.supply, c)
    ensures Amount(BalanceOf(Burned(l, a, c), x), d)
            == Amount(BalanceOf(l, x), d) - (if x == a then Amount(c, d) else 0)
    ensures Amount(Burned(l, a, c).supply, d) == Amount(l.supply, d) - Amount(c, d)
  {
    hide Store, SubCoins, Amount, Covers, BalanceIn;
  }

  /** The bank's invariant: the supply of each denom is the sum of its balances. */
  ghost predicate Conserved(l: Ledger) {
    forall d :: Amount(l.supply, d) == Total(l.balances, d)
  }

  lemma MintConserves(l: Ledger, a: Account, c: Coins)
    requires Conserved(l)
    ensures Conserved(Minted(l, a, c))
  {
    hide Store, AddCoins, Amount, Total;
    forall d ensures Amount(Minted(l, a, c).supply, d) == Total(Minted(l, a, c).balances, d) {
      TotalOfStore(l.balances, a, AddCoins(BalanceOf(l, a), c), d);
    }
  }

  lemma SendConserves(l: Ledger, from: Account, to: Account, c: Coins)
    requires Conserved(l) && Covers(BalanceOf(l, from), c)
    ensures Conserved(Sent(l, from, to, c))
  {
    hide Store, AddCoins, SubCoins, Amount, Total, BalanceIn, Covers;
    var less := Store(l.balances, from, SubCoins(BalanceOf(l, from), c));
    forall d ensures Amount(l.supply, d) == Total(Sent(l, from, to, c).balances, d) {
      TotalOfStore(l.balances, from, SubCoins(BalanceOf(l, from), c), d);
      TotalOfStore(less, to, AddCoins(BalanceIn(less, to), c), d);
    }
  }

  /** No account holds more than the supply, so a burn out of a balance never underflows. */
  lemma SupplyCovers(l: Ledger, a: Account, c: Coins)
    requires Conserved(l) && Covers(BalanceOf(l, a), c)
    ensures Covers(l.supply, c)
  {
    hide Total;
    forall d | d in c ensures c[d] <= Amount(l.supply, d) {
      TotalWithout(l.balances, a, d);
    }
  }

  lemma BurnConserves(l: Ledger, a: Account, c: Coins)
    requires Conserved(l) && Covers(BalanceOf(l, a), c)
    ensures Covers(l.supply, c) && Conserved(Burned(l, a, c))
  {
    SupplyCovers(l, a, c);
    hide Store, SubCoins, Amount, Total, BalanceIn, Covers;
    forall d ensures Amount(Burned(l, a, c).supply, d) == Total(Burned(l, a, c).balances, d) {
      TotalOfStore(l.balances, a, SubCoins(BalanceOf(l, a), c), d);
    }
  }

  /** The part of a transfer that can be refused: a coin is spendable beyond what is locked. */
  predicate CanSpend(l: Ledger, locked: Coins, a: Account, c: Coins) {
    forall d :: d in c ==> c[d] + Amount(locked, d) <= Amount(BalanceOf(l, a), d)
  }

  /** The bank keeper: the same three operations in place. */
  class Bank {
    var balances: Balances
    var supply: Coins

    function View(): Ledger
      reads this
    {
      Ledger(balances, supply)
    }

    constructor (l: Ledger)
      ensures View() == l
    {
      balances, supply := l.balances, l.supply;
    }

    method MintCoins(a: Account, c: Coins)
      modifies this
      ensures View() == Minted(old(View()), a, c)
    {
      balances := Store(balances, a, AddCoins(BalanceIn(balances, a), c));
      supply := AddCoins(supply, c);
    }

    method SendCoins(locked: Coins, from: Account, to: Account, c: Coins) returns (ok: bool)
      modifies this
      ensures ok <==> CanSpend(old(View()), locked, from, c)
      ensures ok <==> forall d | d in c :: c[d] + Amount(locked, d) <= Amount(BalanceOf(old(View()), from), d)
      ensures if ok then Covers(BalanceOf(old(View()), from), c) && View() == Sent(old(View()), from, to, c)
              else View() == old(View())
    {
      ok := CanSpend(View(), locked, from, c);
      if ok {
        balances := Store(balances, from, SubCoins(BalanceIn(balances, from), c));
        balances := Store(balances, to, AddCoins(BalanceIn(balances, to), c));
      }
    }

    method BurnCoins(a: Account, c: Coins) returns (ok: bool)
      modifies this
      ensures ok <==> Covers(BalanceOf(old(View()), a), c) && Covers(old(supply), c)
      ensures ok <==> forall d | d in c ::
                        c[d] <= Amount(BalanceOf(old(View()), a), d) && c[d] <= Amount(old(supply), d)
      ensures View() == if ok then Burned(old(View()), a, c) else old(View())
    {
      ok := Covers(BalanceIn(balances, a), c) && Covers(supply, c);
      if ok {
        balances := Store(balances, a, SubCoins(BalanceIn(balances, a), c));
        supply := SubCoins(supply, c);
      }
    }
  }
}
