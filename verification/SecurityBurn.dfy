/** `applySecurityBurn`: the listed accounts' whole balances are collected in the x/vm
    module account and burned there. */
module SecurityBurn {
  import opened Machine
  import opened DistroParams
  import opened Ledger

  datatype BurnError = BadAddress(index: nat) | CannotCollect(index: nat)

  /** What the burn calls in the SDK: address decoding, and the coins of an account that
      vesting locks. */
  datatype BurnEnv = BurnEnv(bech32: Bytes -> Option<Account>, locked: Account -> Coins, vm: Account)

  /** The accounts a list of address strings names. */
  function Named(env: BurnEnv, list: seq<Bytes>): set<Account> {
    set x | x in list && env.bech32(x).Some? :: env.bech32(x).value
  }

  /** The ledger with some accounts emptied and their coins taken off the supply. */
  ghost function Cleared(l: Ledger, s: set<Account>): Ledger {
    Ledger(Without(l.balances, s), SupplyWithout(l, s))
  }

  ghost function SupplyWithout(l: Ledger, s: set<Account>): (r: Coins)
    ensures forall d :: Amount(r, d) == var rest := Amount(l.supply, d) - SumOver(l.balances, s, d);
                                        if rest < 0 then 0 else rest
  {
    map d | d in l.supply && l.supply[d] > SumOver(l.balances, s, d) :: l.supply[d] - SumOver(l.balances, s, d)
  }

  predicate Stuck(env: BurnEnv, l: Ledger, address: Bytes) {
    env.bech32(address).None?
    || var a := env.bech32(address).value;
       exists d :: d in BalanceOf(l, a) && Amount(env.locked(a), d) > 0
  }

  /** The index of the first address that stops the burn, or the length of the list. */
  function FirstStuck(env: BurnEnv, l: Ledger, list: seq<Bytes>): (n: nat)
    ensures n <= |list|
    ensures n < |list| ==> Stuck(env, l, list[n])
    ensures forall i :: 0 <= i < n ==> !Stuck(env, l, list[i])
  {
    if list == [] || Stuck(env, l, list[0]) then 0
    else
      var n := FirstStuck(env, l, list[1..]);
      assert forall i :: 0 < i < n + 1 ==> list[i] == list[1..][i - 1];
      n + 1
  }

  /** The burn succeeds exactly when every listed address decodes and no listed account holds
      a denom of which some is locked. */
  lemma BurnSucceedsIff(env: BurnEnv, l: Ledger, list: seq<Bytes>)
    ensures FirstStuck(env, l, list) == |list| <==>
            forall i :: 0 <= i < |list| ==>
              && env.bech32(list[i]).Some?
              && var a := env.bech32(list[i]).value;
                 forall d :: Amount(BalanceOf(l, a), d) == 0 || Amount(env.locked(a), d) == 0
  {
    hide FirstStuck;
    forall i | 0 <= i < |list| && env.bech32(list[i]).Some?
      ensures var a := env.bech32(list[i]).value;
              Stuck(env, l, list[i])
              <==> !forall d :: Amount(BalanceOf(l, a), d) == 0 || Amount(env.locked(a), d) == 0
    {
      var a := env.bech32(list[i]).value;
      assert forall d :: d in BalanceOf(l, a) <==> Amount(BalanceOf(l, a), d) > 0;
    }
  }

  // The ledger that remains

  lemma {:induction false} TotalSplit(b: Balances, s: set<Account>, d: Denom)
    ensures Total(b, d) == SumOver(b, s, d) + Total(Without(b, s), d)
  {
    hide Total, Without, Store, BalanceIn, Amount;
    if s == {} {
      SameBalances(Without(b, s), b);
    } else {
      var a :| a in s;
      var rest := Without(b, s - {a});
      SumWithout(b, s, a, d);
      TotalSplit(b, s - {a}, d);
      WithoutOneMore(b, s, a);
      TotalOfStore(rest, a, map[], d);
      assert Amount(map[], d) == 0 by { NoCoins(d); }
    }
  }

  lemma WithoutOneMore(b: Balances, s: set<Account>, a: Account)
    requires a in s
    ensures Store(Without(b, s - {a}), a, map[]) == Without(b, s)
  {
    hide Without, Store, BalanceIn;
    SameBalances(Store(Without(b, s - {a}), a, map[]), Without(b, s));
  }

  lemma NoCoins(d: Denom)
    ensures Amount(map[], d) == 0
  {
  }

  /** Clearing accounts keeps the books balanced, takes exactly their coins off the supply,
      empties them and leaves every other account alone. */
  lemma ClearedKeepsBooks(l: Ledger, s: set<Account>)
    requires Conserved(l)
    ensures Conserved(Cleared(l, s))
    ensures forall d :: Amount(l.supply, d) == Amount(Cleared(l, s).supply, d) + SumOver(l.balances, s, d)
    ensures forall a :: BalanceOf(Cleared(l, s), a) == if a in s then map[] else BalanceOf(l, a)
  {
    hide Total, SupplyWithout, Without, BalanceIn, Amount;
    forall d
      ensures Amount(l.supply, d) == Amount(Cleared(l, s).supply, d) + SumOver(l.balances, s, d)
      ensures Amount(Cleared(l, s).supply, d) == Total(Cleared(l, s).balances, d)
    {
      TotalSplit(l.balances, s, d);
    }
  }

  lemma {:induction false} SumOfCleared(b: Balances, s: set<Account>, t: set<Account>, d: Denom)
    ensures SumOver(b, s + t, d) == SumOver(b, s, d) + SumOver(Without(b, s), t, d)
  {
    if t == {} {
      assert s + t == s;
    } else {
      var a :| a in t;
      SumOfCleared(b, s, t - {a}, d);
      SumWithout(Without(b, s), t, a, d);
      if a in s {
        assert s + (t - {a}) == s + t;
      } else {
        SumWithout(b, s + t, a, d);
        assert s + t - {a} == s + (t - {a});
      }
    }
  }

  /** Clearing in two rounds is clearing once: so the order of the list and repeats in it
      are irrelevant. */
  lemma ClearedComposes(l: Ledger, s: set<Account>, t: set<Account>)
    requires Conserved(l)
    ensures Cleared(Cleared(l, s), t) == Cleared(l, s + t)
  {
    hide Without, SupplyWithout, Conserved;
    WithoutComposes(l.balances, s, t);
    SupplyWithoutComposes(l, s, t);
  }

  lemma WithoutComposes(b: Balances, s: set<Account>, t: set<Account>)
    ensures Without(Without(b, s), t) == Without(b, s + t)
  {
    hide Without, BalanceIn;
    SameBalances(Without(Without(b, s), t), Without(b, s + t));
  }

  lemma SupplyWithoutComposes(l: Ledger, s: set<Account>, t: set<Account>)
    requires Conserved(l)
    ensures SupplyWithout(Cleared(l, s), t) == SupplyWithout(l, s + t)
  {
    hide Conserved, Without, SupplyWithout, Amount, SumOver;
    ClearedKeepsBooks(l, s);
    forall d ensures Amount(SupplyWithout(Cleared(l, s), t), d) == Amount(SupplyWithout(l, s + t), d) {
      SumOfCleared(l.balances, s, t, d);
    }
    SameAmounts(SupplyWithout(Cleared(l, s), t), SupplyWithout(l, s + t));
  }

  /** Running the burn again changes nothing. */
  lemma ClearedTwice(l: Ledger, s: set<Account>)
    requires Conserved(l)
    ensures Cleared(Cleared(l, s), s) == Cleared(l, s)
  {
    ClearedComposes(l, s, s);
    assert s + s == s;
  }

  lemma ClearedNothing(l: Ledger)
    ensures Cleared(l, {}) == l
  {
    SameBalances(Without(l.balances, {}), l.balances);
    SameAmounts(SupplyWithout(l, {}), l.supply);
  }

  /** Moving a whole balance to the module account and burning it there clears the account
      and nothing else, even when the account is the module account itself. */
  lemma SendThenBurn(l: Ledger, a: Account, vm: Account)
    requires Conserved(l)
    ensures var c := BalanceOf(l, a);
            && Covers(BalanceOf(l, a), c)
            && Covers(BalanceOf(Sent(l, a, vm, c), vm), c) && Covers(l.supply, c)
            && Burned(Sent(l, a, vm, c), vm, c) == Cleared(l, {a})
  {
    hide Sent, Burned, Cleared, Covers, BalanceIn, Conserved;
    CollectedCovers(l, a, vm);
    ClearedKeepsBooks(l, {a});
    CollectedSupply(l, a, vm);
    var c := BalanceOf(l, a);
    var after, goal := Burned(Sent(l, a, vm, c), vm, c), Cleared(l, {a});
    forall x ensures BalanceIn(after.balances, x) == BalanceIn(goal.balances, x) {
      ClearedBalance(l, a, vm, x);
      assert BalanceOf(after, x) == BalanceOf(goal, x);
    }
    SameBalances(after.balances, goal.balances);
  }

  lemma CollectedCovers(l: Ledger, a: Account, vm: Account)
    requires Conserved(l)
    ensures var c := BalanceOf(l, a);
            && Covers(BalanceOf(l, a), c)
            && Covers(BalanceOf(Sent(l, a, vm, c), vm), c) && Covers(l.supply, c)
  {
    var c := BalanceOf(l, a);
    SupplyCovers(l, a, c);
    var sent := Sent(l, a, vm, c);
    hide Sent, BalanceIn;
    forall d | d in c ensures c[d] <= Amount(BalanceOf(sent, vm), d) {
      SentBalance(l, a, vm, c, vm, d);
    }
  }

  lemma CollectedSupply(l: Ledger, a: Account, vm: Account)
    requires Conserved(l)
    requires var c := BalanceOf(l, a);
             Covers(BalanceOf(l, a), c) && Covers(BalanceOf(Sent(l, a, vm, c), vm), c) && Covers(l.supply, c)
    ensures var c := BalanceOf(l, a);
            Burned(Sent(l, a, vm, c), vm, c).supply == Cleared(l, {a}).supply
  {
    hide Conserved, SubCoins, AddCoins, Store, SupplyWithout, Covers, BalanceIn, Without, Amount;
    var c := BalanceOf(l, a);
    forall d ensures Amount(SubCoins(l.supply, c), d) == Amount(Cleared(l, {a}).supply, d) {
      SumWithout(l.balances, {a}, a, d);
      assert {a} - {a} == {};
    }
    SameAmounts(SubCoins(l.supply, c), Cleared(l, {a}).supply);
  }

  lemma ClearedBalance(l: Ledger, a: Account, vm: Account, x: Account)
    requires var c := BalanceOf(l, a);
             Covers(BalanceOf(l, a), c) && Covers(BalanceOf(Sent(l, a, vm, c), vm), c) && Covers(l.supply, c)
    ensures var c := BalanceOf(l, a);
            BalanceOf(Burned(Sent(l, a, vm, c), vm, c), x) == if x == a then map[] else BalanceOf(l, x)
  {
    hide Sent, Burned, Covers, BalanceIn, Amount;
    var c := BalanceOf(l, a);
    var after := Burned(Sent(l, a, vm, c), vm, c);
    var goal := if x == a then map[] else BalanceOf(l, x);
    forall d ensures Amount(BalanceOf(after, x), d) == Amount(goal, d) {
      SentBalance(l, a, vm, c, x, d);
      BurnedBalance(Sent(l, a, vm, c), vm, c, x, d);
      NoCoins(d);
    }
    SameAmounts(BalanceOf(after, x), goal);
  }

  // The loop

  lemma NamedNext(env: BurnEnv, list: seq<Bytes>, i: nat)
    requires i < |list|
    ensures Named(env, list[..i + 1])
            == Named(env, list[..i]) + if env.bech32(list[i]).Some? then {env.bech32(list[i]).value} else {}
  {
    assert list[..i + 1] == list[..i] + [list[i]];
  }

  lemma ClearedEmptyAccount(l: Ledger, a: Account)
    requires Conserved(l) && BalanceOf(l, a) == map[]
    ensures Cleared(l, {a}) == l
  {
    hide Conserved;
    forall d ensures SumOver(l.balances, {a}, d) == 0 {
      SumWithout(l.balances, {a}, a, d);
      assert {a} - {a} == {};
    }
    SameBalances(Without(l.balances, {a}), l.balances);
    SameAmounts(SupplyWithout(l, {a}), l.supply);
  }

  /** What is spendable of a whole balance: all of it, unless some of it is locked. */
  lemma WholeBalanceSpendable(env: BurnEnv, l: Ledger, now: Ledger, address: Bytes)
    requires env.bech32(address).Some?
    requires BalanceOf(now, env.bech32(address).value) == BalanceOf(l, env.bech32(address).value)
    ensures var a := env.bech32(address).value;
            CanSpend(now, env.locked(a), a, BalanceOf(now, a)) <==> !Stuck(env, l, address)
  {
  }

  /** An address whose account holds nothing now either held nothing before or was cleared
      by an earlier entry, and does not stop the burn. */
  lemma EmptyIsNotStuck(env: BurnEnv, l: Ledger, list: seq<Bytes>, i: nat)
    requires i < |list| && env.bech32(list[i]).Some? && Conserved(l)
    requires forall j :: 0 <= j < i ==> !Stuck(env, l, list[j])
    requires BalanceOf(Cleared(l, Named(env, list[..i])), env.bech32(list[i]).value) == map[]
    ensures !Stuck(env, l, list[i])
  {
  }

  /** `applySecurityBurn`: the accounts named before the first obstacle are cleared, the
      coins of exactly those accounts are reported burned, and the first obstacle, if any,
      is the error. */
  method ApplySecurityBurn(bank: Bank, env: BurnEnv, list: seq<Bytes>)
    returns (err: Option<BurnError>, burned: Coins)
    requires Conserved(bank.View())
    modifies bank
    ensures Conserved(bank.View())
    ensures var l, n := old(bank.View()), FirstStuck(env, old(bank.View()), list);
            && bank.View() == Cleared(l, Named(env, list[..n]))
            && (forall d :: Amount(burned, d) == SumOver(l.balances, Named(env, list[..n]), d))
            && err == if n == |list| then None
                      else if env.bech32(list[n]).None? then Some(BadAddress(n)) else Some(CannotCollect(n))
  {
    hide Conserved, Cleared, Sent, Burned, Stuck, FirstStuck, Named, CanSpend, AddCoins, SumOver, Amount,
          BalanceIn, Covers;
    ghost var l := bank.View();
    ghost var done: set<Account> := {};
    burned := map[];
    StartOfBurn(env, l, list);
    var i := 0;
    while i < |list|
      invariant 0 <= i <= |list|
      invariant done == Named(env, list[..i])
      invariant forall j :: 0 <= j < i ==> !Stuck(env, l, list[j])
      invariant bank.View() == Cleared(l, done) && Conserved(bank.View())
      invariant forall d :: Amount(burned, d) == SumOver(l.balances, done, d)
    {
      var decoded := env.bech32(list[i]);
      NamedNext(env, list, i);
      if decoded.None? {
        UndecodableIsStuck(env, l, list[i]);
        return Some(BadAddress(i)), burned;
      }
      var addr := decoded.value;
      var balances := bank.View().balances;
      var coins := BalanceIn(balances, addr);
      ClearedAnother(l, done, addr);
      SumOfAnother(l, done, addr);
      if coins == map[] {
        EmptyIsNotStuck(env, l, list, i);
      } else {
        ghost var now := bank.View();
        WholeBalanceSpendable(env, l, now, list[i]);
        SendThenBurn(now, addr, env.vm);
        var ok := bank.SendCoins(env.locked(addr), addr, env.vm, coins);
        if !ok {
          return Some(CannotCollect(i)), burned;
        }
        ok := bank.BurnCoins(env.vm, coins);
        if !ok {
          assert false;
        }
        burned := AddCoins(burned, coins);
      }
      done := done + {addr};
      i := i + 1;
    }
    assert list[..i] == list;
    err := None;
  }

  /** Whether the burn succeeds and what it leaves depend only on which addresses are listed,
      not on their order or repetition. */
  lemma BurnIgnoresOrder(env: BurnEnv, l: Ledger, xs: seq<Bytes>, ys: seq<Bytes>)
    requires forall x :: x in xs <==> x in ys
    ensures FirstStuck(env, l, xs) == |xs| <==> FirstStuck(env, l, ys) == |ys|
    ensures Cleared(l, Named(env, xs)) == Cleared(l, Named(env, ys))
  {
    hide Stuck, FirstStuck, Cleared;
    assert forall i :: 0 <= i < |xs| ==> xs[i] in ys;
    assert forall i :: 0 <= i < |ys| ==> ys[i] in xs;
    assert Named(env, xs) == Named(env, ys);
  }

  lemma StartOfBurn(env: BurnEnv, l: Ledger, list: seq<Bytes>)
    ensures Named(env, list[..0]) == {} && Cleared(l, {}) == l
    ensures forall d :: Amount(map[], d) == SumOver(l.balances, {}, d)
  {
    ClearedNothing(l);
  }

  lemma UndecodableIsStuck(env: BurnEnv, l: Ledger, address: Bytes)
    requires env.bech32(address).None?
    ensures Stuck(env, l, address)
  {
  }

  /** Clearing one more account adds exactly what it still held to the sum. */
  lemma ClearedAnother(l: Ledger, done: set<Account>, a: Account)
    requires Conserved(l)
    ensures var now := Cleared(l, done);
            && Cleared(now, {a}) == Cleared(l, done + {a}) && Conserved(Cleared(now, {a}))
            && (BalanceOf(now, a) == map[] ==> Cleared(now, {a}) == now)
            && (BalanceOf(now, a) != map[] ==> BalanceOf(now, a) == BalanceOf(l, a))
  {
    hide Cleared, Conserved, Amount, BalanceIn;
    var now := Cleared(l, done);
    ClearedKeepsBooks(l, done);
    ClearedKeepsBooks(now, {a});
    ClearedComposes(l, done, {a});
    if BalanceOf(now, a) == map[] {
      ClearedEmptyAccount(now, a);
    }
  }

  lemma SumOfAnother(l: Ledger, done: set<Account>, a: Account)
    ensures var now := Cleared(l, done);
            forall d :: SumOver(l.balances, done + {a}, d)
                        == SumOver(l.balances, done, d)
                           + (if BalanceOf(now, a) == map[] then 0 else Amount(BalanceOf(now, a), d))
  {
    hide Without, SupplyWithout, Amount, BalanceIn;
    var now := Cleared(l, done);
    forall d ensures SumOver(l.balances, done + {a}, d)
                     == SumOver(l.balances, done, d)
                        + (if BalanceOf(now, a) == map[] then 0 else Amount(BalanceOf(now, a), d))
    {
      SumOfCleared(l.balances, done, {a}, d);
      SumWithout(now.balances, {a}, a, d);
      assert {a} - {a} == {};
      NoCoins(d);
    }
  }
}
