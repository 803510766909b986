/** What the minting rules guarantee: single mints, batches of mints on one day, and whole
    runs of the chain. */
module MintSafety {
  import opened Machine
  import opened Calendar
  import opened DateText
  import opened DistroParams
  import opened Schedule
  import opened ScheduleProperties
  import opened MintingLimits
  import opened Ledger
  import opened SecurityBurn
  import opened MsgServer
  import opened Chain

  // One mint

  /** The schedule check alone keeps the supply within the maximum, strictly below a
      positive one, so the explicit maximum-supply check never decides. */
  lemma LimitCheckImpliesMaxSupply(long: LongPeriods, params: Params, today: Date, supply: nat, amount: nat)
    requires today.Valid() && CheckLimits(long, params, today, supply, amount).None?
    ensures supply + amount <= CeilingOn(long, params, today) <= params.maxSupply
    ensures params.maxSupply > 0 ==> supply + amount < params.maxSupply
  {
    hide CeilingOn, NoCeiling;
    CeilingWithinMax(long, params, today);
  }

  /** Whether any mint can succeed under these parameters: the minting address decodes, the
      denom is legal and the receiver can be paid. */
  predicate CanMint(env: Env, p: Params) {
    && env.decode(p.mintingAddress).Some? && env.sdk.denom(p.denom)
    && env.decode(p.receivingAddress).Some? && !env.blocked(env.decode(p.receivingAddress).value)
  }

  /** Everything a mint needs besides room under the ceiling. */
  predicate Ready(env: Env, params: Params, today: Date, signer: Bytes)
    requires today.Valid()
  {
    CanMint(env, params) && env.decode(signer) == env.decode(params.mintingAddress) && NoCeiling(params, today).None?
  }

  /** A mint is accepted exactly when there are parameters, the signer is the minting
      account, the schedule has started, the receiver can be paid, and the new supply is
      within today's ceiling. The module account itself has no locked coins. */
  lemma MintAcceptedIff(env: Env, stored: Option<Params>, l: Ledger, today: Date, msg: MsgMint)
    requires today.Valid() && env.locked(env.distro) == map[]
    ensures Refusal(env, stored, l, today, msg).None?
            <==> stored.Some? && env.decode(msg.signer).Some?
                 && env.decode(stored.value.mintingAddress) == env.decode(msg.signer)
                 && NoCeiling(stored.value, today).None? && env.sdk.denom(stored.value.denom)
                 && env.decode(stored.value.receivingAddress).Some?
                 && !env.blocked(env.decode(stored.value.receivingAddress).value)
                 && Amount(l.supply, stored.value.denom) + msg.amount <= CeilingOn(env.longPeriods, stored.value, today)
  {
    hide CeilingOn, NoCeiling, CanSpend, Minted, OneCoin, Amount;
    if stored.Some? {
      var params := stored.value;
      if NoCeiling(params, today).None? {
        CeilingWithinMax(env.longPeriods, params, today);
      }
      NewCoinsSpendable(l, env.distro, MintedCoins(params, msg));
    }
  }

  /** An accepted mint raises one balance and one supply by the amount, and nothing else:
      the module account the coins pass through ends as it began. */
  lemma AcceptedMintEffect(env: Env, params: Params, l: Ledger, today: Date, msg: MsgMint, a: Account, d: Denom)
    requires today.Valid() && Refusal(env, Some(params), l, today, msg).None?
    ensures var after := AfterMint(env, Some(params), l, today, msg);
            var receiver := env.decode(params.receivingAddress).value;
            && Amount(after.supply, d) == Amount(l.supply, d) + (if d == params.denom then msg.amount else 0)
            && Amount(BalanceOf(after, a), d)
               == Amount(BalanceOf(l, a), d) + (if a == receiver && d == params.denom then msg.amount else 0)
            && (receiver != env.distro ==> BalanceOf(after, env.distro) == BalanceOf(l, env.distro))
  {
    hide Refusal, AddCoins, Amount, BalanceIn, Store, OneCoin;
  }

  /** Whatever the schedule's arithmetic does, an accepted mint under a positive maximum
      supply ends strictly below it. */
  lemma AcceptedMintBelowMax(env: Env, params: Params, l: Ledger, today: Date, msg: MsgMint)
    requires today.Valid() && Refusal(env, Some(params), l, today, msg).None? && params.maxSupply > 0
    ensures Amount(AfterMint(env, Some(params), l, today, msg).supply, params.denom) < params.maxSupply
  {
    hide AfterMint, LateRefusal, CheckLimits, Amount, DaysIn;
    AcceptedMintEffect(env, params, l, today, msg, [], params.denom);
    LimitCheckImpliesMaxSupply(env.longPeriods, params, today, Amount(l.supply, params.denom), msg.amount);
  }

  lemma NewCoinsSpendable(l: Ledger, a: Account, coins: Coins)
    ensures CanSpend(Minted(l, a, coins), map[], a, coins)
  {
  }

  // A batch on one day

  /** Whether a sequence of mints by one signer on one day is accepted throughout. */
  predicate AllAccepted(env: Env, params: Params, l: Ledger, today: Date, signer: Bytes, amounts: seq<uint64>)
    requires today.Valid()
    decreases |amounts|
  {
    amounts == []
    || var msg := MsgMint(amounts[0], signer);
       Refusal(env, Some(params), l, today, msg).None?
       && AllAccepted(env, params, AfterMint(env, Some(params), l, today, msg), today, signer, amounts[1..])
  }

  function AfterAll(env: Env, params: Params, l: Ledger, today: Date, signer: Bytes, amounts: seq<uint64>): Ledger
    requires today.Valid()
    decreases |amounts|
  {
    if amounts == [] then l
    else AfterAll(env, params, AfterMint(env, Some(params), l, today, MsgMint(amounts[0], signer)), today,
          signer, amounts[1..])
  }

  function Sum(amounts: seq<uint64>): nat {
    if amounts == [] then 0 else amounts[0] + Sum(amounts[1..])
  }

  lemma MintTwice(l: Ledger, a: Account, denom: Denom, x: nat, y: nat)
    ensures Minted(Minted(l, a, OneCoin(denom, x)), a, OneCoin(denom, y)) == Minted(l, a, OneCoin(denom, x + y))
  {
    hide AddCoins, OneCoin, Amount, Store, BalanceIn;
    var c, d, cd := OneCoin(denom, x), OneCoin(denom, y), OneCoin(denom, x + y);
    SameAmounts(AddCoins(AddCoins(l.supply, c), d), AddCoins(l.supply, cd));
    var b := BalanceOf(l, a);
    SameAmounts(AddCoins(AddCoins(b, c), d), AddCoins(b, cd));
    SameBalances(Minted(Minted(l, a, c), a, d).balances, Minted(l, a, cd).balances);
  }

  lemma MintNothing(l: Ledger, a: Account, denom: Denom)
    ensures Minted(l, a, OneCoin(denom, 0)) == l
  {
    SameAmounts(AddCoins(l.supply, map[]), l.supply);
    SameAmounts(AddCoins(BalanceOf(l, a), map[]), BalanceOf(l, a));
    SameBalances(Minted(l, a, map[]).balances, l.balances);
  }

  /** A non-empty batch is accepted throughout exactly when the supply plus the integer sum
      of its amounts is within the ceiling, and an accepted batch leaves the very ledger one
      mint of the sum leaves. Only the sum matters: splitting, merging or reordering mints
      changes neither. */
  lemma BatchIsItsSum(env: Env, params: Params, l: Ledger, today: Date, signer: Bytes, amounts: seq<uint64>,
        receiver: Account)
    requires today.Valid() && Ready(env, params, today, signer) && env.locked(env.distro) == map[]
    requires env.decode(params.receivingAddress) == Some(receiver)
    ensures amounts != [] ==>
              (AllAccepted(env, params, l, today, signer, amounts)
               <==> Amount(l.supply, params.denom) + Sum(amounts) <= CeilingOn(env.longPeriods, params, today))
    ensures AllAccepted(env, params, l, today, signer, amounts) ==>
              AfterAll(env, params, l, today, signer, amounts)
              == Minted(l, receiver, OneCoin(params.denom, Sum(amounts)))
  {
    hide CeilingOn, Minted, Amount, OneCoin, Ready, AllAccepted, AfterAll, Sum;
    BatchAcceptance(env, params, l, today, signer, amounts, receiver);
    if AllAccepted(env, params, l, today, signer, amounts) {
      BatchLedger(env, params, l, today, signer, amounts, receiver);
    }
  }

  lemma {:induction false} BatchAcceptance(env: Env, params: Params, l: Ledger, today: Date, signer: Bytes,
        amounts: seq<uint64>, receiver: Account)
    requires today.Valid() && Ready(env, params, today, signer) && env.locked(env.distro) == map[]
    requires env.decode(params.receivingAddress) == Some(receiver)
    ensures amounts != [] ==>
              (AllAccepted(env, params, l, today, signer, amounts)
               <==> Amount(l.supply, params.denom) + Sum(amounts) <= CeilingOn(env.longPeriods, params, today))
    decreases |amounts|
  {
    hide CeilingOn, Refusal, AfterMint, Minted, Amount, OneCoin, Ready, AllAccepted, AfterAll, Sum;
    UnfoldBatch(env, params, l, today, signer, amounts);
    if amounts != [] {
      var x := amounts[0];
      FirstOfBatch(env, params, l, today, signer, x, receiver);
      SupplyAfterMint(l, receiver, params.denom, x);
      BatchAcceptance(env, params, Minted(l, receiver, OneCoin(params.denom, x)), today, signer, amounts[1..],
            receiver);
    }
  }

  lemma {:induction false} BatchLedger(env: Env, params: Params, l: Ledger, today: Date, signer: Bytes,
        amounts: seq<uint64>, receiver: Account)
    requires today.Valid() && AllAccepted(env, params, l, today, signer, amounts)
    requires env.decode(params.receivingAddress) == Some(receiver)
    ensures AfterAll(env, params, l, today, signer, amounts)
            == Minted(l, receiver, OneCoin(params.denom, Sum(amounts)))
    decreases |amounts|
  {
    hide Refusal, AfterMint, Minted, OneCoin, AllAccepted, AfterAll, Sum, DaysIn, AddCoins, Amount, BalanceIn, Store;
    UnfoldBatch(env, params, l, today, signer, amounts);
    if amounts == [] {
      MintNothing(l, receiver, params.denom);
    } else {
      var x, rest := amounts[0], amounts[1..];
      AcceptedIsMinted(env, params, l, today, MsgMint(x, signer), receiver);
      BatchLedger(env, params, Minted(l, receiver, OneCoin(params.denom, x)), today, signer, rest, receiver);
      MintTwice(l, receiver, params.denom, x, Sum(rest));
    }
  }

  lemma AcceptedIsMinted(env: Env, params: Params, l: Ledger, today: Date, msg: MsgMint, receiver: Account)
    requires today.Valid() && Refusal(env, Some(params), l, today, msg).None?
    requires env.decode(params.receivingAddress) == Some(receiver)
    ensures AfterMint(env, Some(params), l, today, msg) == Minted(l, receiver, OneCoin(params.denom, msg.amount))
  {
  }

  lemma UnfoldBatch(env: Env, params: Params, l: Ledger, today: Date, signer: Bytes, amounts: seq<uint64>)
    requires today.Valid()
    ensures amounts == [] ==> AfterAll(env, params, l, today, signer, amounts) == l && Sum(amounts) == 0
    ensures amounts != [] ==>
              var msg, rest := MsgMint(amounts[0], signer), amounts[1..];
              var next := AfterMint(env, Some(params), l, today, msg);
              && (AllAccepted(env, params, l, today, signer, amounts)
                  <==> Refusal(env, Some(params), l, today, msg).None?
                        && AllAccepted(env, params, next, today, signer, rest))
              && AfterAll(env, params, l, today, signer, amounts) == AfterAll(env, params, next, today, signer, rest)
              && Sum(amounts) == amounts[0] + Sum(rest)
              && (rest == [] ==> AllAccepted(env, params, next, today, signer, rest) && Sum(rest) == 0)
  {
  }

  lemma FirstOfBatch(env: Env, params: Params, l: Ledger, today: Date, signer: Bytes, x: uint64, receiver: Account)
    requires today.Valid() && Ready(env, params, today, signer) && env.locked(env.distro) == map[]
    requires env.decode(params.receivingAddress) == Some(receiver)
    ensures var msg := MsgMint(x, signer);
            && (Refusal(env, Some(params), l, today, msg).None?
                <==> Amount(l.supply, params.denom) + x <= CeilingOn(env.longPeriods, params, today))
            && (Refusal(env, Some(params), l, today, msg).None? ==>
                  AfterMint(env, Some(params), l, today, msg) == Minted(l, receiver, OneCoin(params.denom, x)))
  {
    hide CeilingOn, NoCeiling, Minted, Amount, OneCoin, EarlyRefusal, LateRefusal;
    MintAcceptedIff(env, Some(params), l, today, MsgMint(x, signer));
  }

  lemma SupplyAfterMint(l: Ledger, a: Account, denom: Denom, amount: nat)
    ensures Amount(Minted(l, a, OneCoin(denom, amount)).supply, denom) == Amount(l.supply, denom) + amount
  {
  }

  // Whole runs

  /** The schedule has started, and the supply of the parameters' denom is within the day's
      ceiling as long as the program has one. */
  ghost predicate UnderCeiling(env: ChainEnv, p: Params, st: State) {
    && st.today.Valid() && Started(p, st.today)
    && (NoCeiling(p, st.today).None? ==>
          Amount(st.ledger.supply, p.denom) <= CeilingOn(env.server.longPeriods, p, st.today))
  }

  /** There is a start date, it has come, and the period is positive and supported. */
  predicate Started(p: Params, today: Date) {
    && 0 < p.monthsInHalvingPeriod <= MAX_PERIOD_MONTHS
    && ParseDate(p.distributionStartDate).Some?
    && AtMost(ParseDate(p.distributionStartDate).value, today)
  }

  ghost predicate ParamsFixed(steps: seq<Step>) {
    forall i :: 0 <= i < |steps| ==> !steps[i].Update?
  }

  /** Whether the schedule of these parameters is free of wrap-around. */
  predicate WrapFree(p: Params)
    requires p.monthsInHalvingPeriod > 0 && ParseDate(p.distributionStartDate).Some?
  {
    NoWrap(ParseDate(p.distributionStartDate).value, p.monthsInHalvingPeriod, p.maxSupply)
  }

  /** No step but an accepted mint raises the supply. */
  lemma SupplyAfterStep(env: ChainEnv, st: State, step: Step, d: Denom)
    requires Enabled(env, st, step) && Conserved(st.ledger)
    ensures Amount(Apply(env, st, step).ledger.supply, d) > Amount(st.ledger.supply, d) ==>
              && step.Mint? && Refusal(env.server, st.params, st.ledger, st.today, step.mint).None?
              && d == st.params.value.denom
              && Amount(Apply(env, st, step).ledger.supply, d) == Amount(st.ledger.supply, d) + step.mint.amount
  {
    hide Refusal, Store, AddCoins, SubCoins, Conserved, BalanceIn, Without, SupplyWithout, Covers, OneCoin, Amount;
    if step.BeginBlock? {
      ClearedKeepsBooks(st.ledger, Named(env.Burn(), env.burnList));
    }
  }

  lemma AcceptedMintUnderCeiling(env: Env, p: Params, l: Ledger, today: Date, msg: MsgMint)
    requires today.Valid() && Refusal(env, Some(p), l, today, msg).None?
    ensures NoCeiling(p, today).None?
    ensures Amount(l.supply, p.denom) + msg.amount <= CeilingOn(env.longPeriods, p, today)
  {
    hide NoCeiling, CeilingOn, Minted, CanSpend;
  }

  /** Once the schedule has started, today has a ceiling exactly up to the end of year 9999,
      and with wrap-free parameters a later ceiling is no lower. */
  lemma CeilingRises(long: LongPeriods, p: Params, t: Date, u: Date)
    requires t.Valid() && u.Valid() && AtMost(t, u) && Started(p, t) && WrapFree(p)
    ensures Started(p, u)
    ensures NoCeiling(p, u).None? ==> NoCeiling(p, t).None? && CeilingOn(long, p, t) <= CeilingOn(long, p, u)
  {
    hide ParseDate, Ceiling64, NoWrap, DaysIn;
    var start := ParseDate(p.distributionStartDate).value;
    Later(start, t, u);
    DatesInRange(u);
    NoWrapIsExact(start, p.monthsInHalvingPeriod, p.maxSupply);
  }

  lemma StepStaysUnderCeiling(env: ChainEnv, p: Params, st: State, step: Step)
    requires Enabled(env, st, step) && Conserved(st.ledger) && !step.Update?
    requires st.params == Some(p) && UnderCeiling(env, p, st) && WrapFree(p)
    ensures UnderCeiling(env, p, Apply(env, st, step))
  {
    hide Conserved, Refusal, Amount, Sent, Minted, Burned, Cleared, Covers, NoCeiling, CeilingOn, Started, WrapFree,
          Before, DaysIn;
    var next := Apply(env, st, step);
    SupplyAfterStep(env, st, step, p.denom);
    if step.Mint? && Refusal(env.server, st.params, st.ledger, st.today, step.mint).None? {
      AcceptedMintUnderCeiling(env.server, p, st.ledger, st.today, step.mint);
    }
    if step.BeginBlock? {
      CeilingRises(env.server.longPeriods, p, st.today, next.today);
    }
  }

  /** Once the supply is within the ceiling it stays so in every later state of every run
      with fixed, wrap-free parameters. */
  lemma {:induction false} RunStaysUnderCeiling(env: ChainEnv, p: Params, st: State, steps: seq<Step>)
    requires Legal(env, st, steps) && ParamsFixed(steps) && Conserved(st.ledger)
    requires st.params == Some(p) && UnderCeiling(env, p, st) && WrapFree(p)
    ensures UnderCeiling(env, p, Run(env, st, steps))
    decreases |steps|
  {
    hide Conserved, Enabled, UnderCeiling, WrapFree;
    if steps != [] {
      StepConserves(env, st, steps[0]);
      StepStaysUnderCeiling(env, p, st, steps[0]);
      RunStaysUnderCeiling(env, p, Apply(env, st, steps[0]), steps[1..]);
    }
  }

  /** Two successive accepted dates between which the ceiling drops, for parameters that
      wrap. */
  lemma CeilingDrops(long: LongPeriods, p: Params) returns (t: Date)
    requires 0 < p.monthsInHalvingPeriod <= MAX_PERIOD_MONTHS
    requires ParseDate(p.distributionStartDate).Some? && !WrapFree(p)
    ensures t.Valid() && NextDay(t).Valid() && AtMost(t, NextDay(t)) && Started(p, t)
    ensures NoCeiling(p, t).None? && NoCeiling(p, NextDay(t)).None?
    ensures CeilingOn(long, p, NextDay(t)) < CeilingOn(long, p, t)
  {
    hide Ceiling64, ParseDate, NextDay, DaysIn, NoWrap;
    t := WrapDropsCeiling(ParseDate(p.distributionStartDate).value, p.monthsInHalvingPeriod, p.maxSupply);
    Later(t, NextDay(t), LAST_DAY);
    DatesInRange(t);
    DatesInRange(NextDay(t));
  }

  lemma OneHolder(holder: Account, denom: Denom, amount: nat) returns (l: Ledger)
    ensures Conserved(l) && Amount(l.supply, denom) == amount
  {
    NothingYet(denom);
    l := Minted(EMPTY_LEDGER, holder, OneCoin(denom, amount));
    MintConserves(EMPTY_LEDGER, holder, OneCoin(denom, amount));
    SupplyAfterMint(EMPTY_LEDGER, holder, denom, amount);
  }

  /** The exact condition for the run-long safety of the ceiling: it can be read off the
      parameters before the run. */
  lemma SafeIffWrapFree(env: ChainEnv, p: Params)
    requires 0 < p.monthsInHalvingPeriod <= MAX_PERIOD_MONTHS && ParseDate(p.distributionStartDate).Some?
    ensures WrapFree(p) <==>
            forall st: State, steps: seq<Step>
              | Legal(env, st, steps) && ParamsFixed(steps) && Conserved(st.ledger)
                && st.params == Some(p) && UnderCeiling(env, p, st)
              :: UnderCeiling(env, p, Run(env, st, steps))
  {
    hide WrapFree, Conserved, ParseDate, NoCeiling, CeilingOn, Started, Amount, NextDay, DaysIn;
    if WrapFree(p) {
      forall st: State, steps: seq<Step>
        | Legal(env, st, steps) && ParamsFixed(steps) && Conserved(st.ledger)
          && st.params == Some(p) && UnderCeiling(env, p, st)
        ensures UnderCeiling(env, p, Run(env, st, steps))
      {
        RunStaysUnderCeiling(env, p, st, steps);
      }
    } else {
      var t := CeilingDrops(env.server.longPeriods, p);
      var l := OneHolder([], p.denom, CeilingOn(env.server.longPeriods, p, t));
      var st, step := State(l, Some(p), 0, t, 0, 0), BeginBlock(1, NextDay(t));
      OneStep(env, st, step);
      assert UnderCeiling(env, p, st);
      assert ParamsFixed([step]);
    }
  }

  // Runs from nothing

  const EMPTY_LEDGER := Ledger(map[], map[])

  lemma NothingYet(d: Denom)
    ensures Conserved(EMPTY_LEDGER) && Amount(EMPTY_LEDGER.supply, d) == 0
  {
  }

  /** A mint of all the day allows, out of nothing. */
  lemma MintTheCeiling(env: Env, p: Params, t: Date)
    requires t.Valid() && NoCeiling(p, t).None? && CanMint(env, p) && env.locked(env.distro) == map[]
    ensures CeilingOn(env.longPeriods, p, t) < TWO_64
    ensures var msg := MsgMint(CeilingOn(env.longPeriods, p, t), p.mintingAddress);
            && Refusal(env, Some(p), EMPTY_LEDGER, t, msg).None?
            && Amount(AfterMint(env, Some(p), EMPTY_LEDGER, t, msg).supply, p.denom) == CeilingOn(env.longPeriods, p, t)
  {
    hide CeilingOn, NoCeiling, Refusal, AfterMint, Amount;
    CeilingWithinMax(env.longPeriods, p, t);
    var msg := MsgMint(CeilingOn(env.longPeriods, p, t), p.mintingAddress);
    NothingYet(p.denom);
    MintAcceptedIff(env, Some(p), EMPTY_LEDGER, t, msg);
    AcceptedMintEffect(env, p, EMPTY_LEDGER, t, msg, [], p.denom);
  }

  /** With parameters that wrap, a run of two steps from an empty ledger ends above the
      ceiling: an accepted mint of all the day allows, and the block of the next day. */
  lemma WrapBreaksSafety(env: ChainEnv, p: Params) returns (st: State, steps: seq<Step>)
    requires 0 < p.monthsInHalvingPeriod <= MAX_PERIOD_MONTHS
    requires ParseDate(p.distributionStartDate).Some? && !WrapFree(p)
    requires CanMint(env.server, p) && env.server.locked(env.server.distro) == map[]
    ensures st.ledger == EMPTY_LEDGER && st.params == Some(p) && st.today.Valid() && Started(p, st.today)
    ensures |steps| == 2 && steps[0].Mint? && steps[1].BeginBlock? && Legal(env, st, steps)
    ensures Refusal(env.server, st.params, st.ledger, st.today, steps[0].mint).None?
    ensures var end := Run(env, st, steps);
            && end.today.Valid() && NoCeiling(p, end.today).None?
            && Amount(end.ledger.supply, p.denom) > CeilingOn(env.server.longPeriods, p, end.today)
  {
    hide CeilingOn, NoCeiling, ParseDate, WrapFree, NextDay, DaysIn, Started, Refusal, AfterMint, CanMint, Amount,
          Legal, Run;
    var t := CeilingDrops(env.server.longPeriods, p);
    MintTheCeiling(env.server, p, t);
    st := State(EMPTY_LEDGER, Some(p), 0, t, 0, 0);
    steps := [Mint(MsgMint(CeilingOn(env.server.longPeriods, p, t), p.mintingAddress)), BeginBlock(1, NextDay(t))];
    TwoSteps(env, st, steps[0], steps[1]);
  }

  lemma TwoSteps(env: ChainEnv, st: State, first: Step, second: Step)
    requires Enabled(env, st, first) && Enabled(env, Apply(env, st, first), second)
    ensures Legal(env, st, [first, second])
    ensures Run(env, st, [first, second]) == Apply(env, Apply(env, st, first), second)
  {
    hide Enabled, Apply, Legal, Run;
    OneStep(env, st, first);
    OneStep(env, Apply(env, st, first), second);
    RunsCompose(env, st, [first], [second]);
    assert [first] + [second] == [first, second];
  }

  /** Where no mint can succeed, nothing is ever minted. */
  lemma {:induction false} NothingIsMinted(env: ChainEnv, p: Params, st: State, steps: seq<Step>)
    requires Legal(env, st, steps) && ParamsFixed(steps) && Conserved(st.ledger)
    requires st.params == Some(p) && st.today.Valid() && Started(p, st.today)
    requires !CanMint(env.server, p) && Amount(st.ledger.supply, p.denom) == 0
    ensures UnderCeiling(env, p, Run(env, st, steps))
    decreases |steps|
  {
    hide Conserved, Refusal, Amount, CanMint, NoCeiling, CeilingOn, ParseDate, DaysIn;
    if steps != [] {
      var next := Apply(env, st, steps[0]);
      StepConserves(env, st, steps[0]);
      SupplyAfterStep(env, st, steps[0], p.denom);
      if steps[0].Mint? && Refusal(env.server, st.params, st.ledger, st.today, steps[0].mint).None? {
        AcceptedMeansCanMint(env.server, p, st.ledger, st.today, steps[0].mint);
      }
      Later(ParseDate(p.distributionStartDate).value, st.today, next.today);
      NothingIsMinted(env, p, next, steps[1..]);
    }
  }

  lemma AcceptedMeansCanMint(env: Env, p: Params, l: Ledger, today: Date, msg: MsgMint)
    requires today.Valid() && Refusal(env, Some(p), l, today, msg).None?
    ensures CanMint(env, p)
  {
    hide CheckLimits, Minted, CanSpend;
  }

  /** The same from the very start: with nothing minted yet, every run stays within the
      ceiling if and only if the parameters are wrap-free or let nobody mint. */
  lemma SafeFromNothingIff(env: ChainEnv, p: Params)
    requires 0 < p.monthsInHalvingPeriod <= MAX_PERIOD_MONTHS && ParseDate(p.distributionStartDate).Some?
    requires env.server.locked(env.server.distro) == map[]
    ensures WrapFree(p) || !CanMint(env.server, p) <==>
            forall st: State, steps: seq<Step>
              | Legal(env, st, steps) && ParamsFixed(steps) && st.ledger == EMPTY_LEDGER
                && st.params == Some(p) && st.today.Valid() && Started(p, st.today)
              :: UnderCeiling(env, p, Run(env, st, steps))
  {
    hide WrapFree, Conserved, ParseDate, Legal, Run, NoCeiling, CeilingOn, Started, CanMint, Amount, DaysIn, Refusal;
    NothingYet(p.denom);
    if WrapFree(p) || !CanMint(env.server, p) {
      forall st: State, steps: seq<Step>
        | Legal(env, st, steps) && ParamsFixed(steps) && st.ledger == EMPTY_LEDGER
          && st.params == Some(p) && st.today.Valid() && Started(p, st.today)
        ensures UnderCeiling(env, p, Run(env, st, steps))
      {
        if WrapFree(p) {
          RunStaysUnderCeiling(env, p, st, steps);
        } else {
          NothingIsMinted(env, p, st, steps);
        }
      }
    } else {
      var st, steps := WrapBreaksSafety(env, p);
      assert ParamsFixed(steps);
    }
  }

  // Runs that change the parameters

  /** The largest maximum supply under which a mint of the denom is accepted along a run. */
  ghost function LargestCap(env: ChainEnv, st: State, steps: seq<Step>, d: Denom): nat
    requires Legal(env, st, steps)
    decreases |steps|
  {
    if steps == [] then 0
    else
      var rest := LargestCap(env, Apply(env, st, steps[0]), steps[1..], d);
      if steps[0].Mint? && Refusal(env.server, st.params, st.ledger, st.today, steps[0].mint).None?
         && st.params.value.denom == d && st.params.value.maxSupply > rest
      then st.params.value.maxSupply else rest
  }

  lemma StepWithinCap(env: ChainEnv, st: State, step: Step, d: Denom)
    requires Enabled(env, st, step) && Conserved(st.ledger)
    ensures var now, next := Amount(st.ledger.supply, d), Amount(Apply(env, st, step).ledger.supply, d);
            next <= now
            || (step.Mint? && Refusal(env.server, st.params, st.ledger, st.today, step.mint).None?
                && st.params.value.denom == d && next <= st.params.value.maxSupply)
  {
    hide Conserved, Refusal, Amount, Apply, NoCeiling, CeilingOn;
    SupplyAfterStep(env, st, step, d);
    if Amount(Apply(env, st, step).ledger.supply, d) > Amount(st.ledger.supply, d) {
      AcceptedMintUnderCeiling(env.server, st.params.value, st.ledger, st.today, step.mint);
      CeilingWithinMax(env.server.longPeriods, st.params.value, st.today);
    }
  }

  /** Whatever updates a run makes, the supply of a denom never exceeds the larger of what it
      was and the largest maximum supply stored for that denom when a mint was accepted. */
  lemma {:induction false} RunStaysWithinCaps(env: ChainEnv, st: State, steps: seq<Step>, d: Denom)
    requires Legal(env, st, steps) && Conserved(st.ledger)
    ensures var end := Amount(Run(env, st, steps).ledger.supply, d);
            end <= Amount(st.ledger.supply, d) || end <= LargestCap(env, st, steps, d)
    decreases |steps|
  {
    hide Conserved, Refusal, Amount, Apply, Enabled;
    if steps != [] {
      StepConserves(env, st, steps[0]);
      StepWithinCap(env, st, steps[0], d);
      RunStaysWithinCaps(env, Apply(env, st, steps[0]), steps[1..], d);
    }
  }
}
