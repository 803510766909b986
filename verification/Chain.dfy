/** The chain as a state machine over blocks and transactions, and what holds in every state
    it can reach. */
module Chain {
  import opened Machine
  import opened Calendar
  import opened DateText
  import opened DistroParams
  import opened Schedule
  import opened MintingLimits
  import opened Ledger
  import opened SecurityBurn
  import opened MsgServer

  const MIN_GAS_PRICE_HOTFIX_HEIGHT: int := 340100
  const SECURITY_BURN_HEIGHT: int := 670553

  /** Which minimum gas prices the fee market's `SetParams` stores without an error. */
  type FeeMarket = int -> bool

  /** `BeginBlocker`'s height switch. A failing hotfix or burn panics, and the node halts. */
  class App {
    const env: BurnEnv
    const burnList: seq<Bytes>
    const bank: Bank
    const stores: FeeMarket
    var minGasPrice: int

    constructor (env: BurnEnv, burnList: seq<Bytes>, bank: Bank, stores: FeeMarket, minGasPrice: int)
      ensures this.env == env && this.burnList == burnList && this.bank == bank
      ensures this.stores == stores && this.minGasPrice == minGasPrice
    {
      this.env, this.burnList, this.bank := env, burnList, bank;
      this.stores, this.minGasPrice := stores, minGasPrice;
    }

    method BeginBlocker(height: int) returns (halted: bool)
      requires Conserved(bank.View())
      modifies this`minGasPrice, bank
      ensures Conserved(bank.View())
      ensures minGasPrice == if height == MIN_GAS_PRICE_HOTFIX_HEIGHT && stores(0) then 0 else old(minGasPrice)
      ensures halted <==> || (height == MIN_GAS_PRICE_HOTFIX_HEIGHT && !stores(0))
                          || (height == SECURITY_BURN_HEIGHT && !BurnSucceeds(env, burnList, old(bank.View())))
      ensures bank.View() == if height == SECURITY_BURN_HEIGHT
                             then var n := FirstStuck(env, old(bank.View()), burnList);
                                  Cleared(old(bank.View()), Named(env, burnList[..n]))
                             else old(bank.View())
    {
      hide Conserved, Cleared;
      halted := false;
      if height == MIN_GAS_PRICE_HOTFIX_HEIGHT {
        if !stores(0) {
          return true;
        }
        minGasPrice := 0;
      }
      if height == SECURITY_BURN_HEIGHT {
        var err, burned := ApplySecurityBurn(bank, env, burnList);
        assert burnList[..|burnList|] == burnList;
        halted := err.Some?;
      }
    }
  }

  predicate BurnSucceeds(env: BurnEnv, list: seq<Bytes>, l: Ledger) {
    FirstStuck(env, l, list) == |list|
  }

  datatype ChainEnv = ChainEnv(server: Env, burnList: seq<Bytes>, stores: FeeMarket) {
    function Burn(): BurnEnv {
      BurnEnv(server.sdk.bech32, server.locked, server.vm)
    }
  }

  /** `burns` counts the executions of the security burn. */
  datatype State = State(
    ledger: Ledger,
    params: Option<Params>,
    height: int,
    today: Date,
    minGasPrice: int,
    burns: nat)

  /** A step of the chain. Other modules can move coins or destroy their own. */
  datatype Step =
    | Mint(mint: MsgMint)
    | Update(update: MsgUpdateParams)
    | Transfer(from: Account, to: Account, coins: Coins)
    | Destroy(owner: Account, coins: Coins)
    | BeginBlock(height: int, today: Date)

  /** Blocks come at increasing heights and non-decreasing times, and one whose hotfix or burn
      fails never begins. Transactions are always possible; one may be refused. */
  predicate Enabled(env: ChainEnv, st: State, step: Step) {
    st.today.Valid()
    && (step.BeginBlock? ==>
          && step.height > st.height && step.today.Valid() && AtMost(st.today, step.today)
          && (step.height == MIN_GAS_PRICE_HOTFIX_HEIGHT ==> env.stores(0))
          && (step.height == SECURITY_BURN_HEIGHT ==> BurnSucceeds(env.Burn(), env.burnList, st.ledger)))
  }

  ghost function Apply(env: ChainEnv, st: State, step: Step): State
    requires Enabled(env, st, step)
  {
    match step
    case Mint(msg) =>
      st.(ledger := AfterMint(env.server, st.params, st.ledger, st.today, msg))
    case Update(msg) =>
      if UpdateRefusal(env.server, msg).None? then st.(params := Some(msg.params)) else st
    case Transfer(from, to, coins) =>
      if Covers(BalanceOf(st.ledger, from), coins) then st.(ledger := Sent(st.ledger, from, to, coins)) else st
    case Destroy(owner, coins) =>
      if Covers(BalanceOf(st.ledger, owner), coins) && Covers(st.ledger.supply, coins)
      then st.(ledger := Burned(st.ledger, owner, coins)) else st
    case BeginBlock(height, today) =>
      var burning := height == SECURITY_BURN_HEIGHT;
      State(if burning then Cleared(st.ledger, Named(env.Burn(), env.burnList)) else st.ledger,
            st.params, height, today,
            if height == MIN_GAS_PRICE_HOTFIX_HEIGHT then 0 else st.minGasPrice,
            if burning then st.burns + 1 else st.burns)
  }

  /** A run is a sequence of steps each enabled when its turn comes. */
  ghost predicate Legal(env: ChainEnv, st: State, steps: seq<Step>)
    decreases |steps|
  {
    steps == [] || (Enabled(env, st, steps[0]) && Legal(env, Apply(env, st, steps[0]), steps[1..]))
  }

  ghost function Run(env: ChainEnv, st: State, steps: seq<Step>): State
    requires Legal(env, st, steps)
    decreases |steps|
  {
    if steps == [] then st else Run(env, Apply(env, st, steps[0]), steps[1..])
  }

  /** Runs compose: a run of `a + b` is a run of `a` and then one of `b`, and a run of one
      step is that step. */
  lemma {:induction false} RunsCompose(env: ChainEnv, st: State, a: seq<Step>, b: seq<Step>)
    ensures Legal(env, st, a + b) <==> Legal(env, st, a) && Legal(env, Run(env, st, a), b)
    ensures Legal(env, st, a + b) ==> Run(env, st, a + b) == Run(env, Run(env, st, a), b)
    decreases |a|
  {
    hide Enabled, Apply;
    if a == [] {
      assert a + b == b;
    } else {
      assert (a + b)[0] == a[0] && (a + b)[1..] == a[1..] + b;
      if Enabled(env, st, a[0]) {
        RunsCompose(env, Apply(env, st, a[0]), a[1..], b);
      }
    }
  }

  lemma OneStep(env: ChainEnv, st: State, step: Step)
    ensures Legal(env, st, []) && Run(env, st, []) == st
    ensures Legal(env, st, [step]) <==> Enabled(env, st, step)
    ensures Legal(env, st, [step]) ==> Run(env, st, [step]) == Apply(env, st, step)
  {
    hide Enabled, Apply;
    assert [step][1..] == [];
  }

  // The books

  lemma StepConserves(env: ChainEnv, st: State, step: Step)
    requires Enabled(env, st, step) && Conserved(st.ledger)
    ensures Conserved(Apply(env, st, step).ledger)
  {
    hide Conserved, Minted, Sent, Burned, Cleared, Covers, Refusal;
    match step
    case Mint(msg) =>
      if Refusal(env.server, st.params, st.ledger, st.today, msg).None? {
        MintConserves(st.ledger, env.server.decode(st.params.value.receivingAddress).value,
              MintedCoins(st.params.value, msg));
      }
    case Update(msg) =>
    case Transfer(from, to, coins) =>
      if Covers(BalanceOf(st.ledger, from), coins) {
        SendConserves(st.ledger, from, to, coins);
      }
    case Destroy(owner, coins) =>
      if Covers(BalanceOf(st.ledger, owner), coins) {
        BurnConserves(st.ledger, owner, coins);
      }
    case BeginBlock(height, today) =>
      ClearedKeepsBooks(st.ledger, Named(env.Burn(), env.burnList));
  }

  /** In every state of every run, the supply of each denom is the sum of its balances. */
  lemma {:induction false} RunConserves(env: ChainEnv, st: State, steps: seq<Step>)
    requires Legal(env, st, steps) && Conserved(st.ledger)
    ensures Conserved(Run(env, st, steps).ledger)
    ensures var end := Run(env, st, steps).ledger;
            forall d :: Amount(end.supply, d) == SumOver(end.balances, end.balances.Keys, d)
    decreases |steps|
  {
    hide Apply, Enabled, SumOver, Amount;
    if steps != [] {
      StepConserves(env, st, steps[0]);
      RunConserves(env, Apply(env, st, steps[0]), steps[1..]);
    }
  }

  predicate PassesBurnHeight(steps: seq<Step>) {
    exists i :: 0 <= i < |steps| && steps[i].BeginBlock? && steps[i].height == SECURITY_BURN_HEIGHT
  }

  /** Every run executes the burn as often as it passes the burn height, which is at most
      once, and never again after that height. */
  lemma {:induction false} BurnRunsAtMostOnce(env: ChainEnv, st: State, steps: seq<Step>)
    requires Legal(env, st, steps)
    ensures Run(env, st, steps).height >= st.height
    ensures Run(env, st, steps).burns
            == st.burns + if PassesBurnHeight(steps) then 1 else 0
    ensures st.height >= SECURITY_BURN_HEIGHT ==> !PassesBurnHeight(steps)
    decreases |steps|
  {
    hide Apply, Enabled;
    if steps != [] {
      BurnsAfterStep(env, st, steps[0]);
      PassesFirstOrLater(steps);
      BurnRunsAtMostOnce(env, Apply(env, st, steps[0]), steps[1..]);
      hide PassesBurnHeight;
    }
  }

  lemma BurnsAfterStep(env: ChainEnv, st: State, step: Step)
    requires Enabled(env, st, step)
    ensures var next := Apply(env, st, step);
            && next.height == (if step.BeginBlock? then step.height else st.height) >= st.height
            && next.burns == st.burns + (if PassesBurnHeight([step]) then 1 else 0)
            && (PassesBurnHeight([step]) ==> st.height < SECURITY_BURN_HEIGHT == next.height)
  {
    hide AfterMint, UpdateRefusal, Sent, Burned, Cleared, Covers;
    assert PassesBurnHeight([step]) <==> step.BeginBlock? && step.height == SECURITY_BURN_HEIGHT by {
      assert [step][0] == step;
    }
  }

  lemma PassesFirstOrLater(steps: seq<Step>)
    requires steps != []
    ensures PassesBurnHeight(steps) <==> PassesBurnHeight([steps[0]]) || PassesBurnHeight(steps[1..])
  {
    assert [steps[0]][0] == steps[0];
    assert forall i :: 0 < i < |steps| ==> steps[i] == steps[1..][i - 1];
  }

  // The parameters

  /** What every stored parameter set offers the minting schedule. */
  predicate Usable(stored: Option<Params>) {
    stored.Some? ==>
      stored.value.monthsInHalvingPeriod > 0 && ParseDate(stored.value.distributionStartDate).Some?
  }

  /** A genesis that passes its check is usable, and every update keeps it so. */
  lemma {:induction false} ParamsStayUsable(env: ChainEnv, st: State, steps: seq<Step>)
    requires Legal(env, st, steps) && Usable(st.params)
    ensures Usable(Run(env, st, steps).params)
    decreases |steps|
  {
    if steps != [] {
      ParamsStayUsable(env, Apply(env, st, steps[0]), steps[1..]);
    }
  }

  lemma UsableGenesis(sdk: Syntax, genesis: Params)
    requires ValidateGenesis(sdk, genesis).None?
    ensures Usable(Some(genesis))
  {
  }

  /** From any genesis that passes `GenesisState.Validate`, no mint in any reachable state
      divides by zero or fails on the start date. */
  lemma MintNeverTripsOnParams(env: ChainEnv, st: State, genesis: Params, steps: seq<Step>, msg: MsgMint)
    requires ValidateGenesis(env.server.sdk, genesis).None? && st.params == Some(genesis)
    requires Legal(env, st, steps) && st.today.Valid()
    ensures var end := Run(env, st, steps);
            && end.today.Valid()
            && (forall why :: Refusal(env.server, end.params, end.ledger, end.today, msg) == Some(Limit(why))
                              ==> why != BadStart && why != DivideByZero)
  {
    hide Run, Legal, ParseDate, Ceiling64, CanSpend, Minted, Amount, DaysIn;
    UsableGenesis(env.server.sdk, genesis);
    ParamsStayUsable(env, st, steps);
    TodayStaysValid(env, st, steps);
  }

  lemma {:induction false} TodayStaysValid(env: ChainEnv, st: State, steps: seq<Step>)
    requires Legal(env, st, steps) && st.today.Valid()
    ensures Run(env, st, steps).today.Valid() && AtMost(st.today, Run(env, st, steps).today)
    decreases |steps|
  {
    hide DaysIn;
    if steps != [] {
      TodayStaysValid(env, Apply(env, st, steps[0]), steps[1..]);
    }
  }
}
