/** What each step of the chain does, said by amounts and heights, and what the burn does in
    a run. */
module StepEffects {
  import opened Machine
  import opened Calendar
  import opened DateText
  import opened DistroParams
  import opened Ledger
  import opened SecurityBurn
  import opened MsgServer
  import opened MintSafety
  import opened Chain

  /** Which steps are possible: every transaction, and a block that is higher and not
      earlier, unless the fee market refuses the hotfix at 340100 or the burn cannot go
      through at 670553. */
  lemma EnabledIff(env: ChainEnv, st: State, step: Step)
    ensures Enabled(env, st, step) <==>
            && st.today.Valid()
            && (step.BeginBlock? ==>
                  && step.height > st.height && step.today.Valid() && !Before(step.today, st.today)
                  && (step.height == 340100 ==> env.stores(0))
                  && (step.height == 670553 ==>
                        forall i :: 0 <= i < |env.burnList| ==>
                          && env.server.sdk.bech32(env.burnList[i]).Some?
                          && var a := env.server.sdk.bech32(env.burnList[i]).value;
                             forall d :: Amount(BalanceOf(st.ledger, a), d) == 0
                                         || Amount(env.server.locked(a), d) == 0))
  {
    hide FirstStuck, Before, Amount, BalanceIn;
    BurnSucceedsIff(env.Burn(), st.ledger, env.burnList);
  }

  /** A mint that is refused changes nothing; an accepted one adds its amount to one balance
      and one supply. */
  lemma MintStep(env: ChainEnv, st: State, msg: MsgMint, a: Account, d: Denom)
    requires Enabled(env, st, Mint(msg))
    ensures var next := Apply(env, st, Mint(msg));
            && next == st.(ledger := next.ledger)
            && (if Refusal(env.server, st.params, st.ledger, st.today, msg).Some? then next == st
                else
                  var p := st.params.value;
                  var receiver := env.server.decode(p.receivingAddress).value;
                  && Amount(next.ledger.supply, d)
                     == Amount(st.ledger.supply, d) + (if d == p.denom then msg.amount else 0)
                  && Amount(BalanceOf(next.ledger, a), d)
                     == Amount(BalanceOf(st.ledger, a), d) + (if a == receiver && d == p.denom then msg.amount else 0))
  {
    hide Refusal, Amount, BalanceIn, Minted;
    if Refusal(env.server, st.params, st.ledger, st.today, msg).None? {
      AcceptedMintEffect(env.server, st.params.value, st.ledger, st.today, msg, a, d);
    }
  }

  /** An update stores its parameters and changes nothing else, if its signer is the authority
      and the parameters are in order, and otherwise changes nothing at all. */
  lemma UpdateStep(env: ChainEnv, st: State, msg: MsgUpdateParams)
    requires Enabled(env, st, Update(msg))
    ensures var p, sdk := msg.params, env.server.sdk;
            Apply(env, st, Update(msg))
            == if && env.server.decode(msg.authority) == Some(env.server.authority)
                  && p.mintingAddress != [] && sdk.bech32(p.mintingAddress).Some?
                  && p.receivingAddress != [] && sdk.bech32(p.receivingAddress).Some?
                  && sdk.denom(p.denom) && p.maxSupply > 0
                  && ParseDate(p.distributionStartDate).Some? && p.monthsInHalvingPeriod > 0
               then st.(params := Some(p)) else st
  {
    hide Validate, ParseDate;
    ValidateAccepts(env.server.sdk, msg.params);
  }

  /** A transfer moves its coins if the sender has them, and nothing otherwise. */
  lemma TransferStep(env: ChainEnv, st: State, from: Account, to: Account, c: Coins, x: Account, d: Denom)
    requires Enabled(env, st, Transfer(from, to, c))
    ensures var next := Apply(env, st, Transfer(from, to, c));
            && next == st.(ledger := next.ledger)
            && (if forall e | e in c :: c[e] <= Amount(BalanceOf(st.ledger, from), e) then
                  && next.ledger.supply == st.ledger.supply
                  && Amount(BalanceOf(next.ledger, x), d)
                     == Amount(BalanceOf(st.ledger, x), d) - (if x == from then Amount(c, d) else 0)
                        + (if x == to then Amount(c, d) else 0)
                else next == st)
  {
    hide Sent, Amount, BalanceIn;
    if Covers(BalanceOf(st.ledger, from), c) {
      SentBalance(st.ledger, from, to, c, x, d);
    }
  }

  /** Coins are destroyed if the owner and the supply have them. */
  lemma DestroyStep(env: ChainEnv, st: State, owner: Account, c: Coins, x: Account, d: Denom)
    requires Enabled(env, st, Destroy(owner, c))
    ensures var next := Apply(env, st, Destroy(owner, c));
            && next == st.(ledger := next.ledger)
            && (if forall e | e in c ::
                     c[e] <= Amount(BalanceOf(st.ledger, owner), e) && c[e] <= Amount(st.ledger.supply, e)
                then
                  && Amount(next.ledger.supply, d) == Amount(st.ledger.supply, d) - Amount(c, d)
                  && Amount(BalanceOf(next.ledger, x), d)
                     == Amount(BalanceOf(st.ledger, x), d) - (if x == owner then Amount(c, d) else 0)
                else next == st)
  {
    hide Burned, Amount, BalanceIn;
    if Covers(BalanceOf(st.ledger, owner), c) && Covers(st.ledger.supply, c) {
      BurnedBalance(st.ledger, owner, c, x, d);
    }
  }

  /** A block other than the burn block moves the clock and changes no coin; the one at 340100
      sets the minimum gas price to zero. */
  lemma BlockStep(env: ChainEnv, st: State, height: int, today: Date)
    requires Enabled(env, st, BeginBlock(height, today)) && height != 670553
    ensures Apply(env, st, BeginBlock(height, today))
            == State(st.ledger, st.params, height, today, if height == 340100 then 0 else st.minGasPrice, st.burns)
  {
    hide Cleared;
  }

  /** The burn block: every listed account is empty in every denom, every other balance is as
      it was, and the supply is lower by what the listed accounts held. */
  lemma BurnBlockStep(env: ChainEnv, st: State, today: Date)
    requires Enabled(env, st, BeginBlock(670553, today)) && Conserved(st.ledger)
    ensures var next := Apply(env, st, BeginBlock(670553, today));
            && next == State(next.ledger, st.params, 670553, today, st.minGasPrice, st.burns + 1)
            && (forall i, d | 0 <= i < |env.burnList| && env.server.sdk.bech32(env.burnList[i]).Some? ::
                  Amount(BalanceOf(next.ledger, env.server.sdk.bech32(env.burnList[i]).value), d) == 0)
            && (forall a | forall x :: x in env.burnList ==> env.server.sdk.bech32(x) != Some(a) ::
                  BalanceOf(next.ledger, a) == BalanceOf(st.ledger, a))
            && var listed := set x | x in env.burnList && env.server.sdk.bech32(x).Some?
                                 :: env.server.sdk.bech32(x).value;
               forall d :: Amount(next.ledger.supply, d)
                           == Amount(st.ledger.supply, d) - SumOver(st.ledger.balances, listed, d)
  {
    hide Cleared, FirstStuck, Stuck, Conserved, BalanceIn, SumOver;
    ClearedKeepsBooks(st.ledger, Named(env.Burn(), env.burnList));
    assert Named(env.Burn(), env.burnList)
        == set x | x in env.burnList && env.server.sdk.bech32(x).Some? :: env.server.sdk.bech32(x).value;
  }

  /** In every run that passes height 670553, when that block has begun every listed account
      is empty, all others hold what they held before it, and the supply is lower by what the
      listed accounts held. */
  lemma BurnInRun(env: ChainEnv, st: State, steps: seq<Step>, i: nat)
    requires Legal(env, st, steps) && Conserved(st.ledger) && i < |steps|
    requires steps[i].BeginBlock? && steps[i].height == 670553
    ensures Legal(env, st, steps[..i]) && Legal(env, st, steps[..i + 1])
    ensures var before, after := Run(env, st, steps[..i]), Run(env, st, steps[..i + 1]);
            && (forall x, d | x in env.burnList && env.server.sdk.bech32(x).Some? ::
                  Amount(BalanceOf(after.ledger, env.server.sdk.bech32(x).value), d) == 0)
            && (forall a | forall x :: x in env.burnList ==> env.server.sdk.bech32(x) != Some(a) ::
                  BalanceOf(after.ledger, a) == BalanceOf(before.ledger, a))
            && var listed := set x | x in env.burnList && env.server.sdk.bech32(x).Some?
                                 :: env.server.sdk.bech32(x).value;
               forall d :: Amount(after.ledger.supply, d)
                           == Amount(before.ledger.supply, d) - SumOver(before.ledger.balances, listed, d)
  {
    hide Legal, Run, Enabled, Apply, Conserved, Amount, BalanceIn, SumOver;
    var first, step, rest := steps[..i], steps[i], steps[i + 1..];
    assert steps == first + ([step] + rest);
    RunsCompose(env, st, first, [step] + rest);
    var before := Run(env, st, first);
    RunsCompose(env, before, [step], rest);
    OneStep(env, before, step);
    RunsCompose(env, st, first, [step]);
    assert steps[..i + 1] == first + [step];
    RunConserves(env, st, first);
    BurnBlockStep(env, before, step.today);
  }
}
