/** A node: the state machine's steps, executed in place by the handlers and the bank. */
module Node {
  import opened Machine
  import opened Calendar
  import opened DistroParams
  import opened Ledger
  import opened SecurityBurn
  import opened MsgServer
  import opened Chain

  class Node {
    const env: ChainEnv
    const bank: Bank
    const server: Server
    const app: App
    var height: int
    var today: Date
    ghost var burns: nat

    /** The message server and the application share the bank and the environment. */
    ghost predicate Wired() {
      && server.bank == bank && app.bank == bank
      && server.env == env.server
      && app.env == env.Burn() && app.burnList == env.burnList && app.stores == env.stores
    }

    ghost function Value(): State
      reads this, bank, server, app
    {
      State(bank.View(), server.params, height, today, app.minGasPrice, burns)
    }

    constructor (env: ChainEnv, ledger: Ledger, params: Option<Params>, height: int, today: Date, minGasPrice: int)
      ensures Wired() && this.env == env && Value() == State(ledger, params, height, today, minGasPrice, 0)
      ensures fresh(bank) && fresh(server) && fresh(app)
    {
      this.env, this.height, this.today, burns := env, height, today, 0;
      var b := new Bank(ledger);
      bank := b;
      server := new Server(env.server, b, params);
      app := new App(env.Burn(), env.burnList, b, env.stores, minGasPrice);
    }

    /** One step: the state it leaves is the state machine's. */
    method Execute(step: Step)
      requires Wired() && Enabled(env, Value(), step) && Conserved(bank.View())
      modifies this, bank, server, app
      ensures Value() == Apply(env, old(Value()), step) && Conserved(bank.View())
    {
      hide Conserved, Minted, Sent, Burned, Cleared, FirstStuck, Refusal, UpdateRefusal;
      StepConserves(env, Value(), step);
      match step
      case Mint(msg) =>
        var _ := server.DeliverMint(today, msg);
      case Update(msg) =>
        var _ := server.UpdateParams(msg);
      case Transfer(from, to, coins) =>
        var _ := bank.SendCoins(map[], from, to, coins);
      case Destroy(owner, coins) =>
        var _ := bank.BurnCoins(owner, coins);
      case BeginBlock(h, t) =>
        assert env.burnList[..|env.burnList|] == env.burnList;
        var halted := app.BeginBlocker(h);
        assert !halted;
        height, today := h, t;
        burns := if h == SECURITY_BURN_HEIGHT then burns + 1 else burns;
    }

    /** A whole run. */
    method ExecuteAll(steps: seq<Step>)
      requires Wired() && Legal(env, Value(), steps) && Conserved(bank.View())
      modifies this, bank, server, app
      ensures Value() == Run(env, old(Value()), steps) && Conserved(bank.View())
    {
      hide Enabled, Apply, Conserved;
      var i := 0;
      assert steps[0..] == steps;
      while i < |steps|
        invariant 0 <= i <= |steps| && Conserved(bank.View())
        invariant Legal(env, Value(), steps[i..])
        invariant Run(env, Value(), steps[i..]) == Run(env, old(Value()), steps)
      {
        assert steps[i..][1..] == steps[i + 1..];
        Execute(steps[i]);
        i := i + 1;
      }
    }
  }
}
