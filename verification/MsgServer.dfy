/** The distro message server: `Mint` and `UpdateParams`, with the transaction rollback the
    SDK wraps around a failing handler. */
module MsgServer {
  import opened Machine
  import opened Calendar
  import opened DateText
  import opened DistroParams
  import opened MintingLimits
  import opened Ledger

  /** What the module is given: the SDK's syntax checks, the address codec, the authority,
      the accounts with a role, the recipients the bank blocks, the coins it locks, and what
      Go counts in periods too long for its dates. */
  datatype Env = Env(
    sdk: Syntax,
    decode: Bytes -> Option<Account>,
    authority: Account,
    distro: Account,
    vm: Account,
    blocked: Account -> bool,
    locked: Account -> Coins,
    longPeriods: LongPeriods)

  datatype MintError =
    | InvalidSigner
    | ParamsMissing
    | Unauthorized
    | SupplyOutOfRange
    | MaxSupplyExceeded
    | Limit(reason: LimitError)
    | InvalidDenom
    | InvalidReceiver
    | BlockedReceiver
    | InsufficientFunds

  /** `IsAuthorized`: the decoded addresses are compared, not their spelling. */
  predicate IsAuthorized(env: Env, params: Params, signer: Account) {
    env.decode(params.mintingAddress) == Some(signer)
  }

  /** The checks before any coin is minted, in the order of the source. `Uint64()` on a
      larger supply and `NewCoin` on a bad denom panic, which aborts the transaction. */
  function EarlyRefusal(env: Env, stored: Option<Params>, l: Ledger, today: Date, msg: MsgMint): Option<MintError>
    requires today.Valid()
  {
    var signer := env.decode(msg.signer);
    if signer.None? then Some(InvalidSigner)
    else if stored.None? then Some(ParamsMissing)
    else
      var params := stored.value;
      var supply := Amount(l.supply, params.denom);
      if !IsAuthorized(env, params, signer.value) then Some(Unauthorized)
      else if supply >= TWO_64 then Some(SupplyOutOfRange)
      else if supply + msg.amount > params.maxSupply then Some(MaxSupplyExceeded)
      else
        var limits := CheckLimits(env.longPeriods, params, today, supply, msg.amount);
        if limits.Some? then Some(Limit(limits.value))
        else if !env.sdk.denom(params.denom) then Some(InvalidDenom)
        else None
  }

  function MintedCoins(params: Params, msg: MsgMint): Coins {
    OneCoin(params.denom, msg.amount)
  }

  /** The refusals that come after the coins are in the module account. */
  function LateRefusal(env: Env, params: Params, l: Ledger, msg: MsgMint): Option<MintError> {
    var receiver := env.decode(params.receivingAddress);
    var coins := MintedCoins(params, msg);
    if receiver.None? then Some(InvalidReceiver)
    else if env.blocked(receiver.value) then Some(BlockedReceiver)
    else if !CanSpend(Minted(l, env.distro, coins), env.locked(env.distro), env.distro, coins)
          then Some(InsufficientFunds)
    else None
  }

  function Refusal(env: Env, stored: Option<Params>, l: Ledger, today: Date, msg: MsgMint): (r: Option<MintError>)
    requires today.Valid()
    ensures r.None? ==> stored.Some? && env.decode(stored.value.receivingAddress).Some?
  {
    var early := EarlyRefusal(env, stored, l, today, msg);
    if early.Some? then early else LateRefusal(env, stored.value, l, msg)
  }

  /** The ledger after the transaction: the new coins are with the receiver, or, when the
      mint is refused, nothing has changed. */
  function AfterMint(env: Env, stored: Option<Params>, l: Ledger, today: Date, msg: MsgMint): Ledger
    requires today.Valid()
  {
    if Refusal(env, stored, l, today, msg).Some? then l
    else Minted(l, env.decode(stored.value.receivingAddress).value, MintedCoins(stored.value, msg))
  }

  /** Minting into the module account and sending on is minting to the receiver: the module
      account keeps its balance, and the receiver and the supply rise by the same coins. */
  lemma MintThenSend(l: Ledger, via: Account, receiver: Account, c: Coins)
    ensures Covers(BalanceOf(Minted(l, via, c), via), c)
    ensures Sent(Minted(l, via, c), via, receiver, c) == Minted(l, receiver, c)
  {
    hide AddCoins, SubCoins, Store, BalanceIn;
    var minted := Minted(l, via, c);
    assert Covers(BalanceOf(minted, via), c) by {
      forall d | d in c ensures c[d] <= Amount(BalanceOf(minted, via), d) {
        assert Amount(c, d) == c[d];
      }
    }
    hide Covers, Amount;
    var sent, goal := Sent(minted, via, receiver, c), Minted(l, receiver, c);
    forall x ensures BalanceIn(sent.balances, x) == BalanceIn(goal.balances, x) {
      forall d ensures Amount(BalanceIn(sent.balances, x), d) == Amount(BalanceIn(goal.balances, x), d) {
        SentBalance(minted, via, receiver, c, x, d);
      }
      SameAmounts(BalanceIn(sent.balances, x), BalanceIn(goal.balances, x));
    }
    SameBalances(sent.balances, goal.balances);
  }

  datatype UpdateError = InvalidAuthority | WrongAuthority | InvalidParams(reason: ParamError)

  function UpdateRefusal(env: Env, msg: MsgUpdateParams): Option<UpdateError> {
    var authority := env.decode(msg.authority);
    if authority.None? then Some(InvalidAuthority)
    else if authority.value != env.authority then Some(WrongAuthority)
    else
      var invalid := Validate(env.sdk, msg.params);
      if invalid.Some? then Some(InvalidParams(invalid.value)) else None
  }

  /** A refused mint names the first check it fails, in this order. */
  lemma MintReports(env: Env, stored: Option<Params>, l: Ledger, today: Date, msg: MsgMint)
    requires today.Valid()
    ensures var r, signer := Refusal(env, stored, l, today, msg), env.decode(msg.signer);
            && (r == Some(InvalidSigner) <==> signer.None?)
            && (r == Some(ParamsMissing) <==> signer.Some? && stored.None?)
            && (signer.Some? && stored.Some? ==>
                  var p := stored.value;
                  var supply := Amount(l.supply, p.denom);
                  var limits := CheckLimits(env.longPeriods, p, today, supply, msg.amount);
                  var authorized := env.decode(p.mintingAddress) == signer;
                  var inRange := authorized && supply < 0x1_0000_0000_0000_0000;
                  var belowMax := inRange && supply + msg.amount <= p.maxSupply;
                  var minted := belowMax && limits.None? && env.sdk.denom(p.denom);
                  var receiver := env.decode(p.receivingAddress);
                  && (r == Some(Unauthorized) <==> !authorized)
                  && (r == Some(SupplyOutOfRange) <==> authorized && supply >= 0x1_0000_0000_0000_0000)
                  && (r == Some(MaxSupplyExceeded) <==> inRange && supply + msg.amount > p.maxSupply)
                  && (forall why :: r == Some(Limit(why)) <==> belowMax && limits == Some(why))
                  && (r == Some(InvalidDenom) <==> belowMax && limits.None? && !env.sdk.denom(p.denom))
                  && (r == Some(InvalidReceiver) <==> minted && receiver.None?)
                  && (r == Some(BlockedReceiver) <==> minted && receiver.Some? && env.blocked(receiver.value)))
  {
    hide CheckLimits, CanSpend, Minted, OneCoin, Amount, DaysIn;
  }

  class Server {
    const env: Env
    const bank: Bank
    var params: Option<Params>

    constructor (env: Env, bank: Bank, params: Option<Params>)
      ensures this.env == env && this.bank == bank && this.params == params
    {
      this.env, this.bank, this.params := env, bank, params;
    }

    /** The handler. A late refusal leaves the new coins in the module account, and the
        caller must roll back. */
    method Mint(today: Date, msg: MsgMint) returns (err: Option<MintError>)
      requires today.Valid()
      modifies bank
      ensures err == Refusal(env, params, old(bank.View()), today, msg)
      ensures err.Some? && err.value in {InvalidReceiver, BlockedReceiver, InsufficientFunds} ==> params.Some?
      ensures bank.View()
              == if err.None? then AfterMint(env, params, old(bank.View()), today, msg)
                 else if err.value in {InvalidReceiver, BlockedReceiver, InsufficientFunds}
                   then Minted(old(bank.View()), env.distro, MintedCoins(params.value, msg))
                 else old(bank.View())
    {
      hide Minted, Sent, CanSpend, Covers, CheckLimits, OneCoin;
      var signer := env.decode(msg.signer);
      if signer.None? {
        return Some(InvalidSigner);
      }
      if params.None? {
        return Some(ParamsMissing);
      }
      var p := params.value;
      if !IsAuthorized(env, p, signer.value) {
        return Some(Unauthorized);
      }
      var supply := Amount(bank.supply, p.denom);
      if supply >= TWO_64 {
        return Some(SupplyOutOfRange);
      }
      if supply + msg.amount > p.maxSupply {
        return Some(MaxSupplyExceeded);
      }
      var limits := ValidateMintingLimits(env.longPeriods, today, supply, msg.amount, p);
      if limits.Some? {
        return Some(Limit(limits.value));
      }
      if !env.sdk.denom(p.denom) {
        return Some(InvalidDenom);
      }
      bank.MintCoins(env.distro, OneCoin(p.denom, msg.amount));
      err := DepositCoins(p.receivingAddress, msg.amount, p.denom);
      if err.None? {
        MintThenSend(old(bank.View()), env.distro, env.decode(p.receivingAddress).value, MintedCoins(p, msg));
      }
    }

    /** `depositCoins`: from the module account to the decoded receiver. */
    method DepositCoins(to: Bytes, amount: uint64, denom: Denom) returns (err: Option<MintError>)
      modifies bank
      ensures var l, coins, receiver := old(bank.View()), OneCoin(denom, amount), env.decode(to);
              && err == (if receiver.None? then Some(InvalidReceiver)
                         else if env.blocked(receiver.value) then Some(BlockedReceiver)
                         else if !CanSpend(l, env.locked(env.distro), env.distro, coins) then Some(InsufficientFunds)
                         else None)
              && (err.None? ==> Covers(BalanceOf(l, env.distro), coins))
              && bank.View() == if err.None? then Sent(l, env.distro, receiver.value, coins) else l
    {
      hide Sent, CanSpend, Covers, OneCoin;
      var receiver := env.decode(to);
      if receiver.None? {
        return Some(InvalidReceiver);
      }
      if env.blocked(receiver.value) {
        return Some(BlockedReceiver);
      }
      var ok := bank.SendCoins(env.locked(env.distro), env.distro, receiver.value, OneCoin(denom, amount));
      return if ok then None else Some(InsufficientFunds);
    }

    /** The transaction: the handler, undone when it refuses. */
    method DeliverMint(today: Date, msg: MsgMint) returns (err: Option<MintError>)
      requires today.Valid()
      modifies bank
      ensures err == Refusal(env, params, old(bank.View()), today, msg)
      ensures bank.View() == AfterMint(env, params, old(bank.View()), today, msg)
    {
      hide Refusal, EarlyRefusal, Minted;
      var balances, supply := bank.balances, bank.supply;
      err := Mint(today, msg);
      if err.Some? {
        bank.balances, bank.supply := balances, supply;
      }
    }

    /** `UpdateParams`: the stored parameters are replaced after all checks, or kept. */
    method UpdateParams(msg: MsgUpdateParams) returns (err: Option<UpdateError>)
      modifies this`params
      ensures err == UpdateRefusal(env, msg)
      ensures err.None? <==>
              && env.decode(msg.authority) == Some(env.authority)
              && msg.params.mintingAddress != [] && env.sdk.bech32(msg.params.mintingAddress).Some?
              && msg.params.receivingAddress != [] && env.sdk.bech32(msg.params.receivingAddress).Some?
              && env.sdk.denom(msg.params.denom) && msg.params.maxSupply > 0
              && ParseDate(msg.params.distributionStartDate).Some? && msg.params.monthsInHalvingPeriod > 0
      ensures err == Some(InvalidAuthority) <==> env.decode(msg.authority).None?
      ensures err == Some(WrongAuthority) <==>
              env.decode(msg.authority).Some? && env.decode(msg.authority).value != env.authority
      ensures params == if err.None? then Some(msg.params) else old(params)
    {
      ValidateAccepts(env.sdk, msg.params);
      hide Validate, ParseDate;
      var authority := env.decode(msg.authority);
      if authority.None? {
        return Some(InvalidAuthority);
      }
      if env.authority != authority.value {
        return Some(WrongAuthority);
      }
      var invalid := Validate(env.sdk, msg.params);
      if invalid.Some? {
        return Some(InvalidParams(invalid.value));
      }
      params := Some(msg.params);
      return None;
    }
  }
}
