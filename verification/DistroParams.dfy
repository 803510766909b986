/** The distro module's parameters and the two checks they pass: `Params.Validate` on an
    update and the weaker `GenesisState.Validate` on the initial state. Bech32 decoding and
    denom syntax belong to the SDK and stay abstract. */
module DistroParams {
  import opened Machine
  import opened Calendar
  import opened DateText

  /** The bytes an address string decodes to. */
  type Account = Bytes
  type Denom = Bytes

  datatype Params = Params(
    mintingAddress: Bytes,
    receivingAddress: Bytes,
    denom: Denom,
    maxSupply: uint64,
    distributionStartDate: Bytes,
    monthsInHalvingPeriod: uint64)

  datatype MsgMint = MsgMint(amount: uint64, signer: Bytes)

  datatype MsgUpdateParams = MsgUpdateParams(authority: Bytes, params: Params)

  const EMPTY_PARAMS := Params([], [], [], 0, [], 0)

  datatype ParamError =
    | BadMintingAddress
    | BadReceivingAddress
    | BadDenom
    | ZeroMaxSupply
    | BadStartDate
    | ZeroPeriod

  /** The parts of the SDK the checks call. */
  datatype Syntax = Syntax(bech32: Bytes -> Option<Account>, denom: Denom -> bool)

  /** `Params.Validate`: the first failing check, in the order of the source. */
  function Validate(sdk: Syntax, p: Params): (r: Option<ParamError>) {
    if p.mintingAddress == [] || sdk.bech32(p.mintingAddress).None? then Some(BadMintingAddress)
    else if p.receivingAddress == [] || sdk.bech32(p.receivingAddress).None? then Some(BadReceivingAddress)
    else if !sdk.denom(p.denom) then Some(BadDenom)
    else if p.maxSupply == 0 then Some(ZeroMaxSupply)
    else if p.distributionStartDate == [] || ParseDate(p.distributionStartDate).None? then Some(BadStartDate)
    else if p.monthsInHalvingPeriod == 0 then Some(ZeroPeriod)
    else None
  }

  /** `GenesisState.Validate`: addresses may be empty and the maximum supply may be zero. */
  function ValidateGenesis(sdk: Syntax, p: Params): (r: Option<ParamError>) {
    if p.mintingAddress != [] && sdk.bech32(p.mintingAddress).None? then Some(BadMintingAddress)
    else if p.receivingAddress != [] && sdk.bech32(p.receivingAddress).None? then Some(BadReceivingAddress)
    else if !sdk.denom(p.denom) then Some(BadDenom)
    else if p.distributionStartDate == [] || ParseDate(p.distributionStartDate).None? then Some(BadStartDate)
    else if p.monthsInHalvingPeriod == 0 then Some(ZeroPeriod)
    else None
  }

  /** What a genesis must have: addresses that decode where they are given, a legal denom, a
      start date and a positive period. */
  lemma GenesisAccepts(sdk: Syntax, p: Params)
    ensures ValidateGenesis(sdk, p).None? <==>
            && (p.mintingAddress != [] ==> sdk.bech32(p.mintingAddress).Some?)
            && (p.receivingAddress != [] ==> sdk.bech32(p.receivingAddress).Some?)
            && sdk.denom(p.denom)
            && ParseDate(p.distributionStartDate).Some?
            && p.monthsInHalvingPeriod > 0
  {
  }

  /** A refused genesis names the first check it fails. */
  lemma GenesisReports(sdk: Syntax, p: Params)
    ensures var minting := p.mintingAddress != [] ==> sdk.bech32(p.mintingAddress).Some?;
            var receiving := p.receivingAddress != [] ==> sdk.bech32(p.receivingAddress).Some?;
            var addresses, denom := minting && receiving, sdk.denom(p.denom);
            var start := ParseDate(p.distributionStartDate).Some?;
            var r := ValidateGenesis(sdk, p);
            && (r == Some(BadMintingAddress) <==> !minting)
            && (r == Some(BadReceivingAddress) <==> minting && !receiving)
            && (r == Some(BadDenom) <==> addresses && !denom)
            && (r == Some(BadStartDate) <==> addresses && denom && !start)
            && (r == Some(ZeroPeriod) <==> addresses && denom && start && p.monthsInHalvingPeriod == 0)
  {
  }

  /** What an update must have: both addresses, and a positive maximum supply besides. */
  lemma ValidateAccepts(sdk: Syntax, p: Params)
    ensures Validate(sdk, p).None? <==>
            && p.mintingAddress != [] && sdk.bech32(p.mintingAddress).Some?
            && p.receivingAddress != [] && sdk.bech32(p.receivingAddress).Some?
            && sdk.denom(p.denom)
            && p.maxSupply > 0
            && ParseDate(p.distributionStartDate).Some?
            && p.monthsInHalvingPeriod > 0
  {
  }

  /** A refusal names the first field, in the order of the message, that is not in order. */
  lemma ValidateReports(sdk: Syntax, p: Params)
    ensures var minting := p.mintingAddress != [] && sdk.bech32(p.mintingAddress).Some?;
            var receiving := p.receivingAddress != [] && sdk.bech32(p.receivingAddress).Some?;
            var addresses, denom := minting && receiving, sdk.denom(p.denom);
            var start := ParseDate(p.distributionStartDate).Some?;
            var r := Validate(sdk, p);
            && (r == Some(BadMintingAddress) <==> !minting)
            && (r == Some(BadReceivingAddress) <==> minting && !receiving)
            && (r == Some(BadDenom) <==> addresses && !denom)
            && (r == Some(ZeroMaxSupply) <==> addresses && denom && p.maxSupply == 0)
            && (r == Some(BadStartDate) <==> addresses && denom && p.maxSupply > 0 && !start)
            && (r == Some(ZeroPeriod) <==>
                  addresses && denom && p.maxSupply > 0 && start && p.monthsInHalvingPeriod == 0)
  {
  }

  const DEFAULT_DENOM: Denom := [117, 71, 78, 79, 68]
  const DEFAULT_START: Bytes := [50, 48, 50, 53, 45, 48, 55, 45, 50, 50]
  const DEFAULT_MAX_SUPPLY: uint64 := 35_000_000_000_000_000
  const DEFAULT_MONTHS: uint64 := 12

  /** `DefaultParams`: "uGNOD", 35 billion GNOD, "2025-07-22", twelve months, no addresses. */
  const DEFAULT_PARAMS := Params([], [], DEFAULT_DENOM, DEFAULT_MAX_SUPPLY, DEFAULT_START, DEFAULT_MONTHS)

  /** The defaults are a valid genesis, with a schedule that starts on 22 July 2025, and not a
      valid update, for want of addresses. */
  lemma DefaultsAreGenesisOnly(sdk: Syntax)
    requires sdk.denom([117, 71, 78, 79, 68])
    ensures ValidateGenesis(sdk, DEFAULT_PARAMS).None? && Validate(sdk, DEFAULT_PARAMS) == Some(BadMintingAddress)
    ensures ParseDate(DEFAULT_PARAMS.distributionStartDate) == Some(Date(2025, 7, 22))
    ensures DEFAULT_PARAMS.maxSupply == 35_000_000_000_000_000 && DEFAULT_PARAMS.monthsInHalvingPeriod == 12
  {
    LayoutParses(2, 0, 2, 5, 0, 7, 2, 2);
  }
}
