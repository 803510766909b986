# Verified model of the gnodi distro module

A Dafny model of the parts of the gnodi chain that decide how many coins exist and what a
message means on the wire, with proofs of what they promise.

- **The halving mint schedule** (`x/distro/keeper`). A date is a Gregorian (year, month,
  day) with a day number; `addMonths`, `monthsBetween`, `halvingPeriodLimit` and
  `validateMintingLimits` are modelled with Go's truncating division, `uint64` wrap-around
  and the saturation of `time.Duration` at 106751 days. Files: `Machine`, `Arithmetic`,
  `Calendar`, `DateText`, `Months`, `Halving`, `Schedule`, `ScheduleProperties`,
  `DailyRelease`, `MintingLimits`. The integer schedule that the 64-bit one is compared with
  keeps that saturation; in periods of up to 106752 days it is the true proportion
  (`DailyRelease.MeasurableIsProportional`).
- **The ledger and its clients**. A bank of canonical balances and supplies; the message
  server's `Mint` and `UpdateParams`; `applySecurityBurn` and the height switch of
  `BeginBlocker`; and the chain as a state machine whose steps interleave all of them with
  transfers and blocks. Files: `DistroParams`, `Ledger`, `SecurityBurn`, `MsgServer`,
  `Chain`, `StepEffects`, `Node`, `MintSafety`.
- **The protobuf codec** of `Params`, `MsgMint` and `MsgUpdateParams`: the backward-writing
  marshallers, the size precomputation, the in-place decoders and the skipper for unknown
  fields. The generated code repeats one varint loop and one record loop many times; the
  model has each once. Strings are byte sequences, and `|` of bits that never overlap is
  addition. Files: `Varint`, `Skip`, `Wire`, `ParamsCodec`, `ParamsMarshal`, `TxCodec`,
  `TxMarshal`, `DecoderLanguage`, `DecoderMeaning`.
- **The group limiter** of the ante handler, over message trees. File: `Ante`.

Code that updates state in place is a class or a method with a loop, proved against a
function on values; the theorems are about those functions. Errors, including the panics
that abort a transaction, are results, not preconditions.

Three findings about the code as it is:

- The `uint64` product `periodYearlyLimit * daysElapsed` can wrap. Wrapping only ever lowers
  the ceiling. Over the dates the program accepts, which end at 9999-12-31, it never happens
  exactly when the first period's limit times the most days that can have elapsed in that
  period by then fits in 64 bits (`ScheduleProperties.NoWrapIsExact`). That is also exactly
  when a supply within the ceiling stays within it over every run
  (`MintSafety.SafeIffWrapFree`), and when every run that starts with nothing minted does,
  unless nobody can mint at all (`MintSafety.SafeFromNothingIff`): otherwise one accepted
  mint and the next block end above the ceiling (`MintSafety.WrapBreaksSafety`). The default
  parameters are safe from every start date (`ScheduleProperties.DefaultsNeverWrap`); the
  largest supply with twelve-month periods is unsafe from every start that leaves three more
  accepted days (`ScheduleProperties.LargestSupplyWraps`).
- The explicit maximum-supply check never decides: the schedule check is always at least as
  strict, for every period length (`MintSafety.LimitCheckImpliesMaxSupply`).
- `time.Duration` saturates. In a period longer than 106752 days the program divides by
  106752, so the release runs ahead of the daily average, and then it stops until the period
  ends. Wrap-around aside, every day of a period adds the average over the period's days,
  rounded down or up, if and only if the period has at most 106752 days or releases at most
  106752 units; where year 9999 cuts a period short, the exact condition on the days up to
  then is stated too (`DailyRelease.AverageKeptIff`). A day falls short exactly when the
  release stands still in a period that releases at least one unit a day
  (`DailyRelease.CeilingStep`), and it stands still in a period exactly when that is longer
  than 106752 days (`DailyRelease.PeriodStallsIff`). The days before can exceed the average,
  as a 400-year period from the year 2000 does (`DailyRelease.LongPeriodRunsAhead`,
  `DailyRelease.FourCenturies`).

## Model

| member | source | states |
|---|---|---|
| Calendar.OrderAgrees | x/distro/keeper/msg_server_mint.go:98-101 | lexicographic order of dates and order of day numbers agree, so a difference of times has the sign of `Before` |
| Calendar.DayNumberCountsDays | x/distro/keeper/msg_server_mint.go:96-101 | the day number rises by one per calendar day, and the day before undoes the day after |
| Calendar.LastDayOf | x/distro/keeper/msg_server_mint.go:144 | day zero of the next month is the last day of the month, December and leap February included |
| Calendar.MonthTable | x/distro/keeper/msg_server_mint.go:55-57 | which dates exist, by the literal month lengths and leap year rule of RFC 3339 |
| Calendar.DayNumberClosedForm | x/distro/keeper/msg_server_mint.go:98-101 | the day number of every date in closed form, without month tables or leap years |
| DateText.ParseDate | x/distro/keeper/msg_server_mint.go:55-57 | a parsed date exists and has a four-digit year |
| DateText.LayoutParses | x/distro/keeper/msg_server_mint.go:55-57 | eight digits with hyphens after the fourth and sixth parse to the date they write, exactly when it exists |
| DateText.OnlyLayoutParses | x/distro/keeper/msg_server_mint.go:55-57 | no other text parses |
| DateText.ParseUndoesFormat | x/distro/keeper/msg_server_mint.go:77-80 | the block date parses back to itself exactly when its year is 0 to 9999; otherwise the target date is rejected |
| DateText.FormatUndoesParse | x/distro/types/params.go:97-107 | each accepted start date text is the canonical text of its date |
| Months.AddMonthsIsEuclidean | x/distro/keeper/msg_server_mint.go:134-149 | truncating division with the correction step is Euclidean month arithmetic for every offset; the day stays, or becomes the last one that exists in the month reached |
| Months.AddMonthsIncreases | x/distro/keeper/msg_server_mint.go:134-149 | a larger offset gives a strictly later date |
| Months.AddMonthsIsMonotone | x/distro/keeper/msg_server_mint.go:134-149 | a later date stays at least as late |
| Months.AddMonthsComposes | x/distro/keeper/msg_server_mint.go:130-149 | two hops land in the month of one hop, never after it, and on the same day exactly when the first hop clamps no deeper |
| Months.MonthsBetweenIsGreatest | x/distro/keeper/msg_server_mint.go:151-175 | for ordered dates a month boundary has been reached exactly when its offset is at most `monthsBetween`; the final negative clamp is never taken |
| Months.MonthsBetweenInverts | x/distro/keeper/msg_server_mint.go:159-163 | `monthsBetween` of a boundary is its offset, month ends and 29 February included |
| Months.SpanOfMonths | x/distro/keeper/msg_server_mint.go:95-98 | k months from any boundary hold 28k to 31k days |
| Months.SpanOfYear | x/distro/keeper/msg_server_mint.go:95-98 | twelve months from any boundary are 365 or 366 days |
| Halving.LimitIsPowerDivision | x/distro/keeper/msg_server_mint.go:123-128 | every period's limit is floor(MaxSupply / 2^period), and the guard above period 64 agrees with it |
| Halving.LimitHalves | x/distro/keeper/msg_server_mint.go:119-128 | each limit is half of the one before, rounded down |
| Halving.SumOfLimitsClosedForm | x/distro/keeper/msg_server_mint.go:90-92 | n completed periods release N - floor(N/2^n) - popcount(N mod 2^n) |
| Halving.SumOfLimitsBounds | x/distro/keeper/msg_server_mint.go:88-92 | the sum never exceeds the supply, stays strictly below a positive one, and so never wraps |
| Halving.SumOfAllLimits | x/distro/keeper/msg_server_mint.go:90-92 | all periods together release exactly N - popcount(N) |
| Schedule.PeriodsTile | x/distro/keeper/msg_server_mint.go:82-96 | a date from the start on lies in exactly one half-open period, the one the code picks |
| Schedule.ElapsedWithinPeriod | x/distro/keeper/msg_server_mint.go:98-106 | the elapsed days are always fewer than the days in the period, so the clamp and the zero guard never fire |
| Schedule.WrappingOnlyLowers | x/distro/keeper/msg_server_mint.go:106-109 | the 64-bit ceiling is never above the integer one, and equal to it exactly when the product fits |
| Schedule.CeilingWithinPeriod | x/distro/keeper/msg_server_mint.go:87-110 | the ceiling lies between the completed periods' sum and that sum plus the current limit |
| Schedule.CeilingBelowMaxSupply | x/distro/keeper/msg_server_mint.go:87-112 | the ceiling never exceeds the maximum supply and never reaches a positive one |
| Schedule.DurationDays | x/distro/keeper/msg_server_mint.go:98-101 | the saturation is that of 2^63 - 1 nanoseconds, 106751 days |
| Schedule.CeilingByCalendar | x/distro/keeper/msg_server_mint.go:87-110 | in the period that holds the date, both ceilings are the completed sum plus floor(N/2^p) pro-rated by days since the boundary over days between boundaries, the 64-bit one with the product modulo 2^64 |
| ScheduleProperties.CeilingIsMonotone | x/distro/keeper/msg_server_mint.go:87-110 | the ceiling over unbounded integers never decreases as the date advances |
| ScheduleProperties.CeilingAtBoundary | x/distro/keeper/msg_server_mint.go:87-110 | at a period boundary the ceiling is the exact sum of the completed periods: no rounding loss |
| DailyRelease.MeasurableIsProportional | x/distro/keeper/msg_server_mint.go:98-109 | in a period of up to 106752 days the ceiling is the completed sum plus the true proportion of the period's days |
| DailyRelease.CeilingStep | x/distro/keeper/msg_server_mint.go:98-109 | one day adds the limit over the days the program counts, rounded down or up, across boundaries too, and a stalled day adds nothing; against the days the period has, a day falls short if and only if it is stalled and the limit is at least one unit a day, and exceeds only in a period longer than 106752 days with a limit above 106752 |
| DailyRelease.AverageKeptIff | x/distro/keeper/msg_server_mint.go:98-109 | wrap-around aside, every day of a period adds the limit over the period's true days, rounded down or up, if and only if the period has at most 106752 days or its limit is at most 106752; the same for the days up to 9999-12-31, with the exact condition on how many there are |
| DailyRelease.LongPeriodRunsAhead | x/distro/keeper/msg_server_mint.go:98-109 | over 146097 days a limit of 10^9 releases 9367 on the first day, with nothing wrapped or stalled, where the average is 6844 or 6845 |
| DailyRelease.FourCenturies | x/distro/keeper/msg_server_mint.go:95-98 | 4800 months from 2000-01-01 are such a period |
| DailyRelease.PeriodStallsIff | x/distro/keeper/msg_server_mint.go:98-104 | a period has a day on which the release stops if and only if it is longer than 106752 days, and an accepted one if and only if its 106752nd day also comes by 9999-12-31 |
| ScheduleProperties.FirstPeriodDominates | x/distro/keeper/msg_server_mint.go:99-107 | no accepted date's product exceeds the largest product an accepted date of the first period has |
| ScheduleProperties.WrapDropsCeiling | x/distro/keeper/msg_server_mint.go:107 | if that largest product wraps, there are two successive accepted days, the second with the lower 64-bit ceiling |
| ScheduleProperties.NoWrapIsExact | x/distro/keeper/msg_server_mint.go:87-110 | the 64-bit ceiling equals the integer schedule on every accepted date if and only if the first period's largest product fits in 64 bits, and the same condition is exact for its never decreasing |
| ScheduleProperties.DefaultsNeverWrap | x/distro/types/params.go:16-18 | the default supply with twelve-month periods never wraps, from any start date |
| ScheduleProperties.LargestSupplyWraps | x/distro/keeper/msg_server_mint.go:107 | the largest supply with twelve-month periods wraps if and only if the start leaves three more accepted days |
| MintingLimits.SumCompleted | x/distro/keeper/msg_server_mint.go:88-92 | the wrapping loop returns the integer sum of the completed periods |
| MintingLimits.PeriodBounds | x/distro/keeper/msg_server_mint.go:95-98 | both boundaries survive the `uint64` product and `int` conversion, and the day count is the period's; in a period too long for Go's dates the start still is and the count is Go's |
| MintingLimits.ProRateCurrent | x/distro/keeper/msg_server_mint.go:94-110 | the current period's part is what the 64-bit ceiling adds to the completed sum, for every period length and accepted date |
| MintingLimits.CeilingWithinMax | x/distro/keeper/msg_server_mint.go:87-112 | the ceiling never exceeds the maximum supply and never reaches a positive one, for every period length and whatever days Go counts in an overflowing one |
| MintingLimits.ValidateMintingLimits | x/distro/keeper/msg_server_mint.go:72-117 | the check returns the first applicable error, or accepts exactly when supply plus amount is within the ceiling |
| MintingLimits.LimitErrors | x/distro/keeper/msg_server_mint.go:73-87 | which error the check gives, if and only if, when there is no ceiling to compare with |
| MintingLimits.LimitsByCalendar | x/distro/keeper/msg_server_mint.go:82-116 | in the period that holds today an amount is accepted if and only if supply plus amount is at most the completed sum plus today's share, by dates and numbers alone, and a refusal reports that total |
| MintingLimits.LongLimitsByCalendar | x/distro/keeper/msg_server_mint.go:94-116 | the same for a period longer than 2^40 months, by the days Go counts in it, with the clamp and the zero guard |
| MintingLimits.NothingOnStartDate | x/distro/keeper/msg_server_mint.go:101-114 | on the start date only a total of zero is accepted |
| MintingLimits.OnBoundary | x/distro/keeper/msg_server_mint.go:90-114 | on a period boundary exactly the sum of the completed periods is accepted |
| DistroParams.GenesisAccepts | x/distro/types/genesis.go:24-46 | a genesis passes if and only if each given address decodes, the denom is legal, the start date parses and the period is positive |
| DistroParams.GenesisReports | x/distro/types/genesis.go:24-46 | a refused genesis reports the first check it fails |
| DistroParams.ValidateAccepts | x/distro/types/params.go:43-64 | parameters pass if and only if both addresses are given and decode, the denom is legal, the supply is positive, the start date parses and the period is positive |
| DistroParams.ValidateReports | x/distro/types/params.go:43-113 | a refusal reports the first field that is not in order |
| DistroParams.DefaultsAreGenesisOnly | x/distro/types/params.go:13-40 | the default parameters start on 2025-07-22, are a valid genesis, and are no valid update for want of a minting address |
| Ledger.SentBalance | x/distro/keeper/msg_server_mint.go:65-68 | a transfer changes the two balances by exactly the coins sent and no other |
| Ledger.MintedAmounts | x/distro/keeper/msg_server_mint.go:42-46 | minting raises one balance and the supply by exactly the coins |
| Ledger.BurnedBalance | app/app.go:872-876 | burning lowers one balance and the supply by exactly the coins |
| Ledger.MintConserves | x/distro/keeper/msg_server_mint.go:42-46 | minting keeps the supply of every denom equal to the sum of its balances |
| Ledger.SendConserves | x/distro/keeper/msg_server_mint.go:66-68 | so does a transfer, between any two accounts or to oneself |
| Ledger.BurnConserves | app/app.go:872-876 | so does a burn, which never takes the supply below zero |
| Ledger.Bank.MintCoins | x/distro/keeper/msg_server_mint.go:43 | the in-place mint is the ledger's mint |
| Ledger.Bank.SendCoins | x/distro/keeper/msg_server_mint.go:66 | a transfer succeeds exactly when the coins are spendable beyond what is locked, and else changes nothing |
| Ledger.Bank.BurnCoins | app/app.go:872-874 | a burn succeeds exactly when balance and supply cover it, and else changes nothing |
| MsgServer.MintThenSend | x/distro/keeper/msg_server_mint.go:42-50 | minting into the module account and sending on is minting to the receiver: the module account ends as it began |
| MsgServer.MintReports | x/distro/keeper/msg_server_mint.go:15-70 | which error a refused mint reports, if and only if: the first check it fails, in the order of the handler |
| MsgServer.Server.Mint | x/distro/keeper/msg_server_mint.go:15-53 | the handler's verdict and ledger in every case, the late refusals that leave coins in the module account included |
| MsgServer.Server.DepositCoins | x/distro/keeper/msg_server_mint.go:59-70 | the module account's coins go to the decoded receiver, or the error is reported and nothing moves |
| MsgServer.Server.DeliverMint | x/distro/keeper/msg_server_mint.go:15-53 | with the transaction rollback, a refused mint changes nothing |
| MsgServer.Server.UpdateParams | x/distro/keeper/msg_update_params.go:12-32 | the stored parameters are replaced exactly when the signer is the authority, both addresses are given and decode, the denom is legal, the supply is positive, the start date parses and the period is positive; the first failing check is the error |
| MintSafety.LimitCheckImpliesMaxSupply | x/distro/keeper/msg_server_mint.go:34-40 | passing the schedule check implies passing the maximum-supply check, strictly for a positive maximum |
| MintSafety.MintAcceptedIff | x/distro/keeper/msg_server_mint.go:15-53 | a mint is accepted exactly when parameters exist, the signer is the minting account, the schedule has started, the receiver can be paid and the new supply is within the ceiling |
| MintSafety.AcceptedMintEffect | x/distro/keeper/msg_server_mint.go:42-52 | an accepted mint raises one balance and one supply by the amount and changes no other balance or supply |
| MintSafety.AcceptedMintBelowMax | x/distro/keeper/msg_server_mint.go:34-46 | an accepted mint under a positive maximum supply ends strictly below it, wrap-around or not |
| MintSafety.BatchIsItsSum | x/distro/keeper/msg_server_mint.go:32-50 | mints on one day all succeed exactly when supply plus their sum is within the ceiling, and leave the ledger one mint of the sum leaves |
| MintSafety.RunStaysUnderCeiling | x/distro/keeper/msg_server_mint.go:32-46 | in every run with fixed wrap-free parameters a supply within the ceiling stays within it on every date that has one |
| MintSafety.WrapBreaksSafety | x/distro/keeper/msg_server_mint.go:107-112 | with parameters that wrap and let somebody mint, a run of two steps from an empty ledger, an accepted mint of all the day allows and the block of the next day, ends above the ceiling the program then computes |
| MintSafety.SafeIffWrapFree | x/distro/keeper/msg_server_mint.go:107-112 | the ceiling is safe over all runs if and only if the parameters are wrap-free, a condition on start date, period and maximum supply alone |
| MintSafety.SafeFromNothingIff | x/distro/keeper/msg_server_mint.go:107-112 | every run from an empty ledger stays within the ceiling if and only if the parameters are wrap-free or let nobody mint |
| MintSafety.RunStaysWithinCaps | x/distro/keeper/msg_server_mint.go:32-46 | in every run, parameter updates included, the supply of a denom never exceeds the larger of what it was and the largest maximum supply under which a mint of it was accepted |
| SecurityBurn.ClearedKeepsBooks | app/app.go:846-852 | the listed accounts end empty in every denom, every other account is unchanged, and the supply drops by exactly their coins |
| SecurityBurn.SendThenBurn | app/app.go:867-876 | collecting a whole balance in the module account and burning it there clears the account and nothing else, even the module account itself |
| SecurityBurn.ClearedComposes | app/app.go:856-881 | clearing in two rounds is clearing once |
| SecurityBurn.ClearedTwice | app/app.go:828-829 | running the burn again changes nothing |
| SecurityBurn.BurnIgnoresOrder | app/app.go:856-881 | success and result depend only on which addresses are listed |
| SecurityBurn.BurnSucceedsIff | app/app.go:856-879 | the burn goes through if and only if every listed address decodes and no listed account holds a denom of which some is locked |
| SecurityBurn.ApplySecurityBurn | app/app.go:853-886 | the accounts before the first undecodable or locked entry are cleared, exactly their coins are reported burned, and that entry is the error |
| Chain.App.BeginBlocker | app/app.go:889-905 | the hotfix and the burn act at their heights and nowhere else, the node halts exactly when the fee market refuses the hotfix or the burn fails, and the ledger is stated in that case too: the accounts before the failing entry are cleared |
| Chain.RunsCompose | app/app.go:889-905 | a run of two parts is a run of the first and then of the second |
| StepEffects.EnabledIff | app/app.go:889-905 | which steps are possible: every transaction, and every later block unless the hotfix is refused at 340100 or the burn cannot go through at 670553 |
| StepEffects.MintStep | x/distro/keeper/msg_server_mint.go:15-53 | a refused mint changes nothing in the chain's state, and an accepted one only one balance and one supply |
| StepEffects.UpdateStep | x/distro/keeper/msg_update_params.go:12-32 | what an update stores, and when |
| StepEffects.TransferStep | app/app.go:867-871 | what a transfer between accounts moves, and that it moves nothing else |
| StepEffects.DestroyStep | app/app.go:872-876 | what a burn by a module takes from its account and from the supply |
| StepEffects.BlockStep | app/app.go:889-905 | a block other than the burn block changes no coin, and the one at 340100 sets the minimum gas price to zero |
| StepEffects.BurnBlockStep | app/app.go:846-881 | the block at 670553 leaves every listed account empty in every denom and every other balance as it was, and lowers the supply by what the listed accounts held |
| StepEffects.BurnInRun | app/app.go:820-830 | the same in every run that passes that height |
| Node.Node.Execute | app/app.go:889-905 | executed by the handlers, the bank and `BeginBlocker`, each step leaves the state the state machine gives |
| Node.Node.ExecuteAll | app/app.go:889-905 | so does every run |
| Chain.StepConserves | app/app.go:889-905 | every step of the chain keeps supply and balances equal |
| Chain.RunConserves | x/distro/keeper/msg_server_mint.go:42-50 | so does every run |
| Chain.BurnRunsAtMostOnce | app/app.go:828-830 | a run executes the burn once if it passes the burn height and otherwise never, and no run from that height on passes it |
| Chain.ParamsStayUsable | x/distro/keeper/msg_update_params.go:23-29 | every update keeps a positive period and a start date that parses |
| Chain.MintNeverTripsOnParams | x/distro/types/genesis.go:24-46 | from any valid genesis, no mint in any reachable state divides by zero or fails on the start date |
| Varint.SovIsLength | x/distro/types/params.pb.go:286-288 | the precomputed size is the number of bytes the encoder writes |
| Varint.EncodesValue | x/distro/types/params.pb.go:244-254 | the bytes are the seven-bit groups of the value, lowest first, each but the last with the high bit, and none is padding |
| Varint.ReadsExactly | x/distro/types/params.pb.go:297-311 | on any bytes: the number ends at the first byte below 128 among the first ten and is the sum of the groups modulo 2^64; otherwise which error, and what has been read |
| Varint.VarintRoundTrip | x/distro/types/params.pb.go:244-254 | decoding the encoding of any 64-bit value returns it and consumes exactly it, whatever follows |
| Varint.DecodeVarint | x/distro/types/params.pb.go:297-311 | the shift loop returns the value and size, or the first error with the bits read so far, and never indexes out of range |
| Varint.EncodeVarintInto | x/distro/types/params.pb.go:244-254 | the bytes end at the old offset and nothing else in the buffer changes |
| Skip.SkipIsPrefixStable | x/distro/types/params.pb.go:508-585 | a successful skip does not depend on what follows |
| Skip.SkipsRecord | x/distro/types/params.pb.go:508-585 | every well-formed record is stepped over, at any nesting depth |
| Skip.SkipsByWireType | x/distro/types/params.pb.go:524-577 | how far each wire type skips, by its number, and the errors of a lone end of a group, an unknown wire type and an oversized length |
| Skip.SkipsGroup | x/distro/types/params.pb.go:561-569 | a group is skipped to its matching end tag |
| Skip.SkipEndsEarly | x/distro/types/params.pb.go:512-584 | an unclosed group, empty data and an unreadable tag, with their errors |
| Skip.SkipAcceptsExactly | x/distro/types/params.pb.go:508-585 | the skipper ends at n within the data if and only if the first n bytes are one well-formed record, nested groups included |
| Skip.SkipRecord | x/distro/types/params.pb.go:487-500 | a successful skip advances, which is what makes the decoder's default branch terminate |
| Skip.SkipUnknown | x/distro/types/tx.pb.go:883-960 | the loop with its depth counter computes the skip on every input, without leaving the data |
| Wire.DecodeComposes | x/distro/types/params.pb.go:292-507 | after a decodable prefix the loop goes on with the rest on top of its result |
| Wire.TagIsArithmetic | x/distro/types/params.pb.go:312-319 | field number and wire type of a tag by arithmetic, and which tags are illegal |
| Wire.WindowByLength | x/distro/types/params.pb.go:338-350 | when a length gives a window and which of its two errors it gives otherwise |
| Wire.UnknownByLength | x/distro/types/params.pb.go:487-500 | what the default branch makes of a skip, its two length errors included |
| Wire.UnmarshalComposes | x/distro/types/tx.pb.go:567-681 | decoding a concatenation is decoding the second part on top of the first; a failure leaves the same message and the same error, up to which of the two errors a bad length meets |
| Wire.InsertedRecordIsIgnored | x/distro/types/params.pb.go:487-500 | a record the message does not know changes nothing between two records, whether the rest decodes or fails |
| Wire.EncodedRecordsAreSkipped | x/distro/types/params.pb.go:508-585 | skipping a string, number or nested record an encoder wrote, an empty nested message included, ends where decoding it ends |
| Wire.PutBytes | x/distro/types/params.pb.go:208-214 | the string block writes its record just before what is there and touches nothing else |
| Wire.PutUint | x/distro/types/params.pb.go:203-207 | so does the number block |
| ParamsCodec.Size | x/distro/types/params.pb.go:255-284 | the precomputed size is the length of the encoding |
| ParamsCodec.ParamsWireFormat | x/distro/types/params.pb.go:198-242 | the encoding byte by byte: the tag of each field, their order, and fields at their default left out |
| ParamsCodec.ParamsRoundTrip | x/distro/types/params.pb.go:183-507 | decoding the encoding of any parameters gives them back |
| ParamsCodec.ParamsConcatenate | x/distro/types/params.pb.go:292-507 | decoding two parts in a row is decoding the second on top of the first: the last one wins, and failures agree as in `Wire.UnmarshalComposes` |
| ParamsCodec.ParamsIgnoreUnknown | x/distro/types/params.pb.go:487-500 | a well-formed record with a foreign field number, groups included, changes neither a success nor a failure |
| ParamsMarshal.ParamsMessage.MarshalToSizedBuffer | x/distro/types/params.pb.go:198-242 | the backward writer fills exactly the last `Size` bytes with the encoding |
| ParamsMarshal.ParamsMessage.Marshal | x/distro/types/params.pb.go:183-191 | the returned buffer is the encoding |
| ParamsMarshal.ParamsMessage.DecodeRecord | x/distro/types/params.pb.go:296-500 | one turn of the loop updates the receiver as specified, partial numbers on an error included |
| ParamsMarshal.ParamsMessage.Unmarshal | x/distro/types/params.pb.go:292-507 | the in-place loop computes the decoding on every input, with the receiver's state on errors |
| TxCodec.SizeOfMint | x/distro/types/tx.pb.go:536-550 | the precomputed size is the length of the encoding |
| TxCodec.MintWireFormat | x/distro/types/tx.pb.go:458-476 | the encoding byte by byte |
| TxCodec.MintRoundTrip | x/distro/types/tx.pb.go:732-832 | decoding the encoding of any mint message gives it back |
| TxCodec.MintConcatenates | x/distro/types/tx.pb.go:732-832 | decoding two parts in a row is decoding the second on top of the first, failures included |
| TxCodec.MintIgnoresUnknown | x/distro/types/tx.pb.go:812-825 | a well-formed record with a foreign field number changes neither a success nor a failure |
| TxCodec.SizeOfUpdate | x/distro/types/tx.pb.go:512-525 | the precomputed size is the length of the encoding |
| TxCodec.UpdateWireFormat | x/distro/types/tx.pb.go:395-418 | the encoding byte by byte, the nested message present even when empty |
| TxCodec.UpdateRoundTrip | x/distro/types/tx.pb.go:567-681 | decoding the encoding of any update gives it back, all-empty parameters included |
| TxCodec.UpdateConcatenates | x/distro/types/tx.pb.go:567-681 | decoding two parts in a row is decoding the second on top of the first, failures included |
| TxCodec.NestedParamsMerge | x/distro/types/tx.pb.go:628-660 | two occurrences of the nested parameters decode as one whose payload is both, with the same partial parameters on a failure |
| TxCodec.UpdateIgnoresUnknown | x/distro/types/tx.pb.go:661-674 | a well-formed record with a foreign field number changes neither a success nor a failure |
| TxMarshal.MintMessage.MarshalToSizedBuffer | x/distro/types/tx.pb.go:458-476 | the backward writer fills exactly the last bytes with the encoding |
| TxMarshal.MintMessage.Marshal | x/distro/types/tx.pb.go:443-451 | the returned buffer is the encoding |
| TxMarshal.MintMessage.Unmarshal | x/distro/types/tx.pb.go:732-832 | the in-place loop computes the decoding on every input |
| TxMarshal.UpdateMessage.MarshalToSizedBuffer | x/distro/types/tx.pb.go:395-418 | the nested message, its size and the authority fill exactly the last bytes with the encoding |
| TxMarshal.UpdateMessage.Marshal | x/distro/types/tx.pb.go:380-388 | the returned buffer is the encoding |
| TxMarshal.UpdateMessage.Unmarshal | x/distro/types/tx.pb.go:567-681 | the loop decodes the nested parameters in place on top of what is there |
| DecoderLanguage.DecodesExactly | x/distro/types/params.pb.go:292-507 | a decoding loop that takes one fitting record a turn succeeds if and only if the input is a concatenation of fitting well-formed records |
| DecoderLanguage.ParamsLanguage | x/distro/types/params.pb.go:292-507 | parameters decode if and only if the input is a concatenation of well-formed records with legal tags whose known fields carry the right wire type, whatever the receiver holds |
| DecoderLanguage.MintLanguage | x/distro/types/tx.pb.go:732-832 | the same for a mint message |
| DecoderLanguage.UpdateLanguage | x/distro/types/tx.pb.go:567-681 | the same for an update, each of whose nested fields must hold an input that decodes as parameters |
| DecoderMeaning.ParamsMeaning | x/distro/types/params.pb.go:292-507 | decoding any concatenation of fitting records gives the receiver with the records' effects in order: each sets the field its number names, and foreign ones set nothing |
| DecoderMeaning.MintMeaning | x/distro/types/tx.pb.go:732-832 | the same for a mint message |
| DecoderMeaning.UpdateMeaning | x/distro/types/tx.pb.go:567-681 | the same for an update, each nested occurrence decoded on top of the parameters already there |
| DecoderMeaning.ParamsFailures | x/distro/types/params.pb.go:312-500 | what a failing record leaves in the receiver and which error it gives, numbers that break off included |
| DecoderMeaning.MintFailures | x/distro/types/tx.pb.go:752-825 | the same for a mint message |
| DecoderMeaning.UpdateFailures | x/distro/types/tx.pb.go:587-674 | the same for an update, a failing nested message included |
| Ante.ReportsFirstFault | app/ante.go:49-93 | the early-exit recursion reports exactly the first faulty node of the whole forest in preorder |
| Ante.AcceptsExactly | app/ante.go:35-102 | a transaction passes exactly when every payload unpacks, every path holds at most six messages, no leaf inside a container has a disabled type and no grant at any depth names one |

## Left out

- MintingLimits.ValidateMintingLimits: in a period longer than 2^40 months, where Go's `time.Date` overflows, the number of days Go counts is a parameter of the model and can be any `uint64`; saturation of `time.Duration` below that bound is modelled.
- MintingLimits.PeriodBounds: takes the period the schedule picks for an accepted date, whose boundary offsets fit in an `int` or whose months exceed that bound.
- ScheduleProperties.NoWrapIsExact: takes a period length of at most 2^40 months, because the days of a longer one are Go's to count.
- ScheduleProperties.WrapDropsCeiling: the same bound on the period length.
- MintSafety.RunStaysUnderCeiling: the same bound on the period length, as part of the schedule having started.
- MintSafety.WrapBreaksSafety: the same bound on the period length.
- MintSafety.SafeIffWrapFree: the same bound on the period length.
- MintSafety.SafeFromNothingIff: the same bound on the period length.
- The other lemmas about `Ceiling` and `Ceiling64`, where the period is longer than that bound, speak of the calendar without overflow and not of what Go computes.
- ParamsMarshal.ParamsMessage.Marshal: takes a message whose encoding is shorter than 2^63 bytes, the longest a Go slice can be; so do the other marshallers, the round trips and the concatenation lemmas.
- Chain.App.BeginBlocker: the other modules' begin-block hooks are not modelled.
- Address decoding, denom syntax, blocked recipients and vesting locks are abstract functions; signatures, gas and module permissions are not modelled.
- The 256-bit bound of the SDK's integers is not modelled; amounts in the ledger are unbounded.
- Transfers and burns by other modules are allowed in runs whenever the balance covers them; x/precisebank, x/vm and x/mint inflation are not modelled.
- The fee-market parameters are reduced to the minimum gas price.
- `MarshalTo`, the empty response messages, and the genesis, query and module messages repeat the same generated pattern as the three modelled messages.
- Application wiring, IBC, mempool, upgrades, export, command line, gRPC and logging.
