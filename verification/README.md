# Dafny model of the staking, lending, pool, vesting, governance and bridge protocol

This project models the Soroban contracts of a liquid-staking protocol on Stellar, and the parts of its backend that must
agree with them, and proves properties of whole runs of that model. `dafny verify dfyconfig.toml` checks everything.

## How it is organised

Every contract comes in four files.

* `<Name>Spec.dfy`: the contract's storage as one value, one function per entry point returning `Option<(state, result)>`
  where `None` is a panic, an `Op` datatype with one case per call, and `Step` and `Run` for single transactions and runs.
  `Step` is what the host does: a panicking call leaves the state as it was.
* `<Name>Proofs.dfy`: the invariants and theorems over `Step` and `Run`.
* `<Name>Calls.dfy`: each call in numbers its caller can check, stated by inequalities and balances and not by the functions of the
  specification: when exactly it goes through, who pays whom and how much, what is stored; and what that adds up to over runs.
* `<Name>Contract.dfy` (`LpPool.dfy` for the pool): a class with one mutable field, the key-value store, whose methods
  write it key by key and are proved equal to the functions of the specification. Each
  class ends with `Transact`, the host: it discards the writes of a call that panicked and is proved equal to `Step`.
  So every theorem about `Run` is a theorem about any sequence of calls to the class.

The rest: `Common.dfy` (optional results, Rust's truncating division, sums over maps, token purses), `PoolMath.dfy` and
`Amm.dfy` (the pool's arithmetic), `Quotes.dfy` (the two off-chain quotes), `Composition.dfy` (staking feeding lending),
`RetryQueue.dfy` with `RetrySpec.dfy` and `RetryProofs.dfy` (the relayer's queue), `Relayer.dfy` (queue and bridge
together), `CohortSpec.dfy`, `CohortProofs.dfy`, `CohortAggregator.dfy` (daily balances) and `Twap.dfy` (average prices).

`i128` is modelled by unbounded integers. The workspace builds with overflow checks on, so an overflow is a panic and the
call is rolled back: every state a contract reaches is reached by a run of this model in which that call does not happen,
and the theorems about all runs carry over. `require_auth` is the `actor` (or `user`) of a step. Ledger numbers and
timestamps are parameters of the steps.

## Where the code departs from a promise

Where a promise of the documentation or an expected law fails, the model keeps the code as it is. For each item below the
lemmas named show the failure and say exactly when the law holds.

* Pool: a fee of 0 or of 10000 basis points and more makes every swap panic (`Amm.SwapNeedsFee`; a swap is possible if and
  only if the fee is strictly between: `Amm.TradesIff`). A protocol share above the swap fee can empty the incoming reserve
  (`Amm.ProtocolShareAboveFee`; exactly when, for one swap: `Amm.SwapKeepsReserve`, for whole runs: `PoolProofs.RunKeepsReserves`).
* Pool: `add_liquidity` resets the reward debt without paying: what was pending is forfeited, so the depositor loses nothing
  if and only if nothing was pending (`PoolProofs.AddForfeitsPending`).
* Staking: a first-deposit branch taken while shares are still around (stake slashed to zero) resets the supply and forgets
  the old holders (`StakingProofs.RestartForgetsHolders`, reached from deployment for all amounts). Supply stays the sum of
  all holdings if and only if no such deposit goes through (`StakingProofs.SharesStep`, `StakingProofs.SharesOverRuns`), and
  the gap is exactly the supply forgotten (`StakingProofs.GapOverRuns`).
* Staking: the comment in the first-deposit branch speaks of seeding the buffer with the full first deposit; the code tops it
  up to 5% of it, which is never the whole (`StakingProofs.SeedIsATwentieth`).
* Staking: the comment on `instant_withdraw` says its fee raises the exchange rate. The code books the full value out of the
  total, so stake, supply and rate are those of a fee-free withdrawal and the fee stays outside the books
  (`StakingProofs.InstantFeeLeavesRate`).
* Staking: the exchange rate falls in slashes and also in delayed claims, whose shares are burnt at the request while the total
  is lowered only at the claim; it falls in exactly those that take something (`StakingProofs.RateStep`, over runs
  `StakingProofs.RateOverRuns`).
* Lending: `configure_asset` insists that the collateral factor is at most the liquidation threshold, the constructor does not; a
  deployment starts safe if and only if it is (`LendingSafety.InitialSafe`).
* Lending and staking: `sync_sxlm_price` accepts any configured asset, not only sXLM; syncing another asset can pull its
  price down to the staking rate and make a healthy borrower liquidatable (`Composition.SyncOfOtherAssetLowersPrice`). A sync
  endangers no position within its borrowing limit if and only if live rate times threshold is at least old price times
  collateral factor (`LendingSafety.SyncHarmlessIff`); for positions borrowed at earlier prices: `LendingSafety.HarmlessIff`.
* Governance: the comment on `cancel_proposal` names guardian or admin; in the code, once a guardian is set only the guardian
  can cancel. The comment is right if and only if there is no guardian or the admin is the guardian
  (`GovernanceProofs.GuardianOrAdmin`).
* Governance: a cancelled proposal can still be written through the admin's direct path, exactly while it is unexecuted and
  meets the quorum (`GovernanceProofs.CancelDoesNotBindAdmin`).
* Governance: vote weight is read at voting time, so the same tokens can vote twice from two accounts
  (`GovernanceProofs.SameTokensVoteTwice`). Votes exceed the voters' balances by exactly the tokens that left accounts after
  they voted; they agree if and only if that net amount is zero (`GovernanceProofs.TurnoutOverRuns`, for one token movement
  `GovernanceProofs.TokenKeepsTurnout`).
* Bridge: a release above the locked amount mints without lowering it (`BridgeProofs.CirculatingOverRuns`, exactly when).
  The token has a single minter, so staking and the bridge cannot both be live on it (`BridgeProofs.BridgeMustBeTheMinter`).
* Relayer: failed deliveries are to be retried, but both kinds of event carry a `bigint`, on which the queue's
  `JSON.stringify` throws: the queue of the running relayer never holds anything (`Relayer.AsWiredNothingIsQueued`), and what
  plain JSON can carry is refused by the processors (`Relayer.PlainJsonNeverDelivers`). A retry delivers if and only if the
  codec carries bigints (`Relayer.RetryDeliversIff`). The codec is a field of the queue's configuration: the other results on
  queue and relayer hold for both, but only with a codec that carries bigints do they say anything about retried releases.
* Relayer, with such a codec: a release whose confirmation is lost never counts as finished in any later run
  (`Relayer.ReleasedNeverFinishes`); its item stays queued while it has tries left and is a dead letter exactly when the last
  one is spent, although it was delivered (`Relayer.LostItemIsBuried`). An EVM amount can be released only from one sXLM unit
  up (`Relayer.ScalingRoundTrip`).
* Relayer: its README says items are added with an initial delay; the code makes them due at once, which agrees if and only
  if the delay is configured to zero (`RetryProofs.AddedIsDue`). The configured `maxAttempts` is never read
  (`RetryProofs.ConfiguredLimitIsUnread`); each item carries its own, and burying agrees with the configuration if and only if
  the two limits coincide (`RetryProofs.BuriedByOwnLimit`).
* Daily balances: the carry-forward job forgets dips below zero (`CohortProofs.DipIsForgotten`; exactly when the two jobs
  agree: `CohortProofs.DailyAgainstBackfill`).
* The liquidity engine's average price takes a window and ignores it. For observations in order and every window it is the
  window's average if and only if what it counts before the window and what it leaves out after the newest observation outweigh
  that average alike (`Twap.EngineIsWindowIff`; observations of one moment: `Twap.OneMomentIff`). As the service calls it, the
  newest observation is the current one and a row older than the window comes first as an anchor, which is counted from its own
  time on (`Twap.AnchorIsOvercounted`): right if and only if the anchor's price is the window's average (`Twap.OneAnchorIff`,
  several such rows `Twap.AnchoredIff`, none `Twap.NoAnchorIff`). A newest price that has been in force for a while does not
  count at all (`Twap.NewestPriceIsUncounted`, `Twap.WindowMatters`): over the whole history up to now the engine is right if and
  only if that price is its average already (`Twap.WholeHistoryIff`). It is right about every window if and only if one price was
  in force throughout (`Twap.EveryWindowIff`). Observations out of order are counted over more time than they span, exactly unless
  they are in order (`Twap.SpanIffSorted`).

## Model

| member | source | states |
|---|---|---|
| PoolMath.Isqrt | contracts/lp-pool/src/lib.rs:128-139 | Newton's loop terminates and returns the exact floor of the square root for every argument, 0 for non-positive ones |
| PoolMath.NewtonStep | contracts/lp-pool/src/lib.rs:134-137 | from any positive iterate the next one never drops below the true root |
| Amm.SwapNeedsFee | contracts/lp-pool/src/lib.rs:585-612 | only a pool whose fee is strictly between 0 and 10000 bps accepts a swap at all |
| Amm.TradesIff | contracts/lp-pool/src/lib.rs:585-612 | for any reserves with more than one unit to take, some amount can be swapped if and only if the fee is strictly between 0 and 100% |
| Amm.ConstantProductLaw | contracts/lp-pool/src/lib.rs:592-623 | the new product of reserves is k - (k mod m) + retained fee times the new output reserve, m being the effective input reserve; the product does not fall exactly when the retained fee covers the remainder |
| Amm.SwapKeepsReserve | contracts/lp-pool/src/lib.rs:610-620 | an accepted swap leaves the incoming reserve positive if and only if fee times protocol share stays below fee rate times (reserve + input); with the share at most the fee the reserve grows |
| Amm.SwapExactly | contracts/lp-pool/src/lib.rs:592-623 | a swap goes through exactly if it keeps and takes something and enough; the output is what the floored kept reserve leaves, the cut the floored share protocolBps/feeBps of the fee amount − a, a being the floored input after the fee |
| Amm.ProtocolShareAboveFee | contracts/lp-pool/src/lib.rs:303-303 | with the default share of 5 bps and a 1 bps fee a concrete accepted swap empties the incoming reserve |
| Amm.MintTakesAtMostOffered | contracts/lp-pool/src/lib.rs:451-465 | a deposit takes at most what was offered of both assets, keeps supply positive exactly with both reserves, and the first mint is the integer root of the product |
| Amm.MintIsTheLargest | contracts/lp-pool/src/lib.rs:454-462 | the scarcer side is taken in full and one share more would exceed it |
| Amm.MintExactly | contracts/lp-pool/src/lib.rs:451-470 | a later deposit goes through exactly if all amounts are positive, mints the largest number of shares both offers pay for, takes one side in full (sXLM on a tie) and the other in floored proportion |
| Amm.FirstMintExactly | contracts/lp-pool/src/lib.rs:443-450 | the first deposit takes both offers and mints the floored root of their product |
| Amm.BurnExactly | contracts/lp-pool/src/lib.rs:544-551 | a withdrawal goes through exactly if both floored shares are positive, and they are what it pays |
| Amm.AddThenRemove | contracts/lp-pool/src/lib.rs:451-547 | burning exactly the minted shares returns at most the deposit, in both assets and all branches |
| Amm.BurnKeepsShareValue | contracts/lp-pool/src/lib.rs:544-551 | a withdrawal pays each reserve's exact share rounded down, never lowers a reserve per remaining share, and empties the pool only with the last share |
| Quotes.DexQuoteIsTheTrade | backend/src/dex-integration/index.ts:119-163 | the contract accepts exactly the dex quotes that leave something in the pool, at exactly the quoted output |
| Quotes.EngineQuoteIsTheFloor | backend/src/liquidity-engine/index.ts:117-131 | the engine's quote is the contract's output, or one less precisely when the division leaves a remainder |
| Quotes.QuotedMinimumPasses | backend/src/dex-integration/index.ts:172-173 | for any non-negative slippage both minimum outputs pass the contract's slippage check |
| Quotes.DexQuoteExactly | backend/src/dex-integration/index.ts:119-173 | when the quote is refused, its output, and the minimum as output times (100% − slippage) rounded down, 0 from 100% slippage on |
| Quotes.EngineQuoteExactly | backend/src/liquidity-engine/index.ts:117-154 | output and minimum of the engine, both as exact floors |
| PoolProofs.RewardSolvency | contracts/lp-pool/src/lib.rs:147-216 | in every run, across program replacements: P·paid + all positive entitlements ≤ P·distributed + (P-1)·roundings, so paid ≤ distributed + roundings, and distributed stays within budget and rate |
| PoolCalls.UpdateExactly | contracts/lp-pool/src/lib.rs:147-216 | with shares, an update books min(budget left, rate × time since the last one up to the end) and raises the accumulator by the floored reward per share; without shares the clock moves and nothing is booked; past the end nothing changes |
| PoolCalls.EmissionOverRuns | contracts/lp-pool/src/lib.rs:147-216 | over every run with shares throughout, distributed = min(total, distributed at entry + rate × settled time), however calls cut that time up |
| PoolCalls.EmissionToDate | contracts/lp-pool/src/lib.rs:147-216 | right after a call that settles, the settled time reaches from the entry to now, or to the end of the program |
| PoolCalls.ClaimExactly | contracts/lp-pool/src/lib.rs:368-429 | pending rewards are the floored entitlement at the emission up to now less the debt; a claim goes through exactly if the contract holds that much of the program asset, pays it to the claimant in that asset and in no other, and stores the entitlement as debt |
| PoolCalls.DebtIsEntitlement | contracts/lp-pool/src/lib.rs:397-502 | after a claim, deposit or withdrawal the debt is the floored entitlement of the shares then held |
| PoolProofs.RunKeepsInv | contracts/lp-pool/src/lib.rs:147-746 | every run keeps custody (holdings = reserve + accrued fee per asset), supply = sum of LP balances, and the reward books |
| PoolProofs.RunKeepsReserves | contracts/lp-pool/src/lib.rs:436-746 | over every run, supply is positive exactly with both reserves after every call if and only if each accepted swap has fee times protocol share below fee rate times (reserve + input) |
| PoolProofs.ShareWithinFeeIsCovered | contracts/lp-pool/src/lib.rs:610-620 | with the protocol share at most the fee every accepted swap meets that condition |
| PoolProofs.InitialInv | contracts/lp-pool/src/lib.rs:277-306 | the freshly initialised pool satisfies all of these, the reserve part for every unsigned fee |
| PoolProofs.CustodyStep | contracts/lp-pool/src/lib.rs:436-746 | each call moves tokens and books together |
| PoolCalls.AddExactly | contracts/lp-pool/src/lib.rs:436-502 | a deposit goes through exactly if the user holds both matched amounts; the user alone pays them and alone gets the shares |
| PoolCalls.RemoveExactly | contracts/lp-pool/src/lib.rs:505-573 | a withdrawal goes through exactly if the user has the shares and the contract both amounts and the reward due; the user, and nobody else, receives all three |
| PoolCalls.SwapsExactly | contracts/lp-pool/src/lib.rs:580-694 | each swap goes through exactly if the trade exists, the user holds the input and the contract the output; the user pays one and gets the other, and the cut joins the fees accrued in the asset that came in, no other |
| PoolCalls.CollectsExactly | contracts/lp-pool/src/lib.rs:701-746 | only the admin collects, all that has accrued, into the admin's own wallet |
| PoolCalls.AdminExactly | contracts/lp-pool/src/lib.rs:325-365 | who may set a program or the protocol share, with which values, and that nothing else moves |
| PoolCalls.WalletsOverRuns | contracts/lp-pool/src/lib.rs:274-754 | over every run and token a wallet moves by its owner's own calls only, by the amounts those calls settled on |
| PoolCalls.FeesOverRuns | contracts/lp-pool/src/lib.rs:580-746 | over every run, fees collected + accrued = fees accrued before + the cuts of all accepted swaps, per asset |
| PoolProofs.LedgerStep | contracts/lp-pool/src/lib.rs:480-556 | each call keeps the share total equal to the sum of balances |
| PoolProofs.RewardStep | contracts/lp-pool/src/lib.rs:327-573 | each call, program replacement with stale debts included, keeps rewards backed |
| PoolProofs.ReservesStep | contracts/lp-pool/src/lib.rs:436-694 | a call keeps reserves and supply positive together if and only if it is no accepted swap that breaks that condition |
| PoolProofs.NoZeroDivisor | contracts/lp-pool/src/lib.rs:451-547 | in those states no division by zero can be reached: not by supply, nor by either reserve plus the effective input of a swap from that side |
| PoolProofs.EmissionPathIndependent | contracts/lp-pool/src/lib.rs:147-216 | updating at t1 and then t2 books exactly what one update at t2 books; the accumulators differ by at most 1 |
| PoolProofs.ProjectionIsUpdate | contracts/lp-pool/src/lib.rs:220-269 | the read-only projection equals the accumulator a mutating update would store, for every state and time |
| PoolProofs.PendingIsPaid | contracts/lp-pool/src/lib.rs:368-429 | claim_rewards pays exactly what pending_rewards announces at that time and can fail only for lack of reward tokens |
| PoolProofs.AllPendingCovered | contracts/lp-pool/src/lib.rs:368-382 | everybody's pending rewards together, plus those paid, stay within what is distributed plus the roundings |
| PoolProofs.FundedClaimsSucceed | contracts/lp-pool/src/lib.rs:385-429 | a contract holding what is distributed and unpaid, plus one unit per rounding, never refuses a claim |
| PoolProofs.HolderIsOwed | contracts/lp-pool/src/lib.rs:147-216 | a holder who keeps still through any run is owed, beyond the entry debt, at least the floored share of every reward booked meanwhile, less one accumulator unit per share and booking; pending rewards announce it up to one token unit |
| PoolProofs.FairStep | contracts/lp-pool/src/lib.rs:197-216 | the same for each call |
| PoolProofs.AddForfeitsPending | contracts/lp-pool/src/lib.rs:487-494 | after adding liquidity nothing is pending and no reward was paid; pending rewards are unchanged if and only if there were none |
| PoolProofs.DepositRoundTrip | contracts/lp-pool/src/lib.rs:436-573 | depositing and later withdrawing exactly the minted shares returns at most the deposit in both assets |
| LpPoolContract.LpPool.UpdatePool | contracts/lp-pool/src/lib.rs:147-216 | settling the clock changes accumulator, clock and distributed amount only, with all four early exits |
| LpPoolContract.LpPool.SetMiningProgram | contracts/lp-pool/src/lib.rs:327-365 | admin only; settles what accrued, installs the program, restarts the accumulator at 0 and leaves all debts as they are |
| LpPoolContract.LpPool.PendingRewards | contracts/lp-pool/src/lib.rs:368-382 | the view answers entitlement minus debt, never below 0, and changes nothing |
| LpPoolContract.LpPool.ClaimRewards | contracts/lp-pool/src/lib.rs:385-429 | pays the settled entitlement above the debt and sets the debt to it; panics without a program or without the tokens and then leaves no trace |
| LpPoolContract.LpPool.AddLiquidity | contracts/lp-pool/src/lib.rs:436-502 | takes the matched amounts of both assets, mints the shares it returns, and enters the position at the current accumulator |
| LpPoolContract.LpPool.RemoveLiquidity | contracts/lp-pool/src/lib.rs:505-573 | claims first, then pays the share of both reserves, burns the shares and re-enters the rest of the position |
| LpPoolContract.LpPool.SwapXlmToSxlm | contracts/lp-pool/src/lib.rs:580-631 | XLM in, sXLM out at the returned output; the protocol cut moves from the XLM reserve to the accrued fees |
| LpPoolContract.LpPool.SwapSxlmToXlm | contracts/lp-pool/src/lib.rs:634-694 | sXLM in, XLM out; the cut moves from the sXLM reserve to its accrued fees |
| LpPoolContract.LpPool.CollectProtocolFees | contracts/lp-pool/src/lib.rs:701-724 | pays the accrued XLM fees to the admin and zeroes them |
| LpPoolContract.LpPool.CollectProtocolFeesSxlm | contracts/lp-pool/src/lib.rs:727-746 | pays the accrued sXLM fees to the admin and zeroes them |
| LpPoolContract.LpPool.Transact | contracts/lp-pool/src/lib.rs:274-754 | any call, panicking ones included, is one atomic step, so the run theorems hold of any sequence of calls to the class |
| LendingProofs.ConservationOverRuns | contracts/lending/src/lib.rs:402-611 | in every run total debt = sum of debts, each asset's total = sum of user balances, and holdings minus collateral plus loans move only by donations, for every token |
| LendingProofs.LedgerStep | contracts/lending/src/lib.rs:402-611 | each call keeps these books |
| LendingProofs.SeizureBounded | contracts/lending/src/lib.rs:567-587 | a liquidation seizes at most what is available, and seized·price·BPS ≤ debt·(BPS+bonus)·precision |
| LendingProofs.LiquidateEffect | contracts/lending/src/lib.rs:534-611 | a liquidation repays one user's whole debt, moves collateral of one asset of that user, and changes nothing else |
| LendingCalls.LiquidateExactly | contracts/lending/src/lib.rs:534-611 | a liquidation goes through exactly if debt exceeds the threshold-weighted collateral, the liquidator holds the debt and the contract the seizure; the seizure is the whole balance or the floor of D·rate/price, D the floor of debt plus bonus; the liquidator pays the debt and receives it |
| LendingCalls.DepositExactly | contracts/lending/src/lib.rs:402-427 | exactly for a positive amount of a supported asset the user holds; the user pays it into balance and total |
| LendingCalls.WithdrawExactly | contracts/lending/src/lib.rs:430-464 | exactly if balance and holding suffice and what is left covers the debt by the borrowing factor; the user receives it |
| LendingCalls.BorrowExactly | contracts/lending/src/lib.rs:467-497 | exactly if the debt including it stays within the limit and the contract holds it; the borrower receives it |
| LendingCalls.RepayExactly | contracts/lending/src/lib.rs:500-525 | takes the smaller of offer and debt from the payer's own wallet |
| LendingCalls.AdminExactly | contracts/lending/src/lib.rs:281-400 | who may set factors, prices and bonus within which bounds, and that only that value changes |
| LendingCalls.TermExactly | contracts/lending/src/lib.rs:155-172 | one asset counts balance × price × factor, rounded down once |
| LendingCalls.PositionsAdd | contracts/lending/src/lib.rs:155-203 | weighted and plain positions add up asset by asset |
| LendingCalls.HealthExactly | contracts/lending/src/lib.rs:670-678 | the health factor is the floored quotient, and absent exactly without debt |
| LendingCalls.PositionsOverRuns | contracts/lending/src/lib.rs:402-611 | over every run a wallet moves by its owner's calls only; collateral = deposits − withdrawals − seizures, debt = loans − repayments − liquidated debt, per user |
| LendingSafety.OverrideIsUpdate | contracts/lending/src/lib.rs:176-203 | the loop with an overridden balance equals the plain loop on the updated map |
| LendingSafety.CoverIff | contracts/lending/src/lib.rs:441-450 | the floored health factor reaches one exactly when weighted collateral covers the debt |
| LendingSafety.WeightedGrows | contracts/lending/src/lib.rs:155-172 | weighted collateral never falls when balances, prices and factors of each asset grow |
| LendingSafety.LiquidationEnabled | contracts/lending/src/lib.rs:534-587 | liquidate succeeds if and only if debt is positive and exceeds the threshold-weighted collateral, there is something to seize, the liquidator can pay, and the contract holds what it must hand over |
| LendingSafety.PricedOverRuns | contracts/lending/src/lib.rs:281-611 | balances and factors stay non-negative, prices positive and collateral within supported assets in every run, ordered factors or not, so that this holds in every reachable state |
| LendingSafety.SafeMeansHealthy | contracts/lending/src/lib.rs:534-551 | a position within its borrowing limit cannot be liquidated and its health factor is at least one |
| LendingSafety.SteadyStep | contracts/lending/src/lib.rs:281-611 | every call after which each asset still liquidates at no less than it ever lent keeps every debt within a limit that liquidates nobody |
| LendingSafety.NoLiquidationInTolerableRuns | contracts/lending/src/lib.rs:281-611 | over any run of such calls, price and factor falls within that margin included, every debt stays within the threshold-weighted collateral and no liquidation ever succeeds |
| LendingSafety.HarmlessIff | contracts/lending/src/lib.rs:331-346 | a new price and factors of one asset leave every such position covered if and only if price times threshold is at least the highest price times collateral factor lent against so far |
| LendingSafety.SyncHarmlessIff | contracts/lending/src/lib.rs:348-376 | a sync leaves every position within its borrowing limit covered if and only if live rate times threshold is at least old price times collateral factor |
| LendingSafety.FavourableIsTolerable | contracts/lending/src/lib.rs:281-376 | calls that lower no price or factor are among those within the margin |
| LendingSafety.SafeStep | contracts/lending/src/lib.rs:281-525 | every call that lowers no price or factor keeps every user within the borrowing limit |
| LendingSafety.NoLiquidationInFavourableRuns | contracts/lending/src/lib.rs:281-611 | over any interleaving of such calls debt ≤ limit ≤ threshold for every user, and no liquidation ever succeeds |
| LendingSafety.InitialSafe | contracts/lending/src/lib.rs:212-262 | a deployment starts safe if and only if its collateral factor is at most its threshold; its books balance and its values are non-negative in any case |
| LendingSafety.WeightedBelowValue | contracts/lending/src/lib.rs:155-172 | a weighted position is never worth more than its plain value |
| LendingContractModel.LendingContract.ComputeWeightedCollateral | contracts/lending/src/lib.rs:155-172 | the loop computes the recursive sum |
| LendingContractModel.LendingContract.ComputeWeightedCollateralWithOverride | contracts/lending/src/lib.rs:176-203 | the loop computes the sum with one balance replaced |
| LendingContractModel.LendingContract.GetPosition | contracts/lending/src/lib.rs:652-666 | the loop computes the unweighted value and reads the debt |
| LendingContractModel.LendingContract.GetHealthFactor | contracts/lending/src/lib.rs:670-678 | threshold-weighted collateral over debt in fixed point, rounded down; no value without debt (the source answers the largest integer) |
| LendingContractModel.LendingContract.ConfigureAsset | contracts/lending/src/lib.rs:281-327 | all range checks, the ten-asset limit, and the configuration written |
| LendingContractModel.LendingContract.UpdateAssetPrice | contracts/lending/src/lib.rs:331-346 | sets one price, nothing else |
| LendingContractModel.LendingContract.SyncSxlmPrice | contracts/lending/src/lib.rs:348-376 | copies the live rate into the named configured asset |
| LendingContractModel.LendingContract.DepositCollateral | contracts/lending/src/lib.rs:402-427 | a supported asset moves from the user to the contract and into the balance and the total of that asset |
| LendingContractModel.LendingContract.WithdrawCollateral | contracts/lending/src/lib.rs:430-464 | collateral is paid back only if what remains still covers the debt by the borrowing factor |
| LendingContractModel.LendingContract.BorrowXlm | contracts/lending/src/lib.rs:467-497 | pays out XLM only if the debt including it stays within the borrowing limit and the contract holds it |
| LendingContractModel.LendingContract.RepayXlm | contracts/lending/src/lib.rs:500-525 | takes at most the debt and lowers debt and total debt by what it took |
| LendingContractModel.LendingContract.LiquidatePosition | contracts/lending/src/lib.rs:534-611 | the liquidator pays the whole debt and receives the collateral of equal value plus bonus, capped at the balance |
| LendingContractModel.LendingContract.Transact | contracts/lending/src/lib.rs:205-611 | any call, panicking ones included, is one atomic step, so the run theorems hold of any sequence of calls to the class |
| StakingProofs.SlackOverRuns | contracts/staking/src/lib.rs:278-787 | in every run balance - stake - treasury moves exactly by liquidity added, instant fees, slashes, overwritten totals (up) and gross rewards booked (down) |
| StakingProofs.SlackStep | contracts/staking/src/lib.rs:278-787 | the same for each call |
| StakingCalls.FirstDepositExactly | contracts/staking/src/lib.rs:278-329 | into an empty pool exactly from 1000 up; the user pays, gets all shares but the 1000 locked, and the buffer is topped up towards 5% |
| StakingCalls.LaterDepositExactly | contracts/staking/src/lib.rs:330-369 | exactly if it buys a share; shares are the floor of x·supply/stake, and the buffer is topped up towards 5% of the new stake from this deposit only |
| StakingCalls.RequestExactly | contracts/staking/src/lib.rs:372-438 | exactly if the shares are held and worth something; paid to the user from a buffer that suffices, else queued at the floored value of the burnt shares, unlocking at ledger + cooldown |
| StakingCalls.InstantExactly | contracts/staking/src/lib.rs:499-571 | pays the value less the floored 0.3% to the user, exactly if the contract holds that |
| StakingCalls.ClaimExactly | contracts/staking/src/lib.rs:441-478 | exactly for the queued user, unpaused, from the unlock ledger on, unclaimed, with the amount held; pays it to that user and marks it |
| StakingCalls.ClaimedOnce | contracts/staking/src/lib.rs:441-478 | over every run each queued number is claimed at most once, exactly if its mark gets set, never after it was set; all that is paid for it is the queued amount or nothing, and user, amount and unlock ledger never change |
| StakingCalls.RewardsExactly | contracts/staking/src/lib.rs:579-600 | a floored tenth goes to the treasury, the rest to the stake |
| StakingCalls.AdminExactly | contracts/staking/src/lib.rs:604-787 | who may withdraw fees, slash, pause, add liquidity and set the cooldown, within which bounds, to whom it is paid, and that nothing else moves |
| StakingCalls.CheckExactly | contracts/staking/src/lib.rs:144-181 | the integrity check in numbers: holding at least the shares' worth at the floored rate |
| StakingCalls.RateExactly | contracts/staking/src/lib.rs:826-835 | the published rate is the floored stake per share, one without shares |
| StakingCalls.ChecksExactly | contracts/staking/src/lib.rs:278-571 | deposits and withdrawals go through exactly if the check passes afterwards |
| StakingCalls.WalletsOverRuns | contracts/staking/src/lib.rs:278-787 | over every run a user's XLM moves by the user's own calls only, and shares are those minted for the user − redeemed ± transferred |
| StakingProofs.IntrinsicBounds | contracts/staking/src/lib.rs:153-166 | the checked value lies within (stake - supply/1e7 - 1, stake] |
| StakingProofs.UserOpsKeepBacked | contracts/staking/src/lib.rs:278-571 | from balance ≥ stake no deposit, request, instant or delayed withdrawal trips the integrity check or breaks balance ≥ stake |
| StakingProofs.BackedStep | contracts/staking/src/lib.rs:278-787 | the same for each call |
| StakingProofs.BackedOverRuns | contracts/staking/src/lib.rs:144-181 | a run keeps balance ≥ stake after every call if and only if each booking of rewards and each fee withdrawal that goes through stays within balance minus stake; then the breaker cannot trip |
| StakingProofs.TriggerIsTheCheck | contracts/staking/src/lib.rs:732-767 | with non-zero totals the public breaker pauses exactly in states where the integrity check panics |
| StakingProofs.SharesStep | contracts/staking/src/lib.rs:278-571 | a call keeps supply = dead shares + all balances if and only if it is not a restarting deposit that goes through |
| StakingProofs.GapOverRuns | contracts/staking/src/lib.rs:278-571 | over every run holdings minus supply grows by exactly the supplies that restarting deposits overwrote |
| StakingProofs.SharesOverRuns | contracts/staking/src/lib.rs:278-571 | a run keeps it after every call if and only if no restarting deposit goes through |
| StakingProofs.InitialShares | contracts/staking/src/lib.rs:221-249 | the deployed contract starts with these books balanced |
| StakingProofs.RestartForgetsHolders | contracts/staking/src/lib.rs:296-312 | from deployment: deposit x, slash everything, deposit y: supply is y and x shares of the first holder are outside it, for all x and y |
| StakingProofs.SeedIsATwentieth | contracts/staking/src/lib.rs:314-324 | the first deposit tops the buffer up to a twentieth of it, never to the whole |
| StakingProofs.BufferOverRuns | contracts/staking/src/lib.rs:314-324 | in every run the buffer never falls below zero |
| StakingProofs.InstantFeeLeavesRate | contracts/staking/src/lib.rs:496-571 | every instant withdrawal leaves the stake, supply and rate of a withdrawal without a fee, and the fee ends up outside the books; a buffered request leaves the same totals |
| StakingProofs.RateStep | contracts/staking/src/lib.rs:278-679 | with positive totals a call keeps T'·S ≥ T·S' if and only if it is no slash and no delayed claim of a positive amount that goes through; then the totals stay positive |
| StakingProofs.RateOverRuns | contracts/staking/src/lib.rs:826-835 | no call of a run lowers the rate if and only if no slash and no delayed claim takes something; then neither the exact nor the published rate falls |
| StakingProofs.DepositThenRedeem | contracts/staking/src/lib.rs:278-571 | redeeming the minted shares next, by either route, never returns more than the deposit |
| StakingProofs.DepositKeepsItsValue | contracts/staking/src/lib.rs:331-343 | right after a deposit its shares are worth at most the deposit and short of it by less than one unit plus one share's value |
| StakingContractModel.StakingContract.CheckIntegrity | contracts/staking/src/lib.rs:144-181 | answers whether the check passes |
| StakingContractModel.StakingContract.DepositXlm | contracts/staking/src/lib.rs:278-369 | first and later deposits: XLM in, shares minted at the rate before the deposit, buffer topped up, integrity checked last |
| StakingContractModel.StakingContract.RequestXlm | contracts/staking/src/lib.rs:372-438 | burns the shares; pays at once from a buffer that suffices, else queues a withdrawal with its unlock ledger |
| StakingContractModel.StakingContract.ClaimXlm | contracts/staking/src/lib.rs:441-478 | pays a queued withdrawal once, to its owner, from its unlock ledger on, and lowers the stake by it |
| StakingContractModel.StakingContract.InstantXlm | contracts/staking/src/lib.rs:499-571 | burns the shares and pays their value less the fee, if the contract holds it; stake falls by the full value |
| StakingContractModel.StakingContract.BookRewards | contracts/staking/src/lib.rs:579-600 | splits booked rewards between treasury and stake |
| StakingContractModel.StakingContract.TakeFees | contracts/staking/src/lib.rs:604-634 | pays out treasury fees, all of them for a non-positive amount |
| StakingContractModel.StakingContract.Slash | contracts/staking/src/lib.rs:647-679 | lowers the stake within bounds |
| StakingContractModel.StakingContract.TripBreaker | contracts/staking/src/lib.rs:732-767 | anybody can pause the contract exactly while it holds less than the shares are worth at the floored rate; otherwise, or with nothing staked, it panics |
| StakingContractModel.StakingContract.FillBuffer | contracts/staking/src/lib.rs:773-787 | adds liquidity to the buffer |
| StakingContractModel.StakingContract.Transact | contracts/staking/src/lib.rs:216-835 | any call, panicking ones included, is one atomic step, so the run theorems hold of any sequence of calls to the class |
| Composition.AlignedStep | contracts/lending/src/lib.rs:348-376 | staking, lending and price-sync steps within the margin, slashes and delayed claims included, keep what was lent against sXLM below its threshold value at the live rate, and every position covered; other staking calls and a sync of sXLM always qualify |
| Composition.SyncsNeverLiquidate | contracts/lending/src/lib.rs:348-376 | over any interleaving of both contracts within that margin, price syncs never make any position liquidatable; unless a slash or a delayed claim takes something, the rate never falls |
| Composition.SafeIsAligned | contracts/lending/src/lib.rs:348-376 | positions within their limits and an sXLM price at or below the live rate are enough to start from |
| Composition.SyncOfOtherAssetLowersPrice | contracts/lending/src/lib.rs:348-376 | an instance: syncing an asset priced at ten times the rate makes a healthy borrower liquidatable |
| VestingProofs.VestedIsTheFloor | contracts/vesting/src/lib.rs:156-164 | between cliff and end the vested amount is the exact linear share rounded down |
| VestingProofs.VestedMono | contracts/vesting/src/lib.rs:145-165 | the vested amount never falls as ledgers pass |
| VestingProofs.VestedBounds | contracts/vesting/src/lib.rs:145-165 | it stays within 0 and the total |
| VestingCalls.VestedExactly | contracts/vesting/src/lib.rs:145-165 | nothing before the cliff, all from the end on, in between the floored linear share since the start |
| VestingCalls.CreateExactly | contracts/vesting/src/lib.rs:220-278 | exactly for a positive total the caller holds and ledgers in order; every stored field, and the caller pays the total |
| VestingCalls.ClaimExactly | contracts/vesting/src/lib.rs:283-390 | exactly for the beneficiary with something due and held; the beneficiary receives it in the schedule's token |
| VestingCalls.RevokeExactly | contracts/vesting/src/lib.rs:326-367 | exactly for the admin on a revocable, unrevoked schedule; the admin receives the unvested rest |
| VestingCalls.WalletsOverRuns | contracts/vesting/src/lib.rs:220-390 | over every run and token a wallet moves by its owner's own calls only |
| VestingProofs.CustodyOverRuns | contracts/vesting/src/lib.rs:220-367 | in every run claimed ≤ effective vested for each schedule, and per token the contract holds exactly what all schedules can still pay plus what was given to it |
| VestingProofs.SurplusStep | contracts/vesting/src/lib.rs:220-367 | the same balance for each call |
| VestingProofs.SoundStep | contracts/vesting/src/lib.rs:220-367 | each call keeps every schedule within its curve |
| VestingProofs.ClaimPaysClaimable | contracts/vesting/src/lib.rs:283-390 | the beneficiary's claim succeeds exactly when get_claimable is positive, and pays that amount |
| VestingProofs.RevokeKeepsClaimable | contracts/vesting/src/lib.rs:326-367 | revoking always succeeds on a revocable schedule and freezes the claimable amount of that ledger |
| VestingProofs.PayoutsOverRuns | contracts/vesting/src/lib.rs:283-367 | over any run claims pay the growth of `claimed`, refunds the drop of the ceiling, together never more than the total |
| VestingProofs.ClaimsPayTheCurve | contracts/vesting/src/lib.rs:283-320 | however claims are split, after a successful claim the beneficiary has received exactly the effective vested amount of that ledger; after the end beneficiary and refund make up the total |
| VestingProofs.IndexedOverRuns | contracts/vesting/src/lib.rs:110-122 | each beneficiary's list holds exactly its schedules, oldest first, none twice |
| VestingProofs.InitialSound | contracts/vesting/src/lib.rs:179-192 | the deployed contract starts sound, indexed and without surplus |
| VestingContractModel.VestingContract.CreateSchedule | contracts/vesting/src/lib.rs:220-278 | takes the whole total from the creator, stores the schedule under the next number and appends it to the beneficiary's list |
| VestingContractModel.VestingContract.ClaimVested | contracts/vesting/src/lib.rs:283-320 | only the beneficiary; pays what is vested and unclaimed and books it |
| VestingContractModel.VestingContract.RevokeSchedule | contracts/vesting/src/lib.rs:326-367 | only the admin and only revocable schedules; freezes what is vested and refunds the rest |
| VestingContractModel.VestingContract.GetClaimable | contracts/vesting/src/lib.rs:374-390 | the view answers vested minus claimed, never below 0 |
| VestingContractModel.VestingContract.Transact | contracts/vesting/src/lib.rs:176-412 | any call, panicking ones included, is one atomic step, so the run theorems hold of any sequence of calls to the class |
| GovernanceProofs.RecordOverRuns | contracts/governance/src/lib.rs:327-540 | in every run tallies are the sums of the published votes, no voter counts twice on a proposal, executions are counted by the executed flag, and stored parameters are the published writes replayed in order |
| GovernanceProofs.AtMostOneWrite | contracts/governance/src/lib.rs:452-540 | from deployment on no proposal is written twice across both execution paths |
| GovernanceProofs.InitialRecorded | contracts/governance/src/lib.rs:202-237 | the deployed contract starts with an empty, lawful record |
| GovernanceProofs.RecordedStep | contracts/governance/src/lib.rs:282-540 | the same records for each call |
| GovernanceProofs.BallotsStep | contracts/governance/src/lib.rs:341-356 | each call keeps the voted marks equal to the published votes, one per voter |
| GovernanceProofs.FrozenOverRuns | contracts/governance/src/lib.rs:334-339 | once the ledger is past the end of voting the tallies never change again |
| GovernanceProofs.EntriesOverRuns | contracts/governance/src/lib.rs:365-449 | a timelock entry is never replaced or altered except by cancelling it for good, and after that no timelocked execution goes through |
| GovernanceProofs.TimelockedWriteIsLawful | contracts/governance/src/lib.rs:452-482 | after any run a timelocked execution needs an uncancelled entry with more votes for than against, ledger ≥ eta > end of voting, and writes exactly the proposal's parameter |
| GovernanceCalls.WritesWaitForTheDelay | contracts/governance/src/lib.rs:400-482 | from deployment on, a timelocked write happens no earlier than the delay in force when the proposal was queued after that ledger, whatever is done to the delay in between |
| GovernanceCalls.DueAfterDelay | contracts/governance/src/lib.rs:400-417 | the due ledger of every entry of a run is the ledger of its queueing plus the delay then in force |
| GovernanceCalls.QuorumExactly | contracts/governance/src/lib.rs:381-391 | the quorum is the floored share of the reference supply, none without one |
| GovernanceCalls.PassesExactly | contracts/governance/src/lib.rs:374-398 | closed, somebody voted, quorum met, more for than against |
| GovernanceCalls.CreateExactly | contracts/governance/src/lib.rs:282-324 | exactly from 100 sXLM on; every stored field |
| GovernanceCalls.VoteExactly | contracts/governance/src/lib.rs:327-362 | exactly on a stored proposal, up to its last ledger, once, with a balance; that balance on the chosen side |
| GovernanceCalls.QueueExactly | contracts/governance/src/lib.rs:365-417 | exactly for passed, unexecuted, unqueued proposals; the entry is due at ledger + delay |
| GovernanceCalls.CancelExactly | contracts/governance/src/lib.rs:420-449 | exactly by the guardian, or the admin without one, on a live entry |
| GovernanceCalls.ExecuteExactly | contracts/governance/src/lib.rs:452-540 | both execution paths: exactly when, and what is written |
| GovernanceCalls.AdminExactly | contracts/governance/src/lib.rs:252-280 | who may set reference supply, delay and guardian within which bounds |
| GovernanceCalls.EventsExactly | contracts/governance/src/lib.rs:282-540 | the published event of each call that goes through: number, weight, due ledger, parameter and path |
| GovernanceProofs.LawfulOverRuns | contracts/governance/src/lib.rs:365-417 | every entry in every reachable state belongs to a closed, passed proposal and carries its parameter |
| GovernanceProofs.CancelDoesNotBindAdmin | contracts/governance/src/lib.rs:485-540 | a cancelled proposal cannot run through the timelock; the admin can still write it, exactly while unexecuted and meeting the quorum |
| GovernanceProofs.GuardianOrAdmin | contracts/governance/src/lib.rs:420-435 | who can cancel is "guardian or admin" if and only if no guardian is set or the admin is the guardian |
| GovernanceProofs.TurnoutOverRuns | contracts/governance/src/lib.rs:344-353 | in every run from deployment votes = balances of the voters + tokens that left accounts after they voted; equal if and only if that net amount is zero, above the supply if and only if it exceeds the balances of those who have not voted |
| GovernanceProofs.TokenKeepsTurnout | contracts/governance/src/lib.rs:344-353 | a token movement keeps votes = balances of the voters if and only if the account has not voted or its balance does not change |
| GovernanceProofs.ExcessOverRuns | contracts/governance/src/lib.rs:344-353 | the difference moves by exactly those tokens over any run from any consistent state |
| GovernanceProofs.SameTokensVoteTwice | contracts/governance/src/lib.rs:344-353 | from deployment: with a transfer in between, any x tokens cast 2x votes |
| GovernanceContractModel.GovernanceContract.CreateProposal | contracts/governance/src/lib.rs:282-324 | only holders of enough sXLM; stores an open proposal under the next number |
| GovernanceContractModel.GovernanceContract.CastVote | contracts/governance/src/lib.rs:327-362 | within the voting period, once per voter, with the balance of that moment as weight |
| GovernanceContractModel.GovernanceContract.HasPassed | contracts/governance/src/lib.rs:374-398 | answers whether voting is closed, the quorum is met and more votes are for than against |
| GovernanceContractModel.GovernanceContract.QueueProposal | contracts/governance/src/lib.rs:365-417 | a passed proposal gets one timelock entry with its parameter and earliest ledger |
| GovernanceContractModel.GovernanceContract.CancelProposal | contracts/governance/src/lib.rs:420-449 | the guardian, or the admin if there is none, cancels an entry that is neither cancelled nor executed |
| GovernanceContractModel.GovernanceContract.ExecuteTimelocked | contracts/governance/src/lib.rs:452-482 | an uncancelled entry past its earliest ledger is written once |
| GovernanceContractModel.GovernanceContract.ExecuteProposal | contracts/governance/src/lib.rs:485-540 | the admin writes a closed, passed, unexecuted proposal without the timelock |
| GovernanceContractModel.GovernanceContract.Transact | contracts/governance/src/lib.rs:200-540 | any call, panicking ones included, is one atomic step, so the run theorems hold of any sequence of calls to the class |
| TokenProofs.LedgerOverRuns | contracts/sxlm-token/src/lib.rs:173-261 | in every run supply = sum of balances, nothing negative, and supply moves only by mints and burns |
| TokenProofs.LedgerStep | contracts/sxlm-token/src/lib.rs:173-261 | the same for each call |
| TokenCalls.SupplyExactly | contracts/sxlm-token/src/lib.rs:173-201 | mints and burns exactly by the minter, burns only what is there; supply and that one balance move |
| TokenCalls.TransferExactly | contracts/sxlm-token/src/lib.rs:232-245 | exactly for a non-negative amount the sender holds; the two balances move and nothing else |
| TokenCalls.TransferFromExactly | contracts/sxlm-token/src/lib.rs:247-261 | needs the allowance as well and uses it up by the amount |
| TokenCalls.BalancesOverRuns | contracts/sxlm-token/src/lib.rs:173-261 | over every run a balance is what was minted or sent to its holder less what was burnt or sent from there |
| Purses.TransfersConserve | contracts/sxlm-token/src/lib.rs:232-245 | the purse view of a transfer creates and destroys nothing |
| TokenProofs.OnlyWithAuthority | contracts/sxlm-token/src/lib.rs:173-261 | a holder's balance falls only by the holder's transfer, a spender within the allowance, or the minter's burn, by the named amount |
| TokenProofs.SelfTransfer | contracts/sxlm-token/src/lib.rs:232-261 | paying yourself changes no balance |
| TokenProofs.AllowanceOverRuns | contracts/sxlm-token/src/lib.rs:117-123 | between approvals a spender draws exactly what the allowance loses, never more than was approved |
| TokenContractModel.SxlmToken.MintTokens | contracts/sxlm-token/src/lib.rs:173-184 | only the minter; supply and the receiver's balance grow by the amount |
| TokenContractModel.SxlmToken.BurnTokens | contracts/sxlm-token/src/lib.rs:187-201 | only the minter and only from a sufficient balance; supply and that balance fall by the amount |
| TokenContractModel.SxlmToken.ApproveSpender | contracts/sxlm-token/src/lib.rs:210-225 | overwrites the allowance and touches nothing else |
| TokenContractModel.SxlmToken.TransferTokens | contracts/sxlm-token/src/lib.rs:232-245 | debits first and credits a freshly read balance, so a self-transfer is neutral |
| TokenContractModel.SxlmToken.TransferTokensFrom | contracts/sxlm-token/src/lib.rs:247-261 | spends the allowance and moves the balance, or neither |
| TokenContractModel.SxlmToken.Transact | contracts/sxlm-token/src/lib.rs:130-309 | any call, panicking ones included, is one atomic step, so the run theorems hold of any sequence of calls to the class |
| BridgeProofs.CirculatingOverRuns | contracts/bridge/src/lib.rs:199-292 | supply + locked moves exactly by releases above the locked amount and by foreign minting; without the latter it is unchanged if and only if every release was covered |
| BridgeProofs.CirculatingStep | contracts/bridge/src/lib.rs:199-292 | the same for each call |
| BridgeCalls.OutExactly | contracts/bridge/src/lib.rs:199-242 | exactly when a transfer out goes through; whose tokens are burnt, what is locked, and which nonce it carries |
| BridgeCalls.ReleaseExactly | contracts/bridge/src/lib.rs:251-292 | exactly when a release goes through; who receives the tokens, the mark, and the unlocked amount |
| BridgeCalls.AdminExactly | contracts/bridge/src/lib.rs:331-376 | who may pause, name relayer and admin and set the minimum |
| BridgeProofs.InitialRecorded | contracts/bridge/src/lib.rs:162-187 | the deployed bridge starts sound and with an empty record |
| BridgeProofs.RecordOverRuns | contracts/bridge/src/lib.rs:90-119 | in every run each hash is released at most once, exactly when marked, and the n-th outgoing transfer of a user carries nonce n |
| BridgeProofs.NoncesDistinct | contracts/bridge/src/lib.rs:90-101 | two transfers of one sender never share a nonce |
| BridgeProofs.BridgeMustBeTheMinter | contracts/bridge/src/lib.rs:221-278 | nothing crosses unless the bridge is the token's minter, and a release that passes the bridge's own checks goes through if and only if it is |
| BridgeContractModel.BridgeAdapter.BridgeOut | contracts/bridge/src/lib.rs:199-242 | burns, raises the locked amount and hands out the sender's next nonce |
| BridgeContractModel.BridgeAdapter.Release | contracts/bridge/src/lib.rs:251-292 | mints once per hash and lowers the locked amount if that suffices |
| BridgeContractModel.BridgeAdapter.Transact | contracts/bridge/src/lib.rs:154-376 | any call, panicking ones included, is one atomic step, so the run theorems hold of any sequence of calls to the class |
| RetryProofs.SettledOverRuns | backend/src/bridge-relayer/retry-queue.ts:44-215 | in every interleaving each added id is in exactly one of retry queue, dead letters or done; queued items failed as often as recorded and at most maxAttempts times since added or requeued, dead letters exactly once more |
| RetryProofs.SettledStep | backend/src/bridge-relayer/retry-queue.ts:44-215 | the same for each step |
| RetryProofs.InitialSettled | backend/src/bridge-relayer/retry-queue.ts:30-39 | the empty queue starts settled |
| RetryProofs.TriesBounded | backend/src/bridge-relayer/retry-queue.ts:88-139 | the number of tries is bounded by what adds and requeues granted, so retrying stops |
| RetryProofs.PotentialNonneg | backend/src/bridge-relayer/retry-queue.ts:105-113 | the room left for tries is never negative |
| RetryProofs.ProcessIsARun | backend/src/bridge-relayer/retry-queue.ts:68-145 | an uninterrupted process call is one of the interleaved runs |
| RetryProofs.BackoffGrows | backend/src/bridge-relayer/retry-queue.ts:121-126 | waits stay within the cap, never shrink, and vanish before the last try |
| RetryProofs.DelayExactly | backend/src/bridge-relayer/retry-queue.ts:118-128 | the first wait is the initial delay, each later one the multiple of the one before, never above the cap; none before the last try |
| RetryProofs.HandleExactly | backend/src/bridge-relayer/retry-queue.ts:86-140 | one try: removal, or one more failure with its message and either a new due time after the wait or the dead letters |
| RetryProofs.StartExactly | backend/src/bridge-relayer/retry-queue.ts:68-84 | nothing while another call runs; else at most ten items, all due, leaving a due one behind only for ten no less overdue |
| RetryProofs.AddExactly | backend/src/bridge-relayer/retry-queue.ts:44-63 | an item is added under its due time exactly if it can be written |
| RetryProofs.FirstWithIsFirst | backend/src/bridge-relayer/retry-queue.ts:188-211 | a requeue picks the first dead letter with that id |
| RetryProofs.AddedIsDue | backend/src/bridge-relayer/retry-queue.ts:48-54 | an added item is due at once, which is an initial delay if and only if that delay is zero |
| RetryProofs.ConfiguredLimitIsUnread | backend/src/bridge-relayer/retry-queue.ts:16-39 | no run depends on the configured limit |
| RetryProofs.BuriedByOwnLimit | backend/src/bridge-relayer/retry-queue.ts:101-116 | a failing try buries an item by its own limit, which says the same as the configured one for every number of failures if and only if the two coincide |
| RetryQueueModel.RetryQueue.Enqueue | backend/src/bridge-relayer/retry-queue.ts:44-63 | adds a fresh item due at once, or throws and adds nothing exactly when the item carries a bigint and the codec is plain JSON |
| RetryQueueModel.RetryQueue.Settle | backend/src/bridge-relayer/retry-queue.ts:91-138 | books one try: removal, rescheduling or dead letter |
| RetryQueueModel.RetryQueue.Process | backend/src/bridge-relayer/retry-queue.ts:68-145 | handles up to ten due items, lowest scores first, and does nothing while another call runs |
| RetryQueueModel.RetryQueue.RequeueFromDeadLetter | backend/src/bridge-relayer/retry-queue.ts:188-215 | requeues the named dead letters one after the other and counts them |
| RetryQueueModel.SortedSet.ZRangeByScore | backend/src/bridge-relayer/retry-queue.ts:77-84 | the Redis reply the queue relies on |
| Relayer.Projections | backend/src/bridge-relayer/index.ts:359-405 | an interleaved run of relayer and bridge is a run of each of the two specifications |
| Relayer.CallsExactly | backend/src/bridge-relayer/index.ts:277-318 | every release names the account, hash and chain of the event and its amount scaled down and floored, under the relayer's key; a retry makes it exactly for a bigint EVM item |
| Relayer.OutcomeExactly | backend/src/bridge-relayer/index.ts:317-340 | a retried release takes effect exactly if the call lands, and counts as success exactly if that is confirmed as well |
| Relayer.FailuresExactly | backend/src/bridge-relayer/index.ts:362-373 | amounts that are no bigint and releases the bridge refuses always fail |
| Relayer.EachHashMintsAtMostOnce | contracts/bridge/src/lib.rs:269-273 | for every interleaving of direct calls, retries and requeues each hash is released at most once, exactly when marked |
| Relayer.CirculationOverInterleavings | contracts/bridge/src/lib.rs:281-285 | the circulating total over every interleaving moves only by uncovered releases and foreign minting |
| Relayer.FinishedMeansDelivered | backend/src/bridge-relayer/retry-queue.ts:91-100 | an EVM item counted as finished has been released, in every run and with either codec |
| Relayer.ReleasedNeverFinishes | backend/src/bridge-relayer/index.ts:327-340 | once a hash is released, no item with that hash is counted as finished in any later run |
| Relayer.LostItemIsBuried | backend/src/bridge-relayer/retry-queue.ts:100-139 | a queued item whose release was lost to the relayer gets at most the tries it has left, stays queued while any is left and is in the dead letters exactly when the last is spent, in every run that does not requeue it |
| Relayer.AsWiredNothingIsQueued | backend/src/bridge-relayer/index.ts:396-429 | with plain JSON and items carrying bigints, as both callers pass them, the queue stays empty in every run and no dead letter results |
| Relayer.PlainJsonNeverDelivers | backend/src/bridge-relayer/index.ts:277-283 | with plain JSON the bridge receives exactly the calls made without the queue, in every run, and no item finishes |
| Relayer.RetryDeliversIff | backend/src/bridge-relayer/retry-queue.ts:44-99 | adding and processing an item whose release the bridge accepts delivers it if and only if the codec carries bigints |
| Relayer.ScalingRoundTrip | backend/src/bridge-relayer/index.ts:283-283 | scaling to 18 decimals and back is exact, down-scaling loses less than a unit, is positive exactly from one unit up, and smaller amounts are never released |
| CohortProofs.Reflection | backend/src/cohort-aggregator/index.ts:511-526 | the carried balance is the running total raised by its deepest dip below zero |
| CohortProofs.CarryAgainstTotal | backend/src/cohort-aggregator/index.ts:511-526 | it is at least the clamped running total, equal exactly when no running total was negative or the current one is the lowest |
| CohortProofs.DailyCarries | backend/src/cohort-aggregator/index.ts:449-526 | the daily job on consecutive days leaves the carried balances, whether or not a row exists |
| CohortProofs.BackfillTotals | backend/src/cohort-aggregator/index.ts:391-413 | a backfilled day reads as the clamped running totals, for every wallet |
| CohortProofs.DailyAgainstBackfill | backend/src/cohort-aggregator/index.ts:304-543 | per wallet and day the daily job's balances are at least the backfill's, equal exactly in the stated case, with matching active flags |
| CohortProofs.DipIsForgotten | backend/src/cohort-aggregator/index.ts:511-526 | a concrete dip makes the two jobs differ |
| CohortProofs.DaysExactly | backend/src/cohort-aggregator/index.ts:50-72 | an instant belongs to the day of the last midnight, and a range counts its first and last day |
| CohortProofs.ChangesAdd | backend/src/cohort-aggregator/index.ts:347-373 | a wallet's change on a day is the sum of its rows within that day |
| CohortProofs.BackfillExactly | backend/src/cohort-aggregator/index.ts:304-435 | the backfill writes exactly the missing days of the walk for the wallets its queries returned, with running totals, and keeps every other row |
| CohortProofs.DailyExactly | backend/src/cohort-aggregator/index.ts:449-543 | the daily job writes exactly its own day, for wallets with a row the day before or a change today: earlier balances plus today's change |
| CohortAggregatorModel.DayRange | backend/src/cohort-aggregator/index.ts:63-72 | every calendar day of the range, in order |
| CohortAggregatorModel.BuildDeltas | backend/src/cohort-aggregator/index.ts:347-373 | the nested map holds exactly the net changes per wallet and day |
| CohortAggregatorModel.CohortAggregator.WalkWallet | backend/src/cohort-aggregator/index.ts:391-413 | the walk emits the running totals of exactly the missing days, oldest first |
| CohortAggregatorModel.CohortAggregator.BackfillWalletDailyActivity | backend/src/cohort-aggregator/index.ts:304-435 | every row of the table afterwards, written or kept |
| CohortAggregatorModel.DayDeltas | backend/src/cohort-aggregator/index.ts:484-498 | the merged map holds exactly the day's net changes |
| CohortAggregatorModel.CohortAggregator.RunWalletDailyActivityJob | backend/src/cohort-aggregator/index.ts:449-543 | every row of the table afterwards, written or kept |
| Twap.ComputeTwapPrice | backend/src/dex-integration/index.ts:226-284 | both errors, and average times window = integral of the step function over the window, for unsorted observations |
| Twap.Weigh | backend/src/dex-integration/index.ts:247-267 | the loop computes the integral from the window start to now |
| Twap.SortKeepsPrice | backend/src/dex-integration/index.ts:235-237 | the stable sort keeps the price in force at every moment, ties included |
| Twap.IntegralIsTheOnlyOne | backend/src/dex-integration/index.ts:247-267 | any additive functional that is price times length on constant stretches equals the defined integral |
| Twap.IntegralIsOne | backend/src/dex-integration/index.ts:247-267 | the defined integral is such a functional |
| Twap.AverageIsTheIntegral | backend/src/dex-integration/index.ts:226-269 | for observations in any order the average is the integral of "last observation at or before t" |
| Twap.AverageBetweenPrices | backend/src/dex-integration/index.ts:269-269 | the average lies between the lowest and highest observed price |
| Twap.EngineTwapPrice | backend/src/liquidity-engine/index.ts:160-203 | for observations in any order the average is that over all neighbouring stretches that run forward in time; in order, that is the integral over their whole span, whatever the window |
| Twap.EngineBetweenPrices | backend/src/liquidity-engine/index.ts:179-192 | in any order it lies between the lowest and highest observed price |
| Twap.SpanIffSorted | backend/src/liquidity-engine/index.ts:182-190 | the counted stretches add up to the span of the observations if and only if they are in order, and to more otherwise |
| Twap.NewestPriceIsUncounted | backend/src/liquidity-engine/index.ts:182-190 | changing the newest price changes nothing in what is averaged |
| Twap.EngineIsWindowIff | backend/src/liquidity-engine/index.ts:160-203 | for observations in order and every window, the engine's average is the window's if and only if the surplus over it before the window equals the surplus after the newest observation |
| Twap.WholeHistoryIff | backend/src/liquidity-engine/index.ts:160-203 | when time has passed since the newest observation, the engine averages the whole history up to now if and only if the newest price is its average |
| Twap.AnchoredIff | backend/src/liquidity-engine/dexIntegrationService.ts:393-401 | with the newest observation at the present moment the engine is right if and only if the stretch before the window has the average of the window, whatever the number of older rows |
| Twap.OneAnchorIff | backend/src/liquidity-engine/dexIntegrationService.ts:445-486 | with the one older row the query adds, the engine is right if and only if that row's price is the average of the window |
| Twap.NoAnchorIff | backend/src/liquidity-engine/dexIntegrationService.ts:445-486 | without an older row it is right if and only if the window starts with the first observation or that price is the average |
| Twap.EveryWindowIff | backend/src/liquidity-engine/index.ts:160-203 | the engine is right about every window up to now if and only if one price has been in force throughout |
| Twap.OneMomentIff | backend/src/liquidity-engine/index.ts:160-203 | observations that span no time: the newest price is the average of the window if and only if the window does not start earlier or they opened at that price |
| Twap.AnchorIsOvercounted | backend/src/liquidity-engine/dexIntegrationService.ts:445-486 | a witness in the shape of the service: window average 3, engine average 2 |
| Twap.WindowMatters | backend/src/liquidity-engine/index.ts:160-203 | a witness: with two observations the engine gives the older price, the average over the time since the newer one gives the newer price |

## Left out

- Storage lifetimes, events of the pool, lending, staking, vesting and token contracts, `upgrade`, `bump_instance`: no effect on the modelled state (published events are modelled where a theorem speaks of them: governance, bridge, retry queue).
- `i128` overflow: modelled as unbounded integers, see above; `u32` ledger arithmetic likewise.
- Signature checking: only the actor of a step is modelled.
- Storage keys: each class holds its store as one record value, replaced key by key, instead of one field per key; the order of panics and of the writes within one call is not observable in the model (the liquidation writes the debt before the seized collateral).
- Token contracts of the pool, lending and vesting are purses (holding of the contract, balances of everybody else); the contract's own address is never a caller, and the pool's reward asset is a third token.
- `set_admin`, `set_treasury`, `update_validators`, `recalibrate_rate` of staking, `update_borrow_rate` of lending, `set_sxlm_contract` of the bridge and the remaining plain views: setters and getters of values no modelled branch reads.
- Staking: coverage of outstanding delayed withdrawals is not claimed; the code burns shares at request time and lowers the total only at claim time.
- Bridge: the EVM contract; minting there is an outcome of the environment.
- Retry queue: process crashes between two Redis calls and `clear`; the text written to Redis is modelled only as far as bigints go (writing throws or not), and otherwise taken as injective; delays are integers.
- Cohort aggregator: SQL and Prisma; the grouped rows are inputs, and the iteration order of JavaScript maps is left open.
- Twap and quotes: floating-point fields (display amounts, price impact); prices and times are exact reals, and the label fields of the result are not modelled.
- The frontends, gateway, indexers, engines for rewards, risk, leverage and restaking, cron jobs and configuration.
