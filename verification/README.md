# HyPaper: the account, margin and order engine, verified

HyPaper is a paper exchange for perpetual futures. This project models its account, margin and order engine
in Dafny and proves what that engine promises. `dafny verify dfyconfig.toml` checks all of it.

| part | modules |
|---|---|
| Tiered maintenance margin, position margin, liquidation price, free margin | `MarginTiers`, `Margin`, `TenTiers`, `OrderMargin` |
| The account: fills, funding, liquidation, and all of them together | `Account`, `Fills`, `Funding`, `Liquidation`, `LiquidationAccounting`, `LiquidationOutcomes`, `LiquidationPasses`, `TwoPasses`, `CrossDisplay`, `Ledger`, `Fees`, `FundingHistory` |
| The same writers as methods over mutable hashes | `Store` |
| Book walk and average price | `Slippage` |
| Bracket (one-cancels-other) links | `Brackets`, `BracketSafety`, `BracketRuns`, and in place `OrderStore` |
| Placing and modifying orders on the account and the book | `Placement`, and in place `OrderEngine` |
| Trailing stops: automaton, rounding, persistence, life cycle | `TrailingMath`, `TrailingRatchet`, `TrailingHash`, `TrailingStops`, `TrailingStopSafety`, and in place `TrailingStore` |
| Accounts and trailing stops in one run | `Exchange` |
| The per-user lock | `UserLock` |
| TWAP scheduling | `Twap`, `TwapSafety`, `TwapFills`, and in place `TwapStore` |
| Sums over maps, products and quotients, decimal places | `Prelude` |

Where the program changes state, the model has a class whose fields are the hashes and sets of the store and
whose methods update them; each method is tied to a function on values, and the theorems are about those
functions and about runs of them. Decimal strings are exact reals; trailing-stop prices are counted in the
coin's price step, TWAP sizes in its size step, times in milliseconds. The order in which the store lists a
set is arbitrary wherever it could matter: it is a parameter (`Reply`, `Listing`), anew at every step of a run, or
the loop picks any element. One
fill, one liquidation run, one API call and one matcher evaluation of one order are single steps; `UserLock`
models the lock that makes them so at the grain of its promise segments. Book prices, marks, mids, fees,
settings, clocks and random jitter are parameters.

A tier schedule (`WellFormed`) starts at 0, has strictly ascending bounds, and maximum leverages of at least 1
that do not increase.

## What came out

Most of what the comments and tests promise holds for all inputs. Where a promise fails, the code is modelled
as it is and the exact condition is proved:

- The liquidation price shown for an isolated position is exactly where the engine liquidates it, for every mark
  and any schedule, if and only if its first solve is sound (it is a short, or the entry tier's deduction leaves
  something to solve for, or the margin covers the whole entry notional) and the eight rounds suffice, in that a
  ninth would change nothing (`Margin.DisplayIsRight`, `LiquidationPasses.DisplayMatchesEngine`). They suffice when
  there are at most eight tiers, the entry's own not counted, from that of the first solve to that of any notional the
  position is healthy at (`Margin.NearTiersSuffice`), so on every schedule of at most nine tiers
  (`Margin.NineTiersSuffice`); a short on ten tiers has one too many ahead and is shown a wrong price
  (`TenTiers.TenTiersAreTooMany`). A long topped up to nearly its full notional is shown 0 and is still liquidatable
  (`Margin.ToppedUpLongIsMispriced`).
- The liquidation price shown for a cross position holds the maintenance margin of its entry notional. For a lone
  position it errs whenever it is not clamped, one way for each side: at the price shown and every mark above it the
  engine leaves a long alone and has a short liquidated (`CrossDisplay.ShownErrs`).
- A Gtc order that crosses is saved without the batch's builder, so of the orders that execute on arrival only an Ioc
  order pays the builder's share (`Placement.ExecutesWithinLimit`).
- A batch whose entry is rejected still links what is left of it as if its first exit were the entry. The exits of a
  normalTpsl batch are one another's siblings if and only if the entry reached the book; otherwise the first exit is
  the parent of the rest, which lie dormant behind it, and when it fills they are set free and may fill too
  (`BracketRuns.BatchLinks`, `BracketRuns.HeadlessExitsBothFill`, and the least such run,
  `BracketRuns.RejectedEntryUnlinksExits`). Of any other two exits of one batch at most one fills
  (`BracketRuns.AtMostOneOfBatchFills`). Trigger exits are never rejected for margin, so the account decides: a batch
  is such a one exactly when its entry is refused (`Placement.EntryDecides`, `Placement.RejectedEntryFillsTwice`). In
  the results on dormancy below, the entry is the order the links name as such.
- An entry that expires leaves its exits open and no longer dormant, unlike one that is cancelled or modified
  (`BracketRuns.ExpiryFreesExits`, and a run in which it happens, `BracketRuns.ExpiredEntryFreesItsExit`).
- The limit replacement of a trigger exit carries the parent link but is matched as a resting limit order: a
  watched exit may fill if and only if it rests as a limit order or its entry is not open
  (`BracketRuns.ExitsStayDormant`, and a run, `BracketRuns.LimitExitIsNotDormant`).
- A limit order that crosses is answered as filled. It executes nothing exactly when it is reduce-only and not against
  the position (`Fills.NothingExecuted`, `Placement.IdleExactly`), and then its hash stays open in neither index. In
  every run an open order is watched by no matcher if and only if it came in so, or is a trigger that fired with
  nothing to reduce (`BracketRuns.UnwatchedExactly`). It never fills (`BracketRuns.UnwatchedForEver`), and if it is the
  entry of a bracket its exits wait for it (`Placement.IdleEntryHolds`, and a run,
  `BracketRuns.IdleEntryHoldsItsExit`).
- Two liquidation passes may leave an account that can still be liquidated, whatever the order of its positions
  (`TwoPasses.TwoPassesMayNotSettle`); three never do (`LiquidationPasses.ThreePassesSettle`).
- The margin check looks at no size when an order is against the position. Filled at the mid, an accepted order
  leaves free margin not below zero before fees if and only if it opens, or what was free, with the old position's
  margin released, covers the margin of what remains: always when it only reduces, not always when it flips
  (`OrderMargin.AcceptedLeavesMargin`, `OrderMargin.ReducingLeavesMargin`, `OrderMargin.ReducingFreesMargin`, and a
  flip, `OrderMargin.FlipIsNotChecked`).
- A percentage trailing stop may fire on the very mark that sets its best price: exactly when the retracement is
  worth no more than the rest of half a price step beyond the mark's distance to the grid
  (`TrailingRatchet.NewBestFires`, and a rising mark that fires a sell, `TrailingRatchet.RisingMarkFires`).
- The comment above the reference check says that a fixed-distance sell it refuses could never hold a positive trigger.
  The check takes the activation price even when the mark has reached it, so it could exactly when the activation price
  is not above the distance and the mark is (`TrailingRatchet.RefusedThoughPositive`, and such a stop,
  `TrailingRatchet.RefusedAtOnce`).
- A TWAP fills something in some run of ticks if and only if its size is at least one step, three base slices come to
  one step, and its schedule comes to one step before its last moment (`TwapSafety.FillsExactlyIfItCan`). Over two
  minutes or more, as the public route demands at least five, that is all but the orders too thin for three base slices;
  over one minute it takes a little more than one step; over none nothing fills (`TwapSafety.CanFillByMinutes`). A
  too-thin order passes placement if and only if the coin has no mid yet or one size step is worth just over thirty
  dollars (`TwapSafety.TooThinIsPlaceable`, and such an order, `TwapSafety.ThreeStepsFillNothing`); one of less than a
  step passes too, and fills nothing though it is not too thin (`TwapSafety.LessThanAStepFillsNothing`).
- A randomized TWAP may run ahead of the linear schedule by more than a base slice
  (`TwapSafety.JitterRunsAhead`), but not of twice the schedule (`TwapSafety.NeverRunsAhead`).
- A TWAP records every accepted slice as filled whole. The record is what was executed if and only if the order may
  open positions or the position absorbs the slice (`TwapFills.RecordedIsExecuted`); a reduce-only one on a flat
  account ends recorded as filled without a trade (`TwapFills.RecordedButNotTraded`).
- Calls of `withUserLock` that nest for different users in opposite orders wait for each other for ever, whichever
  two users they are; in one order of users, or not nested, they never do (`UserLock.CrossedCallsAreStuck`,
  `UserLock.NeverStuck`).
- The comment above `carryBracketLinks` says that a parent whose replacement fills at once leaves its children
  live; the code cancels them whatever becomes of the replacement, and so does the model
  (`BracketRuns.EntryTakesExitsAlong`).
- A trailing stop's limit rounded to fewer decimals than the coin has keeps five significant figures if and only if
  its cap is at least one: below, the zero before the point is counted as a figure and four decimals are kept
  (`TrailingRatchet.StepLeavesFiveFigures`, and a cap of 0.045 left with three figures,
  `TrailingRatchet.SmallCapKeepsThreeFigures`).

## Model

| member | source | states |
|---|---|---|
| `MarginTiers.TierForNotional` | src/engine/marginTiers.ts:53-65 | The loop finds the specified tier and its index |
| `MarginTiers.TierBrackets` | src/engine/marginTiers.ts:53-65 | The notional lies in the half-open bracket of the chosen tier |
| `MarginTiers.TierIndexMonotone` | src/engine/marginTiers.ts:53-65 | A larger notional is never in a lower tier |
| `MarginTiers.MaintenanceMarginRateForNotional` | src/engine/marginTiers.ts:67-79 | The rate is half the reciprocal of the chosen tier's maximum leverage |
| `MarginTiers.MaintenanceMarginForNotional` | src/engine/marginTiers.ts:92-107 | The deduction loop charges every dollar of notional the rate of the tier it lies in |
| `MarginTiers.MarginIsEnvelope` | src/engine/marginTiers.ts:92-107 | The schedule is the maximum over all tiers of rate times notional less deduction, so the clamp at zero never binds |
| `MarginTiers.MarginIsSliced` | src/engine/marginTiers.ts:81-107 | The deduction form equals the sum over tiers of rate times the slice of notional inside the tier |
| `MarginTiers.MarginGrowth` | src/engine/marginTiers.ts:92-107 | Zero at zero, strictly increasing, and no steeper than one half, hence without jumps |
| `MarginTiers.MarginIsConvex` | src/engine/marginTiers.ts:92-107 | The schedule is convex |
| `MarginTiers.MarginShrinks` | src/engine/marginTiers.ts:92-107 | A notional cut to the fraction k needs at most the fraction k of the maintenance margin |
| `MarginTiers.MarginShrinksExactly` | src/engine/marginTiers.ts:92-107 | Inside the first tier it needs exactly that fraction |
| `Margin.UnrealizedPnl` | src/engine/margin.ts:47-56 | PnL is signed size times the move from entry, for longs and shorts alike |
| `Margin.CrossLiquidationPrice` | src/engine/margin.ts:224-236 | The price at which the account value, moved by this position alone, meets the maintenance held at entry; none exactly when the cushion covers the notional |
| `Margin.CrossPriceMeetsSchedule` | src/engine/margin.ts:224-236 | A price strictly between the clamps is where account value and PnL come to the schedule's maintenance margin of the entry notional, or without a schedule that of a flat tier; clamped exactly without a cushion, none exactly when the cushion covers the notional |
| `CrossDisplay.ShownAtEntry` | src/engine/liquidation.ts:201-206 | Marked at its entry a lone cross position is liquidated iff its account value is below the maintenance margin the shown price rests on |
| `CrossDisplay.ShownErrs` | src/engine/margin.ts:224-236 | At the price shown and every mark above it the engine leaves a lone cross long alone and liquidates a lone cross short |
| `Margin.CalculateLiquidationPrice` | src/engine/margin.ts:203-263 | The loop of at most eight rounds computes the specified iteration, with its error and clamping cases |
| `Margin.CushionIsLowest` | src/engine/margin.ts:238-254 | The position's cushion is the lowest of the cushions of all tier lines |
| `Margin.CushionIsMonotone` | src/engine/margin.ts:238-254 | Equity less maintenance strictly rises with the price for a long and falls for a short |
| `Margin.SolveIsRoot` | src/engine/margin.ts:238-254 | One solve gives the exact root of the line of the tier at that notional |
| `Margin.NewtonStep` | src/engine/margin.ts:246-260 | From at or past the root an iterate moves back without passing it, its tier moves with it, and staying in one tier means having arrived |
| `Margin.FirstSolveIsPast` | src/engine/margin.ts:238-254 | The first solve never falls short of the root |
| `Margin.IterateSettles` | src/engine/margin.ts:246-260 | With a round for every tier ahead, up to the last that anything at or past the root lies in, but not the one already solved, the loop ends exactly on the root |
| `Margin.LiquidationPriceIsExact` | src/engine/margin.ts:238-262 | On any schedule margin plus PnL equals maintenance at the displayed price if and only if the rounds suffice: for every short, and for a long when its first solve is positive |
| `Margin.NearTiersSuffice` | src/engine/margin.ts:255-260 | The rounds suffice when there are at most eight tiers, the entry's not counted, from that of the first solve to that of a notional the position is healthy at |
| `Margin.NineTiersSuffice` | src/engine/margin.ts:255-260 | On at most nine tiers the eight rounds always suffice |
| `TenTiers.TenTiersAreTooMany` | src/engine/margin.ts:255-262 | A schedule of ten tiers and a short on it with nine tiers ahead that is shown a price one above where it is liquidated |
| `Margin.DisplayIsRight` | src/engine/margin.ts:238-262 | On any schedule the price separates the marks under water from the others, for every mark, if and only if the first solve is sound and the rounds suffice |
| `Margin.LeveragedPositionsAreSound` | src/engine/margin.ts:238-262 | Every position with margin below half its entry notional is shown the right price |
| `Margin.UntieredIsFlat` | src/engine/margin.ts:246-256 | Without a schedule the displayed price is that of a flat tier at the user's leverage, which is what the engine charges then |
| `Margin.ToppedUpLongIsMispriced` | src/engine/margin.ts:246-262 | A concrete topped-up long that is shown 0 and is liquidatable at 500 |
| `OrderMargin.CalculateTotal` | src/engine/margin.ts:25-78 | The running totals over positions are sums that do not depend on the order of the listing |
| `OrderMargin.CheckAgreesWithLimit` | src/engine/margin.ts:110-174 | An order passes the margin check exactly when its size is within the affordable limit, or there is no limit |
| `OrderMargin.TradeMovesMargin` | src/engine/margin.ts:96-145 | A trade at the mid moves free margin by its fee and the change of the position's own margin, nothing else |
| `OrderMargin.OpeningUsesMargin` | src/engine/margin.ts:96-145 | Opening or growing takes exactly the order's initial margin, cross and isolated |
| `OrderMargin.CheckMeansFreeMargin` | src/engine/margin.ts:110-145 | The check accepts exactly the opening orders whose fill at the mid leaves free margin not below zero before fees |
| `OrderMargin.ReducingLeavesMargin` | src/engine/margin.ts:110-145 | What an unchecked order against a position leaves, cross or isolated, reducing or flipping: free margin not below zero before fees iff what was free and the released margin cover the remainder's |
| `OrderMargin.ReducingFreesMargin` | src/engine/margin.ts:127-139 | An order that only reduces never takes free margin before fees |
| `OrderMargin.AcceptedLeavesMargin` | src/engine/margin.ts:110-145 | Which accepted orders leave free margin not below zero before fees, for every order the check accepts |
| `OrderMargin.FlipIsNotChecked` | src/engine/margin.ts:127-139 | A concrete flip that passes the check and leaves free margin below zero |
| `Account.SumAfterWrite` | src/engine/liquidation.ts:174-178 | Rewriting one position changes any sum over positions by its own term |
| `Account.TradeReconciles` | src/worker/order-matcher.ts:546-587 | Writing a position and a fill keeps the books when cash and position move by the fill's worth |
| `Fills.TradePreservesWorth` | src/worker/order-matcher.ts:546-587 | Open, grow, reduce, close and flip: closed PnL and re-marked position move by exactly what the fill is worth at every price |
| `Fills.FillReconciles` | src/worker/order-matcher.ts:536-735 | A fill keeps the books |
| `Fills.ReduceOnlyShrinks` | src/worker/order-matcher.ts:502-534 | A reduce-only order leaves a position alone or moves it strictly towards zero on its own side, by the smaller of the two sizes |
| `Fills.NothingExecuted` | src/worker/order-matcher.ts:502-534 | An order with something left leaves the account as it was exactly when it is reduce-only and not against the position |
| `Fills.DedicatedMargin` | src/worker/order-matcher.ts:646-673 | What a fill leaves dedicated to an isolated position: grown by the margin of the fill at the mark, started afresh by a flip, and in proportion to the size when it shrinks |
| `Fills.FallbackIsOpening` | src/engine/margin.ts:80-92 | A position without a recorded allocation has the margin of one opened at its entry price |
| `Fills.CutScalesEquity` | src/worker/order-matcher.ts:654-673 | A proportional cut scales isolated equity at every mark by the fraction kept |
| `Fills.CutKeepsHealth` | src/worker/order-matcher.ts:654-673 | A cut never makes a healthy isolated position liquidatable, and inside the first tier keeps equity over maintenance |
| `Fills.ReduceIsCut` | src/worker/order-matcher.ts:654-673 | A reducing isolated fill is such a cut, to the fraction left |
| `Store.Store.ExecuteFillWithSize` | src/worker/order-matcher.ts:536-735 | The method's writes to balance, position and fill list are those of the fill step |
| `Store.Store.ExecuteFillLocked` | src/worker/order-matcher.ts:502-534 | With the reduce-only refusals and clamp in place, the account after is that of the specified fill |
| `Funding.FundingChargesOnce` | src/worker/funding-worker.ts:44-105 | In whatever order positions come, each pays its signed size times mark times rate once, in all three counters, and the balance falls by the sum |
| `Funding.LongsPayShorts` | src/worker/funding-worker.ts:65-78 | At a positive rate and mark a long strictly pays and a short strictly receives |
| `Funding.FundingIsZeroSum` | src/worker/funding-worker.ts:65-78 | Two accounts with opposite positions together neither gain nor lose |
| `Funding.RoundChargesOnce` | src/worker/funding-worker.ts:29-109 | In a round over all users every active user pays so once, and nobody else's account changes |
| `Funding.FundAllReconciles` | src/worker/funding-worker.ts:29-109 | Funding keeps the books |
| `FundingHistory.CountersAreHistory` | src/worker/order-matcher.ts:636-644 | In every run, of every position held: both totals are the funding charged since it was opened, and the third what was charged since an order on its asset last traded, through every liquidation slice |
| `Store.Store.ApplyFunding` | src/worker/funding-worker.ts:44-105 | The loop over one user's positions computes the specified funding |
| `Store.FundingWorker.ApplyFunding` | src/worker/funding-worker.ts:29-109 | With funding on, the loop over the active users, in any order, funds each of them and drops those without positions from the active set; with funding off nothing changes |
| `Liquidation.SliceOf` | src/engine/liquidation.ts:345-352 | A slice is positive, at most a fifth of the position, and taken only in a market liquidation outside the cooldown above the threshold |
| `LiquidationAccounting.CrossAssessmentMeaning` | src/engine/liquidation.ts:174-206 | The cross assessment compares the order-free sum of cash, cross PnL less isolated margins with the sum of cross maintenance |
| `LiquidationAccounting.CloseOnlyShrinks` | src/engine/liquidation.ts:259-328 | A liquidation close never grows or flips a position |
| `LiquidationAccounting.SliceIsCut` | src/engine/liquidation.ts:307-328 | A slice of an isolated position is a proportional cut that keeps at least four fifths |
| `LiquidationAccounting.ClosePreservesWorth` | src/engine/liquidation.ts:259-328 | A close moves cash and position by what its fill is worth |
| `LiquidationAccounting.QueueAllEffect` | src/engine/liquidation.ts:307-375 | Closing the targets in turn replaces each by its remainder and touches nothing else |
| `LiquidationAccounting.LiquidationReconciles` | src/engine/liquidation.ts:331-375 | A liquidation moves the account's worth by its fills and the equity handed over, nothing else |
| `LiquidationAccounting.IsolatedBackstop` | src/engine/liquidation.ts:355-375 | The balance falls by exactly the position's margin, cross account value does not move, the vault gains what was positive of the equity |
| `LiquidationAccounting.CrossBackstop` | src/engine/liquidation.ts:355-375 | For any set of positions the cross account value ends exactly zero |
| `LiquidationAccounting.BackstopRemovesTargets` | src/engine/liquidation.ts:355-375 | Nothing is left of the targets and nothing else of the account moves |
| `LiquidationOutcomes.IsolatedLiquidation` | src/engine/liquidation.ts:191-199 | An isolated position is left alone while its equity covers maintenance; below two thirds of it, taken over whole at the mark without a fee for exactly its margin, the vault gaining what was positive; in between sent to its side of the book, whole or the largest grid size up to a fifth, for the taker fee, with nothing handed over |
| `LiquidationOutcomes.CrossLiquidation` | src/engine/liquidation.ts:201-206 | The same for all cross positions together, with the cross account value against the sum of their maintenance margins |
| `LiquidationPasses.DisplayMatchesEngine` | src/engine/liquidation.ts:191-199 | On any schedule and for every mark the engine liquidates an isolated position iff the mark is past the displayed price, if and only if the first solve is sound and the rounds suffice |
| `LiquidationPasses.ReducingFillKeepsHealthy` | src/worker/order-matcher.ts:654-673 | A fill that reduces or closes a position never makes any isolated position liquidatable |
| `LiquidationPasses.CloseKeepsHealthy` | src/engine/liquidation.ts:307-328 | Nor does a liquidation close, whole or a slice |
| `LiquidationPasses.CrossKeepsIsolated` | src/engine/liquidation.ts:477-494 | A cross liquidation leaves every isolated position exactly as healthy |
| `LiquidationPasses.ThreePassesSettle` | src/engine/liquidation.ts:331-494 | At fixed marks with live cooldowns, whatever the book prices, after three passes nothing is liquidatable |
| `TwoPasses.TwoPassesMayNotSettle` | src/engine/liquidation.ts:331-494 | A desk and prices for which two passes, whatever the order of the positions, leave the cross account liquidatable |
| `LiquidationPasses.SettledIsFinal` | src/engine/liquidation.ts:477-494 | A settled account is left unchanged by further passes |
| `LiquidationPasses.PassReconciles` | src/engine/liquidation.ts:477-494 | A whole pass keeps the books |
| `Store.AssessCrossAccount` | src/engine/liquidation.ts:174-206 | The running sums compute the specified cross assessment |
| `Store.Store.Liquidate` | src/engine/liquidation.ts:331-375 | Closes, debit, vault credit and cooldown as specified |
| `Store.Store.CreditVault` | src/engine/liquidator-vault.ts:87-101 | The vault gains the positive proceeds when its address is set and nothing otherwise |
| `Store.Store.CheckAndLiquidateUser` | src/engine/liquidation.ts:477-494 | Isolated positions from one snapshot, then the re-read cross account, as the specified pass |
| `Ledger.BooksBalance` | src/worker/order-matcher.ts:546-735 | After any run of fills, liquidation passes and funding, at every price: balance plus marked positions equals the deposit plus marked fills less fees, funding and transfers; fills sum to every position |
| `Fees.ExecutionPays` | src/worker/order-matcher.ts:593-611 | Every executed order puts one fill on the list for what the position moved, and the cash moves by what is realized on the closed part less size times price times the taker and builder rates, or the maker rate |
| `Fees.FeesAddUp` | src/worker/order-matcher.ts:593-611 | In every run the fees on the executed orders' fills add up to what those rates ask, zero with fees off |
| `Exchange.StopsSeeTheAccounts` | src/worker/order-matcher.ts:433-480 | In every run of fills, liquidation passes, funding and stop events the stops look at the positions the accounts hold, and every user's books balance, fired stops included |
| `Exchange.ReduceOnlyDiscipline` | src/worker/order-matcher.ts:748-751 | Whenever an account's position changes, each open reduce-only stop of that user and asset can reduce it and goes on being able to |
| `Exchange.FiredStopTrades` | src/worker/order-matcher.ts:473-479 | A stop that fires moves its user's account by the size it records; a reduce-only one strictly towards zero, never across; no other position moves |
| `Exchange.FiredStopPays` | src/worker/order-matcher.ts:473-479 | It pays a taker's fee on what the position moved, at the price the book gave |
| `Slippage.ComputeVwap` | src/utils/slippage.ts:20-80 | The walk over the levels computes the specified price, fallback and clamp |
| `Slippage.AverageIsCost` | src/utils/slippage.ts:35-70 | The price is the cost of exactly sz units over sz, and exists exactly when the best level is within the limit |
| `Slippage.ExecutionIsFair` | src/utils/slippage.ts:20-80 | The fallback exactly when nothing is to trade or within the limit; otherwise the price lies between the best level and the worst level or limit, and the final clamp changes nothing |
| `Slippage.LargerIsNeverBetter` | src/utils/slippage.ts:20-80 | A larger trade never gets a better price |
| `Slippage.NeverBeyond` | src/utils/slippage.ts:82-105 | A buy priced from the asks or a sell from the bids is never beyond its limit |
| `Brackets.CancelOne` | src/engine/order.ts:551-660 | The recursive cancel ends on any link graph, closes the order and opens none |
| `BracketSafety.StepKeeps` | src/worker/order-matcher.ts:815-883 | Placement, fill, spend, cancel, expiry and modify keep the link invariant |
| `BracketRuns.AtMostOneFills` | src/worker/order-matcher.ts:815-883 | In every run, with sets listed in any order at any step, at most one order of a group linked as siblings, replacements included, ever fills |
| `BracketRuns.BatchLinks` | src/engine/order.ts:84-156 | The exits of a placed batch are mutual siblings iff its entry reached the book; otherwise the first exit is the parent of the others |
| `BracketRuns.AtMostOneOfBatchFills` | src/engine/order.ts:110-126 | Of the exits sent in one batch, replacements included, at most one fills in every run, unless one is the first exit of a batch whose entry did not reach the book |
| `BracketRuns.HeadlessExitsBothFill` | src/engine/order.ts:141-155 | After any run, of a batch without its entry the first exit and any other may both fill, the other being dormant till then |
| `BracketRuns.RejectedEntryUnlinksExits` | src/engine/order.ts:141-155 | The least such run |
| `BracketRuns.SiblingsFormCliques` | src/engine/order.ts:116-156 | Sibling sets of open orders are symmetric and disjoint cliques in every run |
| `BracketRuns.ExitsStayDormant` | src/worker/order-matcher.ts:311-383 | In every run a watched exit may fill if and only if it rests as a limit order, or the order linked as its entry, through every replacement, is not open |
| `BracketRuns.LimitExitIsNotDormant` | src/engine/order.ts:824-947 | A run: an exit modified into a resting limit order may fill while its entry is open |
| `BracketRuns.EntryTakesExitsAlong` | src/engine/order.ts:606-630 | Cancelling or modifying an entry leaves none of its exits open |
| `BracketRuns.ExpiryFreesExits` | src/worker/order-matcher.ts:266-309 | Expiry of an entry leaves its dormant exit open and free to fill |
| `BracketRuns.ExpiredEntryFreesItsExit` | src/worker/order-matcher.ts:266-309 | A run in which that happens |
| `BracketRuns.UnwatchedExactly` | src/worker/order-matcher.ts:502-520 | In every run an open order is watched by no matcher iff it came in idle or is a trigger spent with nothing to reduce |
| `BracketRuns.UnwatchedForEver` | src/worker/order-matcher.ts:502-520 | Once closed or unwatched an order stays so and never fills |
| `BracketRuns.IdleEntryHoldsItsExit` | src/engine/order.ts:320-360 | A run: a bracket's entry that came in idle stays open and unwatched, and its exit waits |
| `Placement.DecidesExactly` | src/engine/order.ts:161-398 | Which orders execute, rest or wait as triggers: by listing, size, leverage, time in force, the mid against the limit, and free margin at the price they would trade at |
| `Placement.ExecutesWithinLimit` | src/engine/order.ts:221-272 | An order that executes is one taker trade from its side of the book, never beyond its limit, and pays for it, the builder's share only if it is Ioc |
| `Placement.ExecutesWithinMargin` | src/engine/order.ts:231-240 | Opened at the mid it leaves free margin not below zero before fees |
| `Placement.IdleExactly` | src/engine/order.ts:161-398 | An accepted order rests iff it is a trigger or does not cross, is idle iff it crosses, is reduce-only and not against the position, and changes the account in the one other case |
| `Placement.EntryDecides` | src/engine/order.ts:84-156 | After any run a batch of an entry and exits makes the exits mutual siblings iff the account lets the entry in |
| `Placement.RejectedEntryFillsTwice` | src/engine/order.ts:84-156 | If it does not, the first exit and any other may both fill |
| `Placement.IdleEntryHolds` | src/engine/order.ts:320-360 | After any run an entry that crosses, is reduce-only and not against the position is answered as filled, stays open and unwatched, and none of its exits may fill |
| `OrderEngine.OrderEngine.PlaceSingleOrder` | src/engine/order.ts:161-449 | Refusals, resting and immediate execution by time in force, trigger, mid, leverage limit and margin, with the account, the id and the book after it |
| `OrderEngine.OrderEngine.PlaceOrders` | src/engine/order.ts:79-159 | The loop over a batch on account and book, refused orders left out, then the links between those that reached the book |
| `OrderEngine.OrderEngine.ModifyOrder` | src/engine/order.ts:883-947 | Refusals, close, placement of the replacement by the same rules, and the links carried over |
| `OrderStore.OrderStore.LinkBatch` | src/engine/order.ts:127-156 | Linking member by member gives the specified links |
| `OrderStore.OrderStore.CancelOrderSiblings` | src/worker/order-matcher.ts:815-883 | The loop over siblings in any order makes the specified cascade |
| `OrderStore.OrderStore.CancelOrders` | src/engine/order.ts:551-660 | The cancel loop and its recursive cascade make the specified cancels, ending on any link graph |
| `OrderStore.OrderStore.CarryLinks` | src/engine/order.ts:824-881 | The links of a modified order move to its replacement as specified, and its children are cancelled |
| `TrailingMath.StateIsHistory` | src/engine/trailing-math.ts:278-318 | Activated iff some mark reached activation; best is then the most favourable mark from the first such mark on |
| `TrailingMath.FiresOnCross` | src/engine/trailing-math.ts:278-318 | It fires on a mark iff that mark is at or past the rounded trigger of that best |
| `TrailingMath.WaitingNeverFires` | src/engine/trailing-math.ts:299-309 | It never fires before activation |
| `TrailingMath.After` | src/engine/trailing-math.ts:278-318 | In every reachable state activated iff there is a best price, so the non-null assertions are safe |
| `TrailingRatchet.RoundIsNearest` | src/engine/trailing-math.ts:228-239 | The trigger's rounding is to nearest, ties away from zero |
| `TrailingRatchet.LimitBrackets` | src/engine/trailing-math.ts:250-257 | A sell's limit is above 0.9 of the trigger by at most a step, a buy's at most 1.1 of it and less than a step below |
| `TrailingRatchet.StepLeavesFiveFigures` | src/engine/trailing-math.ts:252-254 | A step coarser than the coin's own leaves at most five figures, and exactly five iff the cap is at least one; below one it keeps four decimals |
| `TrailingRatchet.SmallCapKeepsThreeFigures` | src/engine/trailing-math.ts:252-254 | A cap below one that keeps three |
| `TrailingRatchet.LimitIsMonotone` | src/engine/trailing-math.ts:250-257 | The limit follows the trigger across every change of step at a power of ten |
| `TrailingRatchet.RatchetSurvivesRounding` | src/engine/trailing-math.ts:228-318 | Along any run, trigger and limit move only the favourable way |
| `TrailingRatchet.TriggerIsPositive` | src/engine/trailing-math.ts:176-180 | A fixed-distance sell has a positive trigger iff its best mark is at least half a step above the distance |
| `TrailingRatchet.AcceptedExactly` | src/engine/trailing-math.ts:168-182 | A fixed-distance sell is accepted exactly if its trigger at its reference price is positive; every other stop is |
| `TrailingRatchet.RefusedThoughPositive` | src/engine/trailing-math.ts:171-180 | On a grid mark a fixed-distance sell is refused though its trigger would be positive at once iff its activation price is not above the distance and the mark is |
| `TrailingRatchet.RefusedAtOnce` | src/engine/trailing-math.ts:171-180 | Such a stop |
| `TrailingRatchet.TriggerStaysPositive` | src/engine/trailing-math.ts:176-180 | On grid marks an accepted one keeps a positive trigger for ever |
| `TrailingRatchet.NewBestHolds` | src/engine/trailing-math.ts:278-318 | A fixed distance never fires on the mark that sets a new best |
| `TrailingRatchet.NewBestFires` | src/engine/trailing-math.ts:228-318 | A percentage does, on any mark, exactly when its worth and the mark's distance to the grid come to at most half a step |
| `TrailingRatchet.RisingMarkFires` | src/engine/trailing-math.ts:228-318 | An accepted one per cent sell that fires on a rising mark |
| `TrailingHash.ReadsBack` | src/engine/trailing-math.ts:357-386 | Reading the hash gives back exactly the parameters and state written |
| `TrailingHash.PersistTrailingEvaluation` | src/engine/trailing-state.ts:22-41 | Only differing fields are written, and it says changed exactly when the hash changed |
| `TrailingHash.StoreFollowsAutomaton` | src/engine/trailing-math.ts:357-386 | A run that starts every tick from the stored hash alone equals the automaton, so a restart changes nothing |
| `TrailingStopSafety.EveryLifeIsOneOfFour` | src/engine/trailing-state.ts:109-153 | Every history is a prefix of one of four lives, the scanned set is the open stops, the remainder is size less filled |
| `TrailingStopSafety.HistoriesGrow` | src/engine/trailing-state.ts:109-153 | Histories only grow, terms never change, an ended stop never changes |
| `TrailingStopSafety.OnlyNewStopsAreIdle` | src/engine/trailing-state.ts:175-200 | After every position change each reduce-only stop still open can reduce, and stays able to |
| `TrailingStopSafety.ReduceOnlyFireShrinks` | src/worker/order-matcher.ts:441-447 | A reduce-only stop fires iff it can reduce, and moves the position towards zero, never across |
| `TrailingStopSafety.FireMovesPosition` | src/worker/order-matcher.ts:473-479 | Firing moves the user's position by the size recorded as filled, in the stop's direction, a reduce-only stop no further than to zero, and no other position |
| `TrailingStopSafety.FireFillsWhatFits` | src/worker/order-matcher.ts:449-477 | It fills its whole size, or the largest grid size that passes the margin check, and is margin-cancelled only when none does |
| `TrailingStopSafety.TickEndsStop` | src/worker/order-matcher.ts:404-447 | An evaluation leaves a stop open iff the mark does not fire or the stop is reduce-only with nothing to reduce |
| `TrailingStopSafety.StoredStateIsAutomaton` | src/worker/order-matcher.ts:404-426 | Whatever else happens, the stored state is the automaton's after the marks the stop was evaluated on |
| `TrailingStopSafety.FiresOnlyWhenCrossed` | src/worker/order-matcher.ts:404-426 | A stop fills or is margin-cancelled only on a mark that crosses the trigger of all it has seen |
| `TrailingStore.TrailingStore.PlaceTrailingStop` | src/engine/trailingStop.ts:33-122 | Placement writes the open stop evaluated on the mark, or refuses (size, parameters, reference price, leverage limit) and changes nothing |
| `TrailingStore.TrailingStore.CancelTrailingStop` | src/engine/order.ts:551-600 | A cancel ends the user's own open stop with its row and otherwise changes nothing |
| `TrailingStore.TrailingStore.TerminateTrailingStop` | src/engine/trailing-state.ts:109-153 | Ends an open stop with its rows and drops it from the set; otherwise a no-op |
| `TrailingStore.TrailingStore.ReconcileReduceOnlyStops` | src/engine/trailing-state.ts:175-200 | The loop, in any order, ends exactly the orphans of the changed position |
| `TrailingStore.TrailingStore.MoveLiquidated` | src/engine/liquidation.ts:418-427 | Reconciling closed assets one after the other equals reconciling them at once |
| `TrailingStore.TrailingStore.FireTrailingStop` | src/worker/order-matcher.ts:433-480 | Firing with its refusals, partial size and margin cancel, as specified |
| `TrailingStore.TrailingStore.MatchTrailingStops` | src/worker/order-matcher.ts:404-426 | One scan evaluates every stop of the set as it was at the start exactly once |
| `UserLock.MutualExclusion` | src/utils/userLock.ts:23-40 | At most one queued section of a user runs, in every run |
| `UserLock.FirstComeFirstServed` | src/utils/userLock.ts:23-40 | A section starts only after all earlier calls of its user have released |
| `UserLock.NoLostWakeup` | src/utils/userLock.ts:27-32 | A pending call runs or may start iff no earlier call of its user is pending |
| `UserLock.TailsArePending` | src/utils/userLock.ts:30-38 | The map has an entry for a user iff a call of that user is pending |
| `UserLock.ReentryNeverBlocks` | src/utils/userLock.ts:24-25 | A call from inside the user's section changes nothing, and all code holding a user's lock runs inside one queued section |
| `UserLock.HeldIsEnclosing` | src/utils/userLock.ts:24-34 | A section holds exactly the locks of the calls around it and its own |
| `UserLock.NothingWaitsForItself` | src/utils/userLock.ts:24-25 | In every run no call that queued was made, however deep, inside a section of its own user |
| `UserLock.NeverStuck` | src/utils/userLock.ts:23-40 | With nested calls in one order of users some section may always start or end |
| `UserLock.CrossedCallsAreStuck` | src/utils/userLock.ts:23-40 | For any two users, two sections calling for each other's user never go on |
| `UserLock.UserLocks.Arrive` | src/utils/userLock.ts:24-30 | The synchronous part of a call puts its tail in the map, unless the user's lock is held |
| `UserLock.UserLocks.Start` | src/utils/userLock.ts:33-35 | A call whose predecessor has released enters its section and changes nothing else |
| `UserLock.UserLocks.Finish` | src/utils/userLock.ts:35-38 | Release drops the map entry unless a later call has replaced it |
| `TwapSafety.SliceIsBounded` | src/worker/order-matcher.ts:130-172 | A slice is a whole number of steps within what is left and three base slices, but for the guard, and rounds off less than a step |
| `TwapSafety.NeverOverfills` | src/worker/order-matcher.ts:71-224 | In every run the filled size is at most the order's, but for the guard |
| `TwapSafety.WholeNeverOverfills` | src/worker/order-matcher.ts:71-224 | On whole sizes exactly at most |
| `TwapSafety.NeverRunsAhead` | src/worker/order-matcher.ts:121-172 | In every run never ahead of the linear schedule, or with jitter of twice the schedule, by more than a base slice and the guards |
| `TwapSafety.JitterRunsAhead` | src/worker/order-matcher.ts:200-204 | A randomized order three steps ahead with a base slice of two |
| `TwapSafety.NeverFallsBehind` | src/worker/order-matcher.ts:121-172 | On time and filled, never behind by the base per thirty seconds since the last slice and one step, before each slice and at the end |
| `TwapSafety.EndsExactly` | src/worker/order-matcher.ts:111-171 | A slice is sent only when due; a tick ends an order iff its time is over, all is filled, or a slice is due and less than a step is left |
| `TwapSafety.FinishedIsDone` | src/worker/order-matcher.ts:111-171 | In every run an order finishes only when its time is over or less than a step is left |
| `TwapSafety.SlicesAreSpaced` | src/worker/order-matcher.ts:120-128 | In every run two slices are at least thirty seconds apart, fifteen of a randomized order |
| `TwapSafety.TooThinNeverFills` | src/worker/order-matcher.ts:141-172 | Nothing is sent when three base slices stay below a step; otherwise a slice goes out once the schedule is a step behind |
| `TwapSafety.FillsExactlyIfItCan` | src/worker/order-matcher.ts:111-172 | An order fills something in some run of ticks iff it has a whole step to fill, three base slices make one, and the schedule comes to one before the end |
| `TwapSafety.CanFillByMinutes` | src/worker/order-matcher.ts:111-172 | Over two minutes or more that is every order not too thin; exact conditions for one minute and none |
| `TwapSafety.TooThinEndsUnfilled` | src/worker/order-matcher.ts:141-172 | A too-thin order ends with nothing filled, whatever the ticks |
| `TwapSafety.LessThanAStepFillsNothing` | src/worker/order-matcher.ts:157-171 | A placeable order that is not too thin and that no run fills |
| `TwapSafety.TooThinIsPlaceable` | src/engine/order.ts:1053-1068 | Placement accepts such an order iff no mid is cached or a size step is worth just over three times the least suborder |
| `TwapSafety.ThreeStepsFillNothing` | src/engine/order.ts:1041-1116 | A placeable order of three steps that no run of ticks fills |
| `TwapFills.RecordedIsExecuted` | src/worker/order-matcher.ts:204-213 | A tick records what it executes iff nothing is sent, or the order may open positions, or the position absorbs the slice |
| `TwapFills.OpeningOrdersRecordTrades` | src/worker/order-matcher.ts:204-213 | In every run an order that is not reduce-only has traded exactly what it records |
| `TwapFills.FlatReduceOnlyNeverTrades` | src/worker/order-matcher.ts:502-520 | A reduce-only one on a flat account never trades |
| `TwapFills.RecordedButNotTraded` | src/worker/order-matcher.ts:204-213 | A run in which it ends recorded as filled whole |
| `TwapStore.OneClosingRow` | src/worker/order-matcher.ts:226-261 | Scanned iff running, one closing row iff ended, with the final filled size, never rewritten |
| `TwapStore.EveryOrderRunsAlone` | src/worker/order-matcher.ts:71-224 | Each order is in the state its own ticks leave it in, whatever happens to the others |
| `TwapStore.NoOrderOverfills` | src/worker/order-matcher.ts:71-224 | In every history no order overfills or runs ahead |
| `TwapStore.TwapStore.CreateTwapOrder` | src/engine/order.ts:1041-1116 | A placement with a positive size and suborders worth the minimum is written and scanned; any other changes nothing |
| `TwapStore.TwapStore.CancelTwapOrder` | src/engine/order.ts:1120-1165 | Cancel ends a running order of the user and writes its row; any other request changes nothing |
| `TwapStore.TwapStore.MatchTwaps` | src/worker/order-matcher.ts:71-224 | The scan loop ticks every active order once |

## Left out

- Redis, Postgres, HTTP, WebSocket frames, the event bus and logging: only the state they hold and the rows they record are modelled.
- Interleaving inside one matcher step (stale reads between awaits), and between placing the legs of a batch and linking them: steps are atomic.
- Links of a replacement that fills at once, and legs that fill while they are placed: outside the one-cancels-other claim, as the code drops the links there.
- Decimal's 30-digit rounding, `hincrbyfloat` and JavaScript floats: exact arithmetic; the TWAP's nine-decimal rounding of its accumulator is exact too.
- Margin.CrossLiquidationPrice: stated as what it solves, not as the price where the engine liquidates, which it is not (`CrossDisplay.ShownErrs`); accounts of several cross positions are not compared with it.
- OrderMargin.CheckMeansFreeMargin: fills at the mid with a mark equal to it; slippage between check and fill is not modelled.
- LiquidationPasses.ThreePassesSettle: assumes no other writer between the passes and cooldowns that do not run out, as its statement says; marks are fixed.
- TrailingHash.ReadsBack: stored values are numbers and words, not strings; that a decimal string reads back as the number it was written from is taken for granted.
- TrailingStore.TrailingStore.PlaceTrailingStop: string validation of sizes and percentages, unknown coins, and the wording of trigger conditions.
- Store.Store.ExecuteFillWithSize: the order's own hash and index sets are in `OrderStore.FillAndCascade`, and the reconciliation that follows in `TrailingStore.MovePosition`; no one method does all of it.
- OrderEngine.OrderEngine.PlaceSingleOrder: cloids, expiry times and spot balances are not kept.
- TwapStore.TwapStore.MatchTwaps: whether a suborder is accepted is a parameter (`Placement` decides it from the account); what an accepted one does to the account is in `TwapFills`.
- Exchange.StopsSeeTheAccounts: what a firing stop may spend, and the setting and price its order meets, are parameters; the vault is kept per user.
- TwapStore.TwapStore.CreateTwapOrder: unknown coins, and the limits the public route sets on the duration (src/api/routes/exchange.ts:338).
- UserLock: work started inside a section and not awaited there.
- Twap: the slippage cap and five-figure formatting of a suborder's price, and records with missing numbers.
- Fill direction texts, ids, timestamps of fills, and the choice of taker or maker by the matching loops: they enter a fill as parameters.
- Default leverage settings and their cap at the coin's maximum: the settings are parameters.
- Users' isolated margin changes, transfers, sub-accounts, staking, agents, signing, wire shapes, info endpoints and scripts: they would only add simple members.
