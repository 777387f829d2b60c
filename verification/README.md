# Trading-challenge platform: account capital, competitions, price history, correlation

A Dafny model of the parts of the platform where money, ranks and prices must stay right under
concurrency, retries and late events. Money is in integer cents, percentages are reals, times are
milliseconds. Each database transaction is one atomic step; a failing statement rolls it back.

**Account capital.** `Capital` holds the rows an account owns (its columns, its trades, its
`balance_adjustments` ledger) and the effect of each statement on them. `Accounts` has the row and the
`Account` aggregate as classes. `Anchors` and `Drawdown` are the trailing anchor and the floor derived
from it, `Scaling` the milestone plan, `Enforcement` the engine's fail, expire, pass and per-account
pass, each method proved equal to a function on account states; `Outcomes` and `Evaluations` say what a pass
and an evaluation decide in the numbers of the account alone. `CapitalRuns` proves what every run
keeps: any series of trades, credits, debits, resets, status requests, evaluations and engine passes,
where a pass may work on an arbitrarily old copy of the row. `StaleCopies` says when such a pass does
harm, `ScalingRuns` what whole runs of one plan do to the multiplier and the injections. `Eligibility`
is the withdrawal predicate, `PayoutDesk` the approval of payouts under any interleaving of approvers,
settings and account events. `Sweep` is the pool of workers sharing one cursor.

**Competitions.** `Ranking` checks the stable sort against an independent definition of a rank.
`Competitions` describes a tick of the engine as a series of committed writes, any of which a crash may
precede, and proves what every run keeps. `Finalisation` says what a closing tick leaves behind and
that retrying after crashes leaves the same, `Retries` what survives when every retry meets other prices
and orders, `Breaches` who is taken out and stays out, `LostVouchers` which crashes lose which vouchers,
`Tournaments` has the concrete cases, and `Corrections` is the re-ranking after the end. `CompetitionEngine`
has the methods over the tables, proved equal to that description. `Slugs` is the slug of a title.

**Prices.** `HourlyRollup` compares the incrementally kept hour buckets with the batch aggregate,
`HourlyDrift` says how far they drift apart between syncs; `HourlyThrottle` is the throttle in front of
them. `PriceHistory` expands exported bars to ticks and back, `Backfill` stores them, `SharedFeed` is the
single-flight reader with its "unchanged" shortcut.

**Analytics.** `Correlation` proves the bound and the symmetry of the correlation matrix, `Coefficients` what
the coefficient is, `TraderStats` the streak counters. `Options`, `Arithmetic` and `Sequences` are shared helpers.

## Where the code differs from what its comments say

The model follows the code.

- The pass treats a balance equal to the floor as a breach, failAccount rolls back on it: such an account
  survives (`Enforcement.FailsIffStrictlyBelowFloor`, `OnTheFloorSurvives`).
- The daily-loss branch re-checks the drawdown floor and therefore never fails an account by itself, except
  a funded one without a model (`DailyLossNeverFails`, `DailyLossWithoutModel`).
- expireAccount swallows an error on a trade and still commits, so an unpriceable conversion leaves the
  trade open on an expired account; failAccount does not (`ExitLeavesOpenIff`, `UnvaluableTradeExample`).
- A pass ratchets the anchor and the locked floor from the copy of the row it was given. A payout or a reset
  committed in between is partly undone and can fail the account, in this pass or the next
  (`StaleCopies.UnjustifiedFailureIff`, `NextPassFailsIff`, with an example for each way).
- An evaluation can lower the stored multiplier: the size cap is applied to the new value, so a cap below the
  starting balance lowers a fresh multiplier (`ScalingRuns.FreshMultiplierNeverFallsIff`,
  `CapBelowStartHalves`).
- A reported consistency breach is a blocker even for an amount the limit allows
  (`Eligibility.BreachBlocksAllowedAmountToo`, `BreachBlocksExample`).
- The bulk rejection does not look at the status it overwrites, so it can hide a payment that was debited
  (`PayoutDesk.StatusMatchesLedgerIff`, `PaidThenRejected`).
- A crash after a competition was marked completed loses the vouchers not yet issued for good
  (`LostVouchers.VoucherLostIff`), and an account whose closing transaction fails stays active, with its
  trades open, in a completed competition (`Finalisation.StaysOpenIff`); `Tournaments` has one of each.
- A retry does not have to end where the first try would have: each account keeps the prices of the first
  closing that got to it (`Retries.EndsAsUninterruptedIff`, `Tournaments.RetryMixesPrices`).
- Ranks of exactly tied entries follow the unordered row order of the SELECT, so a re-rank can move tied
  entries that nobody corrected (`Corrections.CreditReordersOthersIff`,
  `Tournaments.CorrectionReordersTied`).
- The feed's "unchanged" shortcut compares modification time and size; two versions that share them can
  serve the older prices (`SharedFeed.UnchangedIsCurrentIff`).
- The hourly upsert takes its hour from a later clock reading than the history row, so a late write can push
  the extremes of an hour beyond its ticks (`HourlyDrift.ExtremesBeyondIff`, `LateWriteRaisesHigh`). A sync may
  run between a tick's two writes and then count it twice (`PromptOvercountsIff`, `OvertakenCountsTwice`). A
  sync cutoff inside an hour recomputes that hour from part of its ticks (`HourlyRollup.SyncIsExactIff`).
- The backfill's statistics are read before its transaction: where they found no row, the ticks it inserts need
  not be older than the live ones stored in between (`Backfill.OlderThanLiveIff`).

## Model

| member | source | states |
|---|---|---|
| Capital.AdjustedConserves | backend/utils/balanceAdjustments.js:27-100 | a ledger movement keeps balance = start + realised P&L + ledger sum in both directions, keeps the peak above the balance and does not touch the anchor |
| Capital.ResetRestartsFrame | backend/domain/account.js:133-170 | a reset returns balance, peak and anchor to the start, clears the locked floor, books exactly the missing capital and keeps the invariant although P&L stays |
| Capital.LiquidationSettles | backend/challengeEngine.ts:487-568 | a liquidation moves the balance by exactly the P&L stamped on trades, writes no ledger row, voids every order, and leaves open exactly the trades that cannot be valued |
| Accounts.Account.AdjustBalance | backend/domain/account.js:93-121 | refuses zero; otherwise ledger, balance, peak and (unless switched off) anchor move together and the cached row follows the database |
| Accounts.Account.ResetToStarting | backend/domain/account.js:133-170 | the delta is taken from the row as it is now, so a stale aggregate books the right amount |
| Accounts.Account.ChangeStatus | backend/domain/account.js:176-206 | changes row and cache together exactly for a legal transition, changes nothing on a refusal |
| Accounts.ClosedIsFinal | backend/domain/account.js:55-63 | no series of requests leaves 'closed' |
| Accounts.LifecycleShape | backend/domain/account.js:55-63 | every other status reaches every status in at most two legal requests; 'passed' and 'expired' are entered only from 'active' |
| Accounts.EnteredFrom | backend/domain/account.js:55-63 | for every status, from exactly which others a request naming it is granted; any other request is an illegal transition |
| Accounts.AccountRecord.ApplyBalanceAdjustment | backend/utils/balanceAdjustments.js:27-100 | a zero amount is refused without effect; otherwise balance, peak and one ledger row move together |
| Accounts.AccountRecord.ShiftAnchors | backend/domain/drawdownAnchors.js:46-77 | the anchor column follows the movement from the start balance when never set, clamped at zero |
| Accounts.AccountRecord.RebaseAnchors | backend/domain/drawdownAnchors.js:91-109 | the anchor restarts and the locked floor is forgotten |
| Anchors.AnchorBoundsHistory | backend/domain/drawdownAnchors.js:46-77 | clamped or not, the anchor is never below any past equity carried along by later capital movements |
| Anchors.AnchorIsHighWater | backend/domain/drawdownAnchors.js:46-77 | while the zero clamp is not hit, the anchor is the shift-adjusted high-water mark of the history |
| Anchors.HighWaterIsUnique | backend/domain/drawdownAnchors.js:46-77 | that mark is a single number |
| Anchors.AnchorIsClampedHighWater | backend/domain/drawdownAnchors.js:46-77 | over every history, clamped or not, the anchor is the maximum over past equities and over a zero at each capital movement, all carried along by the later movements |
| Anchors.AnchorIsMarkIff | backend/domain/drawdownAnchors.js:60-67 | the anchor is the shift-adjusted high-water mark if and only if no carried clamp point is above that mark; otherwise it is higher |
| Anchors.ClampLosesTheMark | backend/domain/drawdownAnchors.js:60-67 | one clamped history whose anchor is above the mark, and one more ratchet after which it is the mark again |
| Anchors.MovementKeepsGap | backend/domain/drawdownAnchors.js:46-77 | a movement keeps the anchor-to-balance gap if and only if the clamp is not hit |
| Drawdown.GetEffectiveDrawdownFloor | backend/services/drawdownService.ts:174-197 | returns the resolved floor and performs the two guarded updates on the row as it is, whatever copy it resolved from |
| Drawdown.ResolveIsStable | backend/services/drawdownService.ts:87-124 | resolving again on the row just written gives the same floor and changes nothing |
| Drawdown.FloorNeverWalksBack | backend/services/drawdownService.ts:87-124 | over every series of equities the floor at a later look is at least the floor at any earlier one |
| Drawdown.LockSurvives | backend/services/drawdownService.ts:87-124 | once the lock threshold was reached, one capital movement of any size and any later equity leave the floor at or above the locked level; a reset clears the stored floor |
| Drawdown.DebitCostsShareOfHeadroom | backend/domain/account.js:79-92 | a debit w costs exactly w times drawdown% of trailing headroom |
| Drawdown.ResetIsNotInBreach | backend/domain/account.js:133-170 | right after a reset the balance is strictly above the floor |
| Enforcement.FailAccount | backend/challengeEngine.ts:446-568 | commits exactly when active, strictly below the live floor (or the check is skipped) and every open trade can be valued; otherwise the row is untouched; the counter moves with the status |
| Enforcement.CloseOrThrow | backend/challengeEngine.ts:497-548 | settles every open trade and sums the P&L, or gives up exactly when one cannot be valued |
| Enforcement.ExpireAccount | backend/challengeEngine.ts:308-387 | an active account becomes expired with its trades liquidated and the counter bumped once |
| Enforcement.CloseOrSkip | backend/challengeEngine.ts:328-366 | settles every open trade that can be valued, leaves the others, sums the P&L |
| Enforcement.PassAccount | backend/challengeEngine.ts:633-724 | passes exactly an active account with the live target reached, nothing open and the review raised |
| Enforcement.CheckLimits | backend/challengeEngine.ts:934-1023 | ratchets the row from the given copy and reports a breach when the copy is at or below the floor or at or above the daily limit |
| Enforcement.ProcessAccount | backend/challengeEngine.ts:892-1097 | one pass takes exactly one branch, in the code's order, and the outcome counters follow the live status |
| Outcomes.PassedIff | backend/challengeEngine.ts:633-724 | passAccount passes an active account exactly with the profit at the target, or at a tenth of the start where none is set, nothing open and the review raised |
| Outcomes.EvaluationPassedIff | backend/challengeEngine.ts:892-1097 | a pass on any copy of an evaluation account passes the row exactly when no time rule applies, the copy is above its floor, within its daily limit and at its target, the holds are off and the row is at the target with nothing open |
| Outcomes.EvaluationFailedIff | backend/challengeEngine.ts:446-568 | an undisturbed evaluation account fails exactly when its balance is below 100 - drawdown percent of the high-water mark, the percentage is positive and its trades can be valued |
| Outcomes.FundedFailedIff | backend/services/drawdownService.ts:87-124 | a funded one with a model fails exactly below that share or, where the model locks, below the stored floor or the level its peak now locks |
| Outcomes.FundedGrowsIff | backend/challengeEngine.ts:934-1027 | a pass over a funded account evaluates its plan exactly when the copy is above its floor and within the daily limit, that of the model where there is one |
| Outcomes.DailyBreachIff | backend/challengeEngine.ts:1006-1023 | the daily limit is reached exactly when today's realised loss is at least the positive percentage of the start |
| Enforcement.ExitLeavesOpenIff | backend/challengeEngine.ts:308-568 | a failed account has nothing open; an expired one has exactly when an open trade could not be valued |
| Enforcement.UnvaluableTradeExample | backend/challengeEngine.ts:328-366 | one account whose expiry commits with a trade open and whose failure is rolled back |
| Enforcement.FailsIffStrictlyBelowFloor | backend/challengeEngine.ts:446-486 | a pass over an undisturbed row ends as failed if and only if the balance is strictly below the floor, the percentage is positive and every open trade can be valued |
| Enforcement.OnTheFloorSurvives | backend/challengeEngine.ts:998-1003 | a balance exactly on the floor is reported as a breach and then left alone |
| Enforcement.DailyLossNeverFails | backend/challengeEngine.ts:1006-1023 | the daily-loss branch changes nothing but the ratchet |
| Enforcement.DailyLossWithoutModel | backend/challengeEngine.ts:460-486 | without a model the daily branch fails a funded account exactly when failAccount's own floor is above the balance |
| Enforcement.DailyLossWithoutModelExample | backend/challengeEngine.ts:937-949 | such an account exists |
| StaleCopies.UnjustifiedFailureIff | backend/challengeEngine.ts:446-486 | a pass on an old copy ends an account as failed although its own floor does not justify it if and only if every trade can be valued and either inactivity decides, or the copy was in breach, the percentage is positive and the copy lifts the trailing or the locked floor over the live balance |
| StaleCopies.NextPassFailsIff | backend/challengeEngine.ts:986-1003 | on a row a stale pass left active and unmoved, the next pass over the row itself fails it if and only if the copy had lifted a floor over the balance, the percentage is positive and every trade can be valued |
| StaleCopies.RatchetLiftsFloorIff | backend/challengeEngine.ts:986-990 | the ratchet puts the live balance under a floor it was not under if and only if that condition on the two balances, the two anchors, the lock threshold and the two stored floors holds |
| StaleCopies.OwnCopyIsHarmless | backend/challengeEngine.ts:986-1003 | a pass over the row as it is never lifts a floor over its balance |
| StaleCopies.StalePassNeedsLiveTarget | backend/challengeEngine.ts:633-724 | however old the copy, an account passes only with the profit of the row at its target and nothing open |
| StaleCopies.StaleCopyRaisesAnchorIff | backend/services/drawdownService.ts:174-197 | what a ratchet from an old copy leaves in both columns: the anchor moves exactly when the copy was at a new high above the live anchor, the stored floor exactly when the copy reaches the lock and both stored floors are below its level; an anchor never set included |
| StaleCopies.PayoutBetweenReadAndRatchet | backend/challengeEngine.ts:986-1003 | a payout committed between read and ratchet: the next pass fails the account, in the clean order it does not |
| StaleCopies.PayoutBeforeDailyLossCheck | backend/challengeEngine.ts:1006-1023 | the same with the daily loss at its limit: the stale pass itself fails an account its own floor does not justify |
| StaleCopies.ResetBetweenReadAndRatchet | backend/services/drawdownService.ts:174-197 | a reset committed between read and ratchet: the anchor stays, the cleared locked floor comes back, the next pass fails the fresh account |
| Scaling.EvaluateScalingPlan | backend/challengeEngine.ts:752-846 | one evaluation on the locked row, with its loop and its rollback, is the specified function |
| Evaluations.ClaimedIff | backend/challengeEngine.ts:781-818 | an evaluation claims exactly the milestones of the trading profit, unless these are no more than before or one injection is below half a cent |
| Evaluations.EvaluationBooks | backend/challengeEngine.ts:820-837 | every row it books is the percentage of the start to the nearest cent, for the next milestone and within the cap; the balance moves by these rows, one for each milestone claimed unless the next would pass the cap |
| Evaluations.MultiplierIs | backend/challengeEngine.ts:811-813 | the multiplier becomes the factor taken once for each milestone claimed so far, or what takes the start exactly to the cap when that is less |
| Evaluations.IdlePlan | backend/challengeEngine.ts:752-762 | a plan switched off, without a positive milestone or a factor above 1 does nothing |
| Scaling.InjectMilestones | backend/challengeEngine.ts:820-837 | the loop injects milestone by milestone, stops at the size cap, and rolls back all of it on a refused insert |
| Scaling.InjectClosedForm | backend/challengeEngine.ts:820-837 | the loop grants min(newly earned, slots under the cap), one ledger row per milestone, and never takes the balance past the cap |
| Scaling.WholeCentSlots | backend/challengeEngine.ts:825-826 | for whole-cent amounts the slots are max(0, floor((cap - balance) / amount)) |
| Scaling.InjectRefusedIff | backend/challengeEngine.ts:824-836 | an evaluation is refused exactly when the amount rounds to nothing and fits under the cap |
| Scaling.MultiplierMonotoneAndCapped | backend/challengeEngine.ts:811-813 | the value a claim assigns rises with the milestone count, and start times that value stays under the cap |
| ScalingRuns.EvaluationMultiplier | backend/challengeEngine.ts:802-846 | the stored multiplier and count change exactly when more milestones are earned than claimed and the evaluation is not refused |
| ScalingRuns.MultiplierNeverFallsIff | backend/challengeEngine.ts:802-846 | over every run with one plan in which only funded active accounts are evaluated, the stored multiplier of a funded active account never falls if and only if it is at most the lowest value the next claim can assign, or every evaluation is refused |
| ScalingRuns.FreshMultiplierNeverFallsIff | backend/challengeEngine.ts:811-813 | for a funded account that starts with multiplier 1 and nothing claimed: if and only if the plan has no size cap or one not below the starting balance |
| ScalingRuns.CapBelowStartHalves | backend/challengeEngine.ts:811-813 | a concrete account whose first milestone halves its multiplier |
| Scaling.EvaluationIsIdempotent | backend/challengeEngine.ts:781-846 | an evaluation leaves the trading profit alone, a second one changes nothing, no claimed milestone is lost |
| Scaling.EvaluationCount | backend/challengeEngine.ts:802-846 | the claimed count after an evaluation is the maximum of the old count and the milestones in the trading profit, unless refused |
| ScalingRuns.StagedRunInjects | backend/challengeEngine.ts:752-846 | a run that closes any distinct open trades in any stages and evaluates after each stage appends exactly the scaling rows the staged count gives, and moves the balance by them and the results |
| ScalingRuns.CatchUpRunInjects | backend/challengeEngine.ts:752-846 | a run that closes them all and evaluates once appends exactly one catch-up grant |
| ScalingRuns.StagedRunGainsAtLeastCatchUp | backend/challengeEngine.ts:820-837 | for any account, plan and trades, evaluating at any points at which the profit is no lower than at the point before leaves at least as many injections and at least as much balance as one evaluation at the end |
| CapitalRuns.LedgerConservation | backend/domain/account.js:6-23 | over every run balance = start + realised P&L + ledger sum, and the peak is at least the balance |
| CapitalRuns.ClaimedIsBestSeen | backend/challengeEngine.ts:781-846 | over every run the claimed count is the largest number of milestones of trading P&L seen at any evaluation, never below its start |
| CapitalRuns.LedgerCannotEarn | backend/challengeEngine.ts:781-800 | no credit, debit, payout, reset or repeated evaluation earns a milestone, raises the multiplier or injects anything |
| CapitalRuns.EachMilestoneInjectedOnce | backend/challengeEngine.ts:824-836 | over every run scaling rows carry strictly increasing milestone numbers, none above the claimed count |
| CapitalRuns.ExitsAtMostOnce | backend/challengeEngine.ts:316-325 | for any interleaving of fail, expire and pass without a reactivation, at most one commits, a pass included |
| CapitalRuns.OnlyResetClearsLock | backend/services/drawdownService.ts:174-197 | over every run without a reset a stored locked floor stays stored and never falls |
| CapitalRuns.LockBindsForever | backend/services/drawdownService.ts:87-124 | once a look reached the lock threshold, no look anywhere later in a run without a reset finds a floor below the locked level |
| CapitalRuns.ExitSettles | backend/challengeEngine.ts:308-568 | an exit voids orders, moves the balance by the P&L it stamped and writes no ledger row; only an expiry can leave trades open, exactly when one could not be valued |
| CapitalRuns.TradesAdvance | backend/challengeEngine.ts:308-568 | over every run no trade is lost or reopened, and none that is settled or voided changes |
| CapitalRuns.OrderIsTraded | backend/challengeEngine.ts:781-800 | an order filled and closed ends settled at its result, which moves the balance and no ledger row |
| CapitalRuns.RequestsFollowLifecycle | backend/domain/account.js:176-206 | a series of status requests takes an account through the transition table and changes nothing else |
| CapitalRuns.ExitEvents | backend/challengeEngine.ts:308-568 | an active account expires in any case and fails without a floor check exactly when its trades can be valued; any other stays |
| CapitalRuns.CountersMatchOutcomes | backend/challengeEngine.ts:287-300 | over any number of accounts and any interleaving, status requests included, each outcome counter grows by the accounts in its status less those moved into or out of it by a request |
| CapitalRuns.AnchorFollowsTrace | backend/domain/drawdownAnchors.js:46-109 | the anchor column after a run is the fold of its ratchets, movements and rebases |
| CapitalRuns.RunAnchorIsHighWater | backend/domain/drawdownAnchors.js:46-109 | over every unclamped run the anchor is the maximum over past ratchet points of that equity plus all later adjustBalance movements |
| CapitalRuns.RunAnchorIsClampedHighWater | backend/domain/drawdownAnchors.js:46-109 | over every run, clamped or not, it is the maximum over past ratchet points and over a zero at each adjustBalance movement, carried along |
| Eligibility.LimitBounds | backend/domain/payoutEligibility.js:68-75 | the limit lies between zero and the profit |
| Eligibility.LimitMonotone | backend/domain/payoutEligibility.js:38-75 | more profit never lowers the limit |
| Eligibility.LimitAntitone | backend/domain/payoutEligibility.js:38-75 | a better best day never raises the limit |
| Eligibility.LimitWithholdsOvershoot | backend/domain/payoutEligibility.js:38-75 | nothing is withheld when the best day is within its cap; beyond it the overshoot to the nearest cent, up to everything |
| Eligibility.LimitWithoutCap | backend/domain/payoutEligibility.js:38-75 | without a positive cap, or a profit, nothing of the profit is held back |
| Eligibility.SplittingGainsNothing | backend/domain/payoutEligibility.js:68-75 | no series of withdrawals, each within the limit recomputed on what remains, takes more than the limit at the start |
| Eligibility.EvaluatePayoutEligibility | backend/domain/payoutEligibility.js:98-188 | each code is reported exactly when it applies, once, and the first message is the account type or else the status |
| Eligibility.EligibleAmount | backend/domain/payoutEligibility.js:98-188 | no blocker for an amount means exactly: funded, active, approved, flat, nothing pending, no breach, and the amount between minimum, profit and limit; paying it leaves at least the start |
| Eligibility.EligibleWithoutAmount | backend/domain/payoutEligibility.js:98-188 | without an amount the minimum is asked of the trader's share of the profit to the nearest cent |
| Eligibility.WithdrawableIs | backend/domain/payoutEligibility.js:38-75 | what can be withdrawn: the profit less the overshoot of the best day where a limit applies, else the profit, never less than nothing |
| Eligibility.BreachBlocksAllowedAmountToo | backend/domain/payoutEligibility.js:145-158 | a reported breach blocks an amount the limit allows, and is then the only blocker besides the gates |
| Eligibility.BreachBlocksExample | backend/domain/payoutEligibility.js:145-158 | a request well within its limit, held for the breach and nothing else |
| PayoutDesk.ApprovePayout | backend/domain/payout.js:42-182 | the approval and its debit, with every refusal leaving row and account untouched |
| PayoutDesk.ApprovalOutcome | backend/domain/payout.js:42-168 | the outcome and the signatures of one approval in the numbers of payout, account and setting: a positive setting that the amount reaches takes a first approver and then somebody else, without it the first approval pays |
| PayoutDesk.OnePersonBelowThreshold | backend/domain/payout.js:101-146 | with no positive setting, or an amount below it, the first approval of a payable payout pays it |
| PayoutDesk.PayableIffEligible | backend/domain/payout.js:75-87 | the re-check asks for a funded, active, approved, flat account and an amount between the minimum and the profit, and nothing about consistency |
| PayoutDesk.TwoApproversSuffice | backend/domain/payout.js:101-146 | whatever the threshold, an eligible payout is paid once two different admins approved |
| PayoutDesk.DebitedOnceExactlyWhenPaid | backend/domain/payout.js:148-168 | over every interleaving a payout is paid at most once, its account's ledger holds its debit exactly when it was paid, no other account is debited |
| PayoutDesk.StatusMatchesLedgerIff | backend/routes/admin/commandCenterActions.js:452-463 | status and ledger agree if and only if no bulk rejection hit the payout after payment |
| PayoutDesk.PaidThenRejected | backend/routes/admin/commandCenterActions.js:452-463 | a concrete run of a request, a payment and a bulk rejection: the debit is booked, the row says rejected |
| PayoutDesk.TwoPeopleAboveThreshold | backend/domain/payout.js:101-146 | when a payout is paid while the setting is a positive number its amount reaches, an earlier operation was an approval by somebody else that was recorded as the first, and the row names both |
| PayoutDesk.NeverPaidAfter | backend/domain/payout.js:62-87 | over every run, a payout is not paid after it was rejected while pending or hit by a bulk rejection, nor while the last word on its owner's identity check is not an approval |
| PayoutDesk.PaymentStaysAboveStart | backend/domain/payoutEligibility.js:172-186 | a payment is made from an active funded account with no trade open, no order resting and an approved owner, takes the amount, leaves at least the starting balance, touches no other account |
| PayoutDesk.DeskConserves | backend/domain/payout.js:148-158 | the governing invariant holds on every account, whatever the desk does |
| PayoutDesk.AccountsRun | backend/domain/payout.js:148-168 | over every run of the desk each account goes through exactly its own events and one debit for each payment from it |
| PayoutDesk.SettingIsLastSet | backend/domain/payout.js:101-103 | the threshold in force is the last one set |
| Sweep.SharedCursor.Turn | backend/challengeEngine.ts:1145-1151 | a worker's turn reads and bumps the shared cursor, then takes that index or stops |
| Sweep.EveryIndexOnce | backend/challengeEngine.ts:1144-1158 | for every interleaving, thrown errors included, indices are claimed in order and once, and when all workers stopped every index was processed exactly once |
| Sweep.BoundedConcurrency | backend/challengeEngine.ts:1144-1158 | at most min(limit, n) accounts are in progress |
| Sweep.SweepTerminates | backend/challengeEngine.ts:1144-1158 | no schedule is longer than two steps an account and one a worker, exactly those stop every worker, and a worker that has not stopped can move |
| Ranking.SortRefinesRank | backend/competitionEngine.ts:273-303 | position p of the stable sort has rank p + 1 in the independent definition |
| Ranking.RankOrders | backend/competitionEngine.ts:273-277 | ranks compare exactly as the reference order; no two rows share one |
| Ranking.RanksAreOneToN | backend/competitionEngine.ts:279-303 | each rank from 1 to n is given to exactly one row |
| Ranking.RankByUsdIff | backend/competitionEngine.ts:273-277 | by profit the larger gain ranks first, equal gains as they are read |
| Ranking.RankByPctIff | backend/competitionEngine.ts:273-277 | by percentage the larger gain in percent of the start, to the nearest hundredth, ranks first, then the larger gain, then the order of reading |
| Ranking.RaisingNeverWorsens | backend/routes/adminCompetitions.js:294-307 | raising one balance never worsens its rank, even if the rows are read in another order afterwards |
| Ranking.PairAgreesIff | backend/competitionEngine.ts:273-277 | two rows rank alike in two read orders if and only if they do not tie or are read in the same order both times |
| Ranking.RowOrderIrrelevantWithoutTies | backend/competitionEngine.ts:253-277 | without ties the ranks do not depend on the order the rows are read in |
| Ranking.TiesDependOnRowOrder | backend/competitionEngine.ts:273-277 | exchanging two tied rows in the read order changes at least one rank |
| Competitions.EveryRunIsSound | backend/competitionEngine.ts:135-432 | over every series of ticks crashing before any write, joins, account events and admin actions: each trade counted exactly once in its balance, at most one voucher an entry, codes unique, none before completion, ranks exactly 1..n once completed |
| Competitions.PhaseMovesForward | backend/competitionEngine.ts:382-432 | the phase moves only forward, completed and cancelled are final, a completed competition is untouched by ticks |
| Competitions.VouchersNowOrNever | backend/competitionEngine.ts:396-402 | once completed, no later event issues a voucher |
| Finalisation.RetryConverges | backend/competitionEngine.ts:382-432 | with the same prices, row orders, lock-outs and codes in every tick and no event in between: after any number of ticks crashed before completion, the first that goes through leaves exactly what an uncrashed tick would have left |
| Retries.RetriesConverge | backend/competitionEngine.ts:382-432 | with other prices, row orders, lock-outs and codes in every tick: once one goes through, each account that was competing and had not failed is as the first closing that reached it without failing left it, exactly these entries and those ranked before are ranked, by those balances, and vouchers went to the winners for whom the last tick found a free code |
| Retries.TickAccounts | backend/competitionEngine.ts:382-394 | whatever becomes of a tick, the accounts it got to went through their closing transaction and the others were left alone |
| Retries.ThroughIsFirst | backend/competitionEngine.ts:174-239 | an account put through any number of closings under any circumstances ends as the first one that did not fail left it |
| Breaches.TickMarks | backend/competitionEngine.ts:150-170 | a tick past its second write has disqualified every entry still competing on a failed account, and leaves whoever is out unclosed, unranked and unserved before whichever write it crashes |
| Breaches.TickLeaves | backend/competitionEngine.ts:150-170 | a tick that closes nothing disqualifies exactly those, and none before its second write |
| Breaches.RankedIff | backend/competitionEngine.ts:248-303 | after a closing that goes through exactly those are ranked who were ranked, or were competing on an account that had not failed |
| Breaches.OutStaysOut | backend/competitionEngine.ts:313-378 | over every run a disqualified or withdrawn entry stays so, keeps its rank and gets no voucher |
| Breaches.BreachNeverWins | backend/competitionEngine.ts:150-170 | so an entrant whose account failed is disqualified by the first tick that commits the marking and never gets a voucher |
| Breaches.StartsAndCloses | backend/competitionEngine.ts:139-149 | an upcoming competition whose time has come starts with the first write of a tick; a tick that goes through completes it exactly when its end has come too |
| Breaches.TakenOutByTwoWrites | backend/routes/adminCompetitions.js:233-262 | disqualifying, or withdrawing a bot, moves the entry with the first write and its account with the second, and nothing else |
| Breaches.HalfTakenOut | backend/routes/adminCompetitions.js:247-254 | a crash between the two leaves an account that no tick ever closes |
| Breaches.CancelledByThreeWrites | backend/routes/adminCompetitions.js:205-225 | a cancellation, before whichever of its writes it crashes, moves the phase, then the competing entries, then the active accounts |
| Breaches.JoinsLevel | backend/utils/competitions.js:200-240 | a joining entry starts competing at its starting balance with nothing traded, booked, claimed or ranked |
| Breaches.AccountEventMoves | backend/competitionEngine.ts:130-137 | what happens to an account outside the competition engine happens to that account alone |
| Retries.EndsAsUninterruptedIff | backend/competitionEngine.ts:174-239 | against a closing that goes through at once, such as the first try uncrashed: an account ends the same if and only if it was not competing, or all closings that reached it failed as that one does, or the first that did not puts the same results on its open trades |
| Tournaments.RetryMixesPrices | backend/competitionEngine.ts:382-394 | two entrants with the same trade, a crash after the first account and a retry at another price: they end apart |
| Tournaments.AtOnceTheyEndEqual | backend/competitionEngine.ts:382-394 | at either price, in one go, they end equal |
| Finalisation.ClosingTick | backend/competitionEngine.ts:382-410 | an uncrashed closing tick freezes exactly the competing accounts, and serves every winner unless all five codes are taken, and nobody else |
| Finalisation.StandingsRanks | backend/competitionEngine.ts:248-303 | each entry's stored rank and profit are those of the reference order over the closed accounts |
| Finalisation.FreezeBooksOnce | backend/competitionEngine.ts:174-239 | a closing transaction does nothing or settles everything with the matching balance change, rewrites no settled trade, and is idempotent |
| Finalisation.StaysOpenIff | backend/competitionEngine.ts:232-235 | an account is still active after the closing exactly when its transaction failed, and then no later tick closes it |
| Tournaments.TournamentLeavesAccountOpen | backend/competitionEngine.ts:232-235 | a concrete competition that completes with its ranked account still active for good |
| Finalisation.IssueServes | backend/competitionEngine.ts:337-378 | vouchers go to winners without one, and are withheld only when all five codes are taken |
| LostVouchers.TickExact | backend/competitionEngine.ts:382-402 | a tick crashed after k writes leaves the competition running below 3 + closed accounts + board lines, and from there on the final standings with one voucher for each further write |
| LostVouchers.ServedMeans | backend/competitionEngine.ts:313-378 | the vouchers counted there go to exactly the winners for whom one of five codes is free, one each |
| LostVouchers.VoucherLostIff | backend/competitionEngine.ts:396-402 | the winner of voucher i never gets one, whatever events follow, if and only if the tick crashed after the status change and before that write |
| LostVouchers.SomeVoucherLostIff | backend/competitionEngine.ts:396-402 | some servable winner loses the voucher for good if and only if the tick crashed between the status change and the last voucher |
| Tournaments.TournamentLosesItsVoucher | backend/competitionEngine.ts:396-402 | a concrete competition with one winner and the crash that loses the voucher |
| Corrections.RerankUnchanged | backend/routes/adminCompetitions.js:304-306 | without ties, re-ranking what is up to date writes what is there, whatever orders the rows are read in |
| Corrections.RerankIsDeterminedIff | backend/routes/adminCompetitions.js:304-306 | what a re-rank writes is the same for any two read orders if and only if no two rankable entries tie |
| Corrections.ClosingTickIsUpToDate | backend/competitionEngine.ts:382-394 | a closing tick that goes through leaves the ranks up to date for the order it read |
| Corrections.CorrectionReranks | backend/routes/adminCompetitions.js:294-307 | after a correction the ranks are up to date for the order it read, over the same rows with one balance moved |
| Corrections.CorrectionBooks | backend/routes/adminCompetitions.js:263-325 | a correction of a running or completed competition books one row on one account and moves no status; before completion no rank; any other changes nothing |
| Corrections.CreditNeverWorsens | backend/routes/adminCompetitions.js:294-307 | a credit never worsens the corrected entry's rank, in whatever orders the rows are read before and after |
| Corrections.CreditReordersOthersIff | backend/routes/adminCompetitions.js:294-307 | a correction leaves two other entries as they stood to each other if and only if they do not tie or are read in the same order both times |
| Tournaments.CorrectionReordersTied | backend/routes/adminCompetitions.js:294-307 | three tied entries: a credit to the third swaps the ranks of the other two |
| CompetitionEngine.Tables.CloseAndFreezeAccount | backend/competitionEngine.ts:174-239 | the locked transaction commits the whole liquidation or leaves the account as it was |
| CompetitionEngine.Tables.RankEntries | backend/competitionEngine.ts:253-277 | the rows read, sorted and numbered are the specified board |
| CompetitionEngine.Tables.PersistRanking | backend/competitionEngine.ts:279-303 | the rank-writing loop, one committed update a line, up to the crash |
| CompetitionEngine.Tables.IssuePrizeVouchers | backend/competitionEngine.ts:313-378 | the voucher loop with its existing-voucher check and five attempts, up to the write at which it ends |
| CompetitionEngine.Tables.RunCompetitionEngine | backend/competitionEngine.ts:382-432 | a tick with a crash before any of its writes is the specified tick |
| CompetitionEngine.Tables.CorrectBalance | backend/routes/adminCompetitions.js:263-325 | refuses a zero amount or a competition not running or completed; otherwise ledger row and re-rank together |
| Slugs.SlugIsWellFormed | backend/routes/adminCompetitions.js:15-21 | a slug is words of letters and digits with single dashes between, and no letter or digit is lost, added or moved |
| Slugs.SlugKeepsWords | backend/routes/adminCompetitions.js:15-21 | the words of a slug are the words of the title in small letters, none joined and none split |
| Slugs.Alphabet | backend/routes/adminCompetitions.js:15-21 | capitals become their small letters, nothing else changes, and words are of small letters and digits |
| Slugs.SlugsAreTheFixedPoints | backend/routes/adminCompetitions.js:15-21 | slugs are exactly the strings slugify leaves alone; it is idempotent |
| HourlyRollup.SummaryIsUnique | backend/priceFeed.ts:1541-1552 | with distinct times there is one open/high/low/close/count |
| HourlyRollup.HourIs | backend/priceFeed.ts:1541-1552 | hours are of 3,600,000 milliseconds and start at their multiples |
| HourlyRollup.FoldIsBatchAggregate | backend/priceFeed.ts:605-623 | upserting every tick of a chronological series is the batch aggregate |
| HourlyRollup.FoldIsSummaryIff | backend/priceFeed.ts:605-623 | upserting ticks in whatever order they arrive is the batch aggregate if and only if the first arrival has the bid of an earliest tick and the last that of a latest; `FoldNeedsOrder` is a pair that misses it |
| HourlyRollup.StoredValuesAreGenuine | backend/priceFeed.ts:588-631 | in every interleaving whose hourly writes land in their tick's hour, each stored price is a bid of that hour and the count is at most one too high |
| HourlyRollup.GenuineIsWithinExtremes | backend/priceFeed.ts:616-621 | hence stored high <= true max and low >= true min |
| HourlyDrift.CountLaw | backend/priceFeed.ts:605-623 | over every run, late writes included, the stored and the true count of an hour differ by the writes into it less the ticks of it stored, both since its last recomputation, less the ticks that recomputation cut off |
| HourlyDrift.OvercountsIff | backend/priceFeed.ts:616-621 | over every run an hour counts too many ticks if and only if since its last recomputation more writes went into it than ticks of it were stored, by more than were cut off |
| HourlyDrift.PromptOvercountsIff | backend/priceFeed.ts:1535-1566 | while writes land in the hour of their tick: if and only if the last recomputation of the hour saw all of it and more of its ticks were written since than stored; then the count is one too high and that sync had found a tick between its two writes |
| HourlyDrift.NothingPendingNoOvercount | backend/priceFeed.ts:1535-1566 | an hour whose last sync found none of its ticks between its two writes never counts too many |
| HourlyDrift.NoSyncNoOvercount | backend/priceFeed.ts:616-621 | an hour that was never recomputed never counts too many |
| HourlyDrift.OvertakenCountsTwice | backend/priceFeed.ts:1535-1566 | a run from the empty store, each write in its hour, after which one tick counts as two |
| HourlyDrift.ThrottledMakesUp | backend/priceFeed.ts:588-602 | the same run one throttled tick later: overtaken, and the count is right |
| HourlyDrift.ExtremesBeyondIff | backend/priceFeed.ts:605-623 | over every run the stored high is above all ticks of the hour if and only if such a bid was written into it since its last recomputation; the low alike |
| HourlyDrift.LateWriteRaisesHigh | backend/priceFeed.ts:605-609 | a run from the empty store in which a late write leaves a high above the only tick of the hour |
| HourlyDrift.LateWriteIff | backend/priceFeed.ts:605-609 | a write keeps a genuine bucket genuine, or starts a genuine one, exactly when some tick of the hour it lands in has the bid it writes |
| HourlyRollup.SyncIsExactIff | backend/priceFeed.ts:1535-1566 | right after a sync an hour is exact if and only if the cutoff does not cut into its ticks, whatever was stored before |
| HourlyRollup.SyncResultExists | backend/priceFeed.ts:1535-1566 | a sync can always run: every hour with a tick since the cutoff has an aggregate |
| HourlyRollup.SyncFromBoundaryIsExact | backend/priceFeed.ts:1535-1566 | a cutoff on an hour boundary leaves every hour with a tick since it exact |
| HourlyRollup.SyncLeavesOlderHours | backend/priceFeed.ts:1535-1566 | an hour without a tick since the cutoff keeps what it had |
| HourlyThrottle.HourlyWriter.UpsertHourlyTicks | backend/priceFeed.ts:588-602 | starts a write exactly when there are rows, none is running and the interval has passed |
| HourlyThrottle.HourlyWriter.Settled | backend/priceFeed.ts:623-628 | a failure gives the stamp back, either ending clears the promise |
| HourlyThrottle.CallStartsIff | backend/priceFeed.ts:588-602 | a call takes the stamp exactly when it brings rows, none is running and the interval has passed, and a failure undoes it |
| HourlyThrottle.WritesAreSpaced | backend/priceFeed.ts:588-631 | over every series of calls, successes and failures, successive successful writes start at least the interval apart and failures leave no trace |
| HourlyThrottle.OneWriteInFlight | backend/priceFeed.ts:588-631 | over every series of calls and endings at most one write has started and not ended |
| HourlyThrottle.FailureRetriesAtOnce | backend/priceFeed.ts:598-628 | after a failure the next call is admitted at once, after a success only past the interval |
| PriceHistory.TimestampUnits | backend/priceFeed.ts:459-463 | seconds and milliseconds of the same instant parse alike |
| PriceHistory.TimestampNone | backend/priceFeed.ts:459-463 | only a positive number is a time |
| PriceHistory.QuoteOfBar | backend/priceFeed.ts:502-526 | a quote is one of a bar's exactly when it bids one of its prices at its place in the minute and asks the bar's spread more, or the instrument's where the bar has none |
| PriceHistory.RolledUpMeans | backend/priceFeed.ts:1541-1552 | the roll-up of bars is first open, highest high, lowest low, last close, four ticks a bar |
| PriceHistory.BarRoundTrip | backend/priceFeed.ts:502-526 | expanding any well-formed series of bars and rolling it up by hour gives each hour's first open, max high, min low and last close |
| Backfill.HistoryTable.Bootstrap | backend/priceFeed.ts:1425-1482 | given the statistics read earlier, inserts the specified ticks in one transaction into the table as it is then, or nothing when it fails |
| Backfill.HistoryTable.InsertInSlices | backend/priceFeed.ts:1471-1482 | the slices insert the whole list exactly once and in order, or nothing |
| Backfill.InsertedIsOlder | backend/priceFeed.ts:1457-1467 | every inserted tick is inside the lookback and strictly older than every one the statistics saw |
| Backfill.InsertedIff | backend/priceFeed.ts:1444-1467 | exactly the quotes of usable bars inside the lookback and more than a minute older than everything the query saw are inserted |
| Backfill.EarlyExitSkipsNothing | backend/priceFeed.ts:1444-1450 | an instrument skipped for its enough and old enough rows has no bar that would have been inserted |
| Backfill.OlderThanLiveIff | backend/priceFeed.ts:1425-1467 | for every export the inserted ticks are older than the live ones stored since the query if and only if there are none of those or the query found a row |
| Backfill.RerunInsertsNothing | backend/priceFeed.ts:1425-1482 | a second run over the same export inserts nothing, whatever live ticks came between the query and the transaction of the first and after it |
| SharedFeed.FeedProcess.Fetch | backend/priceFeed.ts:757-760 | joins the running fetch or starts one |
| SharedFeed.FeedProcess.OnStat | backend/priceFeed.ts:782-815 | answers missing or unchanged, or keeps the signature taken before the read |
| SharedFeed.FeedProcess.OnPersisted | backend/priceFeed.ts:827-832 | the cache is replaced only after persisting |
| SharedFeed.UnchangedIsCurrentIff | backend/priceFeed.ts:797-832 | over every interleaving with rewrites each "unchanged" answer is the parse of the file as it is then, if and only if versions that share a signature and those between them read alike or have no rows |
| SharedFeed.UnchangedIsCurrent | backend/priceFeed.ts:797-832 | signatures that are distinct per version are enough |
| SharedFeed.AtMostOneInFlight | backend/priceFeed.ts:757-892 | at most one fetch has started and not answered |
| Correlation.CauchySchwarz | backend/routes/adminAnalytics.js:336-351 | num^2 <= denomA * denomB for series of any length |
| Correlation.PearsonBounded | backend/routes/adminAnalytics.js:336-351 | the coefficient lies in [-1, 1] |
| Correlation.PearsonCorrelation | backend/routes/adminAnalytics.js:336-351 | the loops compute it, and null exactly under three days |
| Coefficients.CentredSums | backend/routes/adminAnalytics.js:336-351 | n times each centred sum is n times the plain one less the product of the two sums |
| Coefficients.ShiftIrrelevant | backend/routes/adminAnalytics.js:336-351 | a constant added to one series does not change the coefficient |
| Coefficients.SelfAndNegation | backend/routes/adminAnalytics.js:336-351 | a series that is not constant has coefficient 1 with itself and -1 with its negation |
| Coefficients.ConstantIsZero | backend/routes/adminAnalytics.js:336-351 | a constant series has coefficient 0 with every other |
| Correlation.CellIs | backend/routes/adminAnalytics.js:470-482 | a cell is the coefficient to the nearest hundredth, and 0 below three common days |
| Correlation.DailyPnl | backend/routes/adminAnalytics.js:441-447 | each day with a trade appears once, with the sum of its trades |
| Correlation.DaySumAdds | backend/routes/adminAnalytics.js:441-447 | a trade counts on its day alone and the sums of two lists add up |
| Correlation.CellIsSymmetric | backend/routes/adminAnalytics.js:470-482 | both traders get the same number although each lists the common days in its own order |
| Correlation.MatrixIsSymmetricAndBounded | backend/routes/adminAnalytics.js:470-482 | the matrix is symmetric, within [-1, 1], with ones on the diagonal |
| Correlation.CopyTradingFlags | backend/routes/adminAnalytics.js:484-491 | exactly the pairs at or above the threshold are flagged, once each |
| TraderStats.MaxStreaks | backend/routes/adminAnalytics.js:36-41 | the counters are the lengths of the longest runs of winning and of losing trades |

## Left out

- Routing, authentication, sockets, email, certificates, violation and audit records, the feed circuit breaker: no arithmetic or state of the properties here.
- Competitions.Next: joins, account events and admin actions that race with the writes of a running tick are steps between ticks; two ticks of the competition engine never overlap, as its scheduler holds an advisory lock around each.
- CompetitionEngine.Tables.IssuePrizeVouchers: an insert error other than a code collision, which ends the issue at that write while the engine goes on, appears as a crash at that write; what is stored is the same.
- Finalisation.RetryConverges: the same circumstances in every try and no event in between; `Retries` drops the first.
- Retries.RetriesConverge: nothing but ticks between the first try and the one that goes through; what a tick does to any state other events left behind is in `TickAccounts` and `ClosingTickIsUpToDate`.
- StaleCopies.NextPassFailsIff: two passes under one model, neither decided by the phase end or by inactivity.
- ScalingRuns.MultiplierNeverFallsIff: one plan for the whole run; an account moved to another model can be assigned less at any claim.
- Concurrency inside Postgres: a transaction is one step; FOR UPDATE SKIP LOCKED is "no effect while another holder is active".
- Account references in the desk and competition models: each owns its accounts as values, so two desks over one account are not modelled.
- calculatePnL: any signed cents value, no price, or an error; trading-day and consistency queries are inputs of a pass.
- Partial closes, and the tick engine's in-memory peaks and their bulk flush.
- Rounding of binary floating point; arithmetic is exact, with half-up cent rounding where the code or the column rounds. The locked floor is kept unrounded, and negative half cents are not modelled.
- Unknown or empty status strings: changeStatus takes one of the seven statuses or none.
- The throttle on current prices has the shape of the hourly one; feed heartbeats are not modelled.
- Several instruments: roll-up, backfill and throttle are per instrument; the batched statements do not mix them.
- Price-history pruning: a sync after a partial prune recomputes an hour from what is left.
- Torn reads of the market data file: a read yields the content of one version.
- Voucher redemption, coupons, order pricing, bots' simulated results, the referral season engine, rapid- and opposing-trade detection.
- Titles outside ASCII in Slugs: case folding and white space beyond ASCII are not modelled.
- Trade frequency, spike detection, histograms and the other aggregates of the analytics routes: single-pass counts.
