# Augmented Finance: reserve accounting, deployment registry and two parsers

This project models the arithmetic that the lending-pool scenarios of Augmented Finance expect of the
protocol, and proves what it promises. It also models the incremental deployment test with its registry
of deployed contracts, the parser of batched configuration commands and the bytecode linker.

`dafny verify dfyconfig.toml` checks everything.

| file | contents |
|---|---|
| `Bounds.dfy` | the lesser and the greater of two numbers |
| `RayMath.dfy` | fixed-point operations with half-up rounding, truncating division |
| `Interest.dfy` | linear interest and compounded interest cut after the third binomial term |
| `RateModel.dfy` | utilization, two-slope rates, overall rate, depositors' yield |
| `Accounting.dfy` | reserve and user records, indexes, balances, average rates |
| `Ledgers.dfy` | what the average stable rate and the summed variable debt say about single loans |
| `Transitions.dfy` | the effect of each action on the reserve and on the user, as functions |
| `Calculations.dfy` | the same records filled field by field, proved equal to the transitions |
| `Soundness.dfy` | what every step and every run keeps for the reserve |
| `Pool.dfy` | the reserve with all of its users: conservation of shares and of money |
| `StableTwin.dfy` | the only stable borrower's loan and the reserve's stable aggregates, over every run |
| `Exits.dfy` | whole exits, round trips, swaps, and the exact conditions where the books can break |
| `LifeCycle.dfy` | a whole life of a pool, from empty to empty, for all amounts |
| `ContractMatch.dfy` | the contracts' own formulas beside the expected ones |
| `Backing.dfy` | what stands behind the depositors' claims, over every run |
| `Effects.dfy` | what each action does, in its amount, the accrued debts and the contracts' rates |
| `Breakage.dfy` | reachable pools in which an expected record goes wrong |
| `Registry.dfy`, `IncrementalDeploy.dfy` | the deployment registry and the cycle-by-cycle test |
| `CallCommand.dfy` | the command parser |
| `LinkBytecode.dfy` | the bytecode linker |

## How the model reads the source

Numbers are unbounded integers, as bignumber.js with no decimal places has them
(`test-suites/test-augmented/scenario.spec.ts:22`): every division truncates toward zero. The pool demands
of `Soundness.Demanded` follow the contracts (`contracts/protocol/libraries/logic/ValidationLogic.sol:56-66`,
`:134`, `:249-252`): a withdrawal or a borrow of no more than is there, a positive amount borrowed, a debt to
swap. The expected records need more, because unlike the contracts they neither clamp a swap or a rebalance
nor cap a repayment at the debt (`contracts/protocol/lendingpool/LendingPool.sol:157-161`):
`Soundness.Bookable` is exactly what keeps the reserve's record without a negative part
(`Soundness.StepSoundIff`), and `Pool.OnLedger` exactly what the users' records need besides
(`Pool.TurnConsistentIff`).

A repayment may be paid for by another user, whose own record the scenarios do not read back: in a pool the
amount then leaves that user's wallet.

A run is a sequence of steps, each mined at `tx` and observed at `now`; only a borrow is observed later than
it is mined. Where an expected record leaves a timestamp unfilled, the next step reads it as `tx`: the last
update always, the date of the stable debt when the stable principal is rewritten.

What the code does and its names do not suggest is kept as it is, and the exact consequence is proved:

- a deposit adds to the recorded total without re-accruing debt (`Exits.DepositBalanceIff`,
  `Exits.DepositUtilizationIff`, reached in `Breakage.DepositOverUtilizes`);
- a deposit overwrites the user's stable principal with the variable debt (`Exits.SwapCanUnderflow`,
  `StableTwin.TwinStepIff`, reached in `Breakage.DepositInventsLoan`);
- a variable borrow starts the user's scaled debt from the reserve's (`Pool.TurnConsistentIff`, reached in
  `Breakage.SecondBorrowerMisbooked`);
- a repayment is not capped at the debt (`Soundness.StepSoundIff`, reached in `Breakage.RepaymentNotCapped`);
- a swap out of a stable rate has none of the repayment's clamps (`Soundness.SwapSoundIff`);
- the rebalance average counts the moved debt a billion times (`StableTwin.RebalanceMixesUnits`), and can
  turn negative (`Soundness.RebalanceCanUnderflow`);
- the contract's repayment erases a debt that the expected one keeps (`ContractMatch.BurnMatchesIff`);
- every replay of the first deployment step registers a hidden name again, so an unchanged instance count
  does not mean an unchanged registry (`IncrementalDeploy.ReplayNamesHidden`);
- the contract stops accruing variable debt when depositors earn no rate, the expected values do not
  (`ContractMatch.IndexesMatchIff`, reached in `Breakage.AllInterestKept`);
- a doubled or leading command separator is taken for a command word (`CallCommand.ParsesGroupsIff`).

## Model

| member | source | states |
|---|---|---|
| RayMath.RayMulRounds | test-suites/test-augmented/helpers/utils/math.ts:53-55 | For a non-negative product, ray multiplication is within half a unit of the exact product, ties upwards. |
| RayMath.RayDivRounds | test-suites/test-augmented/helpers/utils/math.ts:57-65 | Ray division by a positive number is within half a unit of the exact quotient, ties upwards. |
| RayMath.PercentMulRounds | test-suites/test-augmented/helpers/utils/math.ts:81-86 | Percentage multiplication is within half a unit of the exact product. |
| RayMath.RayDivOfRayMul | test-suites/test-augmented/helpers/utils/math.ts:53-65 | Scaling up by any index of at least one ray and scaling back returns the same number exactly. |
| RayMath.RayMulOfRayDiv | test-suites/test-augmented/helpers/utils/math.ts:53-65 | The opposite trip is off by at most (index + ray) / (2 ray). |
| RayMath.RayToWadOfWadToRay | test-suites/test-augmented/helpers/utils/math.ts:67-75 | Widening a wad to a ray and narrowing it again is the identity. |
| RayMath.RayToWadRounds | test-suites/test-augmented/helpers/utils/math.ts:67-71 | Narrowing a non-negative ray to a wad is within half a unit, ties upwards. |
| RayMath.PercentDivOfPercentMul | test-suites/test-augmented/helpers/utils/math.ts:81-98 | Percentages of at least 100% are undone exactly. |
| Interest.CompoundedIsBinomial | test-suites/test-augmented/helpers/utils/calculations.ts:1193-1223 | The divisions by 2 and by 6 are always exact, also for one and two seconds, so the factor is ray + n p + C(n,2) p2 + C(n,3) p3. |
| Interest.CompoundedAtLeastSimple | test-suites/test-augmented/helpers/utils/calculations.ts:1193-1223 | The factor is at least one ray plus simple interest at the per-second rate. |
| Interest.CompoundedMono | test-suites/test-augmented/helpers/utils/calculations.ts:1193-1223 | More rate or more time never means a smaller factor. |
| Interest.CompoundedBelowExact | test-suites/test-augmented/helpers/utils/calculations.ts:1193-1223 | The factor is at most ray (1 + p/ray)^n plus half a unit per pair and x/2 + 1/2 per triple of seconds: the binomial tail is cut, never added. |
| Interest.SplitCompounded | test-suites/test-augmented/helpers/utils/calculations.ts:1193-1223 | Accruing m and then n seconds earns at least what m + n seconds earn, up to ray (mn + m C(n,2) + n C(m,2)) / 2 in the product. |
| Interest.SplitLinear | test-suites/test-augmented/helpers/utils/calculations.ts:1178-1191 | The same for linear interest, with one unit of rounding. |
| RateModel.UtilizationBounds | test-suites/test-augmented/helpers/utils/calculations.ts:1315-1327 | A reserve whose total is what it holds plus what it lent has utilization between 0 and one ray. |
| RateModel.UtilizationMono | test-suites/test-augmented/helpers/utils/calculations.ts:1315-1327 | With the amount held fixed, more debt never shows less utilization, roundings included. |
| RateModel.CurveAnchors | test-suites/test-augmented/helpers/utils/calculations.ts:1240-1279 | Both rate curves pass exactly through the base at 0, base + slope1 at the kink and base + slope1 + slope2 at 100%. |
| RateModel.CurveMono | test-suites/test-augmented/helpers/utils/calculations.ts:1247-1279 | Both curves are monotone in utilization, across the two branches as well as inside each. |
| RateModel.CurveRange | test-suites/test-augmented/helpers/utils/calculations.ts:1240-1279 | Up to full utilization both rates stay between the base and the base plus both slopes. |
| RateModel.OverallIsWeightedMean | test-suites/test-augmented/helpers/utils/calculations.ts:1294-1313 | The overall rate times the debt differs from what the two debts pay by at most 10^18 + debt / 2. |
| RateModel.DepositorsPaidFromBorrowers | test-suites/test-augmented/helpers/utils/calculations.ts:1281-1327 | Whatever total the utilization is taken of, the yield promised on that total never exceeds the kept share of what borrowers pay, beyond an explicit rounding term. |
| Accounting.IncomeIsNextIndex | test-suites/test-augmented/helpers/utils/calculations.ts:1329-1349 | Income shown to depositors is the index the next action books, at all later times, if and only if utilization is not 0 or the liquidity rate is 0. |
| Accounting.DebtIsNextIndex | test-suites/test-augmented/helpers/utils/calculations.ts:1351-1371 | A user debt is the same whether the borrow rate or the total debt decides the short cut, for a user holding nothing when nothing is owed. |
| Accounting.StableFastPathIff | test-suites/test-augmented/helpers/utils/calculations.ts:1155-1176 | The fast stable balance equals the total-stable formula for every principal if and only if the loan has a date, no time has passed since the epoch, or the rate is below one unit per second. |
| Accounting.IndexesGrow | test-suites/test-augmented/helpers/utils/calculations.ts:1385-1413 | For non-negative rates and indexes of at least one ray, neither index falls. |
| Ledgers.AddingLoanKeepsAverage | test-suites/test-augmented/helpers/utils/calculations.ts:1102-1118 | Adding a loan loses less than one unit of weighted rate per unit of debt, and the average stays between the two rates. |
| Ledgers.RemovingLoanRestoresAverage | test-suites/test-augmented/helpers/utils/calculations.ts:1102-1118 | Removing the same loan lands between the old average less 1 less ceil(amount / total) and the old average, once clamped as a repayment clamps it. |
| Ledgers.RemovingAtAverageIsExact | test-suites/test-augmented/helpers/utils/calculations.ts:1102-1118 | Removing part of the debt at the average rate leaves the average exactly. |
| Ledgers.SumOfParts | test-suites/test-augmented/helpers/utils/calculations.ts:1430-1435 | The debts of any n users differ from the debt on their summed scaled balances by at most (n + 1) / 2. |
| Calculations.CalcExpectedInterestRates | test-suites/test-augmented/helpers/utils/calculations.ts:1225-1292 | The branch-by-branch computation yields the three rates of the two-slope model. |
| Calculations.CalcExpectedReserveDataAfterDeposit | test-suites/test-augmented/helpers/utils/calculations.ts:152-210 | The record filled field by field is the deposit transition, completed with its timestamps. |
| Calculations.CalcExpectedReserveDataAfterWithdraw | test-suites/test-augmented/helpers/utils/calculations.ts:212-281 | The same for a withdrawal, all or part. |
| Calculations.CalcExpectedReserveDataAfterBorrow | test-suites/test-augmented/helpers/utils/calculations.ts:283-457 | The same for a borrow: rates settled when mined, debts and utilization seen later. |
| Calculations.CalcExpectedReserveDataAfterRepay | test-suites/test-augmented/helpers/utils/calculations.ts:459-591 | The same for a repayment, including both clamps of the stable branch. |
| Calculations.CalcExpectedReserveDataAfterSwapRateMode | test-suites/test-augmented/helpers/utils/calculations.ts:770-880 | The same for a swap of rate mode in either direction. |
| Calculations.CalcExpectedReserveDataAfterStableRateRebalance | test-suites/test-augmented/helpers/utils/calculations.ts:948-1031 | The same for a rebalance, average taken out and put back. |
| Calculations.CalcExpectedUserDataAfterDeposit | test-suites/test-augmented/helpers/utils/calculations.ts:15-82 | The user record after a deposit, with the principal that the chained assignment overwrites. |
| Calculations.CalcExpectedUserDataAfterWithdraw | test-suites/test-augmented/helpers/utils/calculations.ts:84-150 | The user record after a withdrawal, with the collateral flag of each branch. |
| Calculations.CalcExpectedUserDataAfterBorrow | test-suites/test-augmented/helpers/utils/calculations.ts:593-672 | The user record after a borrow, counted from the reserve's scaled debt when variable. |
| Calculations.CalcExpectedUserDataAfterRepay | test-suites/test-augmented/helpers/utils/calculations.ts:674-755 | The user record after a repayment, with principal and current stable debt exchanged when variable. |
| Calculations.CalcExpectedUserDataAfterSwapRateMode | test-suites/test-augmented/helpers/utils/calculations.ts:882-946 | The user record after a swap of rate mode. |
| Calculations.CalcExpectedUserDataAfterStableRateRebalance | test-suites/test-augmented/helpers/utils/calculations.ts:1033-1077 | The user record after a rebalance. |
| Soundness.RepaidShareFits | test-suites/test-augmented/helpers/utils/calculations.ts:546-548 | A variable repayment within the user's debt burns no more scaled debt than the user holds. |
| Soundness.RebalancedNonNegativeIff | test-suites/test-augmented/helpers/utils/calculations.ts:1120-1136 | The mixed average is not negative if and only if the divisor is 0 or the rounded weights stay within one divisor of zero on its side, for any signs of total, change and average. |
| Soundness.RebalanceSoundIff | test-suites/test-augmented/helpers/utils/calculations.ts:988-1013 | A rebalance leaves a sound record if and only if what the other loans weigh at the average left without the loan, plus the loan at its new rate, is not below zero by more than rounding hides. |
| Soundness.RebalanceFitsUsually | test-suites/test-augmented/helpers/utils/calculations.ts:994-1007 | That always holds for the only stable loan, for a user without one, and for a loan that, counted 10^9 times, outweighs the total in amount and in weighted rate. |
| Soundness.RebalanceCanUnderflow | test-suites/test-augmented/helpers/utils/calculations.ts:994-1007 | Under every strategy, moving one unit lent at 10% to 3% in a sound reserve of two billion units at 3% leaves a negative average rate. |
| Soundness.SwapSoundIff | test-suites/test-augmented/helpers/utils/calculations.ts:812-831 | Swapping a stable loan out leaves a sound record if and only if the loan fits in the reserve's total and its weighted rate in the total's: unlike the repayment, the swap has no clamps. |
| Soundness.BurnsWithinIff | test-suites/test-augmented/helpers/utils/calculations.ts:546-548 | A repayment burns no more than a given scaled debt if and only if half the index plus the amount in rays stays below one more than that debt on the index: a test on the amount. |
| Soundness.StepSound | test-suites/test-augmented/helpers/utils/calculations.ts:152-1031 | Every step that the pool demands and the records can book, by any user, keeps the books non-negative, both indexes at least a ray and not lower, no yield without utilization; all but a deposit leave a balanced sheet utilized at most to 100%. |
| Soundness.StepSoundIff | test-suites/test-augmented/helpers/utils/calculations.ts:152-1031 | Of all steps that the pool demands nothing more of, repayments of any size included, exactly these leave a sound record: variable repayments that burn no more than is owed in all, swaps and rebalances that fit, and every other action. |
| Soundness.RunSound | test-suites/test-augmented/helpers/utils/calculations.ts:1385-1413 | Over every admissible run, by any users in any order, the reserve stays sound and neither index ever falls. |
| Soundness.StepSolvent | test-suites/test-augmented/helpers/utils/calculations.ts:1281-1327 | Every deposit, withdrawal, borrow, repayment, swap and rebalance settles at rates whose yield on the recorded total is covered by what the borrowers pay; a borrow seen later still has those rates. |
| Soundness.RunSolvent | test-suites/test-augmented/helpers/utils/calculations.ts:1281-1327 | The same at every step of every admissible run, by any users in any order. |
| Pool.StepMovesTogether | test-suites/test-augmented/helpers/utils/calculations.ts:283-946 | The separately written user and reserve sides of a step add or burn the same scaled debt, show both debts at one index, and move money one for one between wallet and reserve, except for exactly what somebody else repays. |
| Pool.VariableBorrowLedgerIff | test-suites/test-augmented/helpers/utils/calculations.ts:633-635 | A variable borrow changes both scaled debts alike if and only if the user owes all of the reserve's debt. |
| Pool.TurnConsistentIff | test-suites/test-augmented/helpers/utils/calculations.ts:15-1077 | Of all turns that the pool demands nothing more of, a pool stays consistent in exactly those whose step can be booked, whose variable borrow is by someone who owes all of the debt, and whose repayment is within the user's debt. |
| Pool.UserStaysInOrderIff | test-suites/test-augmented/helpers/utils/calculations.ts:15-1077 | Of the steps allowed, exactly a repayment beyond the user's debt leaves a negative part or a future date in that user's record. |
| Pool.TurnKeepsConsistent | test-suites/test-augmented/helpers/utils/calculations.ts:15-1077 | One turn of any user, repayments on behalf of others included, keeps the sum of the users' scaled debts equal to the reserve's and the total of money constant. |
| Pool.PlayKeepsConsistent | test-suites/test-augmented/helpers/utils/calculations.ts:15-1077 | The same over every playable run of any number of users. |
| Pool.PlayConsistentIff | test-suites/test-augmented/helpers/utils/calculations.ts:15-1077 | Over every run of turns that the pool executes, the records stay consistent throughout if and only if each step can be booked, no variable borrow is by someone who owes less than all, and no repayment exceeds the user's debt. |
| Pool.SoleBorrowerMirrorsReserve | test-suites/test-augmented/helpers/utils/calculations.ts:403-412 | With one user no restriction on borrowing is needed: after every action the user owes the reserve's whole scaled debt and is shown its whole variable debt, if a mere collateral switch found it so. |
| Pool.SoleBorrowerRun | test-suites/test-augmented/helpers/utils/calculations.ts:403-412 | Over every run of timely and allowed turns of one user who repays no more than is owed, with nothing demanded of whose debt it is, the run is playable and the separately written records end owing the same scaled debt and showing the same variable debt. |
| Pool.ShortCutsAgree | test-suites/test-augmented/helpers/utils/calculations.ts:1329-1428 | For every sound reserve and user in it, income shown equals the next liquidity index, the user's debt equals the one on the next borrow index, and a dated stable debt is the same with and without its short cuts. |
| Pool.DebtsAddUp | test-suites/test-augmented/helpers/utils/calculations.ts:1138-1153 | In every reachable pool the users' shown debts add up to the reserve's within (n + 1) / 2. |
| Exits.MaxWithdrawEmpties | test-suites/test-augmented/helpers/utils/calculations.ts:95-145 | Withdrawing everything leaves exactly 0 scaled and shown, pays out the whole balance and ends the collateral use of a user who was shown a balance. |
| Exits.MaxVariableRepayEmpties | test-suites/test-augmented/helpers/utils/calculations.ts:700-733 | Repaying all variable debt never leaves any, and exactly none when observed as it is mined; the reserve drops exactly the user's share. |
| Exits.DepositThenMaxWithdraw | test-suites/test-augmented/helpers/utils/calculations.ts:47-57 | Depositing and withdrawing all at one tick returns the shown balance within (index + 2 ray) / (2 ray), and within (index + ray) / (2 ray) for a new depositor. |
| Exits.SwapToVariableConserves | test-suites/test-augmented/helpers/utils/calculations.ts:803-831 | Swapping to variable leaves available liquidity alone and moves the total debt by at most (index + 2 ray) / (2 ray). |
| Exits.SwapToStableConserves | test-suites/test-augmented/helpers/utils/calculations.ts:832-857 | Swapping to stable releases exactly the user's scaled share and moves the total debt by at most 1. |
| Exits.DepositGap | test-suites/test-augmented/helpers/utils/calculations.ts:161-187 | A deposit leaves the recorded total short by exactly the interest accrued since the record, on top of any earlier gap. |
| Exits.AccruedSince | test-suites/test-augmented/helpers/utils/calculations.ts:1397-1435 | That interest is never negative, none at once or while no debt bears a unit per second, and at least any number of units to which simple interest on either debt has come. |
| Exits.StepUpToDateIff | test-suites/test-augmented/helpers/utils/calculations.ts:564-572 | Every action mined and seen at one tick leaves debts that are up to date, a variable repayment if and only if the stable debt it copies was. |
| Exits.DepositBalanceIff | test-suites/test-augmented/helpers/utils/calculations.ts:161-187 | Deposits at all later times keep a balanced sheet balanced if and only if its debts are those of the last update and none of them bears a unit of interest per second. |
| Exits.DepositUtilizationIff | test-suites/test-augmented/helpers/utils/calculations.ts:161-207 | After a deposit utilization is at most 100% if and only if the debts exceed the un-accrued total by less than rounding hides; up to two rays of liquidity, by nothing. |
| Exits.SwapCanUnderflow | test-suites/test-augmented/helpers/utils/calculations.ts:75-79 | For every sound reserve without stable debt and every variable borrower in it, a deposit at any time followed by a swap to variable at any later time gives a negative stable debt. |
| Exits.DivisorsNeverZero | test-suites/test-augmented/helpers/utils/calculations.ts:1294-1383 | No admissible step divides by zero: not the kink, the indexes, the totals as settled and as seen, nor the weights of an average. |
| Backing.StepBacked | test-suites/test-augmented/helpers/utils/calculations.ts:95-1077 | Every allowed step moves what the reserve holds and is owed, and the acting user's claim on it, alike: up to (both indexes + 4 rays) / (2 rays) and to what a clamped stable repayment forgives. |
| Backing.RunBacked | test-suites/test-augmented/helpers/utils/calculations.ts:15-1077 | Over every playable run the backing of all deposit claims changes only by what time adds between the turns, less what is forgiven, up to those roundings. |
| Effects.SettlesAtContractRates | test-suites/test-augmented/helpers/utils/calculations.ts:1225-1327 | Every action records the contract's utilization of the debts and the total it shows, the contract's stable rate and yield at that utilization, and the two-slope variable rate; a borrow seen later still has all three rates. |
| Effects.DepositEffect | test-suites/test-augmented/helpers/utils/calculations.ts:15-187 | A deposit moves its amount from the wallet to the amount held, to the total and to the balance shown, books its share at the next index, and leaves the debts accrued. |
| Effects.WithdrawEffect | test-suites/test-augmented/helpers/utils/calculations.ts:84-281 | A withdrawal of any amount but the whole pays exactly that amount into the wallet, out of the reserve and off the balance shown, takes its share at the next index, and leaves the debts accrued; the collateral flag falls with the last of the balance. |
| Effects.BorrowEffect | test-suites/test-augmented/helpers/utils/calculations.ts:283-672 | A borrow pays its amount to the wallet, joins it to the accrued stable principals or books its share on the reserve's variable debt, and shows debts and deposit as grown until seen. |
| Effects.BorrowSettles | test-suites/test-augmented/helpers/utils/calculations.ts:339-432 | Its rates follow from a balanced sheet with the accrued debts and the amount; what is seen later is balanced and utilized by the debts grown until then. |
| Effects.StableBorrowAverages | test-suites/test-augmented/helpers/utils/calculations.ts:311-334 | A stable borrow leaves both the reserve's and the user's rate the mean of the accrued loans and the new one at the rate offered before, cut to whole units. |
| Effects.RepayEffect | test-suites/test-augmented/helpers/utils/calculations.ts:459-755 | A repayment of any amount but the whole takes exactly that amount from who pays and adds it to what is held. A stable one lowers both principals by it, erasing the reserve's if nothing or less than nothing is left of it or of its weighted rate; a variable one burns its share on both sides. |
| Effects.RepayAllEffect | test-suites/test-augmented/helpers/utils/calculations.ts:487-733 | A repayment of everything, with either sign, does the same with the debt accrued until then, and clears the user's loan. |
| Effects.SwapToVariableEffect | test-suites/test-augmented/helpers/utils/calculations.ts:803-920 | A swap to variable takes the accrued loan out of the accrued total at its own rate, leaves the mean of the rest, books the share on both sides and clears the loan; no cash moves. |
| Effects.SwapToStableEffect | test-suites/test-augmented/helpers/utils/calculations.ts:832-946 | A swap to stable releases the user's whole share and joins it to the accrued total, at the mean over the recorded total for the reserve and over the accrued loan for the user. |
| Effects.RebalanceEffect | test-suites/test-augmented/helpers/utils/calculations.ts:988-1077 | A rebalance rewrites both stable principals as accrued and dated now, gives the user the reserve's new average, and moves nothing else. |
| Effects.RebalanceAverages | test-suites/test-augmented/helpers/utils/calculations.ts:994-1007 | That average weighs the other loans at the average without the loan and the loan, counted 10^9 times, at the rate offered, up to stated roundings. |
| Effects.RebalanceAdopts | test-suites/test-augmented/helpers/utils/calculations.ts:994-1007 | A rebalance of the only loan, of at least one token, leaves both records exactly the rate offered. |
| LifeCycle.WholeLife | test-suites/test-augmented/helpers/actions.ts:134-516 | For all amounts a fresh pool can play deposit, variable borrow, full repayment and full withdrawal at one tick, and ends with nothing held, nothing owed and the same wallet. |
| Breakage.DepositUnbalances | test-suites/test-augmented/helpers/utils/calculations.ts:161-187 | Reachable from an empty market with a base rate of at least one unit per second: a deposit made once the borrower's simple interest at that rate has come to some units leaves the recorded total short of at least those units. |
| Breakage.DepositOverUtilizes | test-suites/test-augmented/helpers/utils/calculations.ts:190-207 | Reachable from an empty market with a base rate of at least one unit per second: with everything borrowed, a deposit of less than the simple interest at one unit per second shows utilization above 100%, up to two rays of liquidity. |
| Breakage.SecondBorrowerMisbooked | test-suites/test-augmented/helpers/utils/calculations.ts:633-635 | Reachable from an empty market: a second user's allowed variable borrow makes the users owe more scaled debt than the reserve records, by all that the first user owes. |
| Breakage.RepaymentNotCapped | test-suites/test-augmented/helpers/utils/calculations.ts:546-548 | Reachable from an empty market: a variable repayment above the debt, which the pool takes and caps, leaves the expected record with the negative scaled debt of the excess. |
| Breakage.DepositInventsLoan | test-suites/test-augmented/helpers/utils/calculations.ts:75-79 | Reachable from an empty market: a deposit by a variable borrower books a stable principal that the reserve does not have. |
| Breakage.AllInterestKept | contracts/protocol/libraries/logic/ReserveLogic.sol:349-384 | Reachable from an empty market: in a reserve that keeps all its interest the expected indexes part from the contract's. |
| StableTwin.RepayNeverClamped | test-suites/test-augmented/helpers/utils/calculations.ts:516-538 | For the only stable borrower neither clamp fires: the debt drops by what is paid and the average stays. |
| StableTwin.RebalanceAdoptsRateIff | test-suites/test-augmented/helpers/utils/calculations.ts:994-1007 | Rebalancing the only stable loan sets the average to the reserve's stable rate, whatever that is, if and only if the loan is at least one whole token of 18 decimals. |
| StableTwin.RebalanceAdoptsAbout | test-suites/test-augmented/helpers/utils/calculations.ts:994-1007 | A smaller loan adopts the rate within one token over the loan, and half a unit. |
| StableTwin.RebalanceMixesUnits | test-suites/test-augmented/helpers/utils/calculations.ts:1120-1136 | For loans put in and taken out, with a divisor on either side of zero, the rebalance average weighs the recorded rate by the total and the other rate by 10^9 times the change, within a rounding bound. |
| StableTwin.MixedAverageRounds | test-suites/test-augmented/helpers/utils/calculations.ts:1120-1136 | The same bound for any signs of rate, total and change, with one more ray of rounding on either side. |
| StableTwin.TwinStepIff | test-suites/test-augmented/helpers/utils/calculations.ts:60-1077 | A step keeps the only stable borrower's loan equal to the reserve's aggregates in amount, rate and date if and only if: a deposit finds the variable debt equal to the stable principal, a stable repayment is within the debt, a variable one finds no stable interest accrued, a swap to stable finds the user's recorded debt accrued, and the recorded total giving the same rounded average as the accrued one; any other step always does. |
| StableTwin.LoanLost | test-suites/test-augmented/helpers/utils/calculations.ts:68-79 | A deposit by someone with more variable debt than stable principal loses the loan, and so does a variable repayment once a unit of stable interest has accrued. |
| StableTwin.SwapKeepsLoan | test-suites/test-augmented/helpers/utils/calculations.ts:832-857 | A swap to stable keeps the loan when the user's recorded debt has not accrued and either the reserve's has not or the loan joins at the average rate; it loses it when the user's has, or when moved debt times rate difference times accrued interest reaches the product of the two totals. |
| StableTwin.TwinRunIff | test-suites/test-augmented/helpers/utils/calculations.ts:152-1077 | Over every run of the only user, of whatever actions, the loan equals the reserve's aggregates throughout if and only if every turn meets its condition. |
| ContractMatch.CompoundedMatches | contracts/tools/math/InterestMath.sol:35-58 | The contract's compounded interest is the expected one, to the unit. |
| ContractMatch.LinearMatches | contracts/tools/math/InterestMath.sol:19-21 | The contract's linear interest is the expected one, to the unit. |
| ContractMatch.OverallRateMatches | contracts/protocol/strategies/DefaultReserveInterestRateStrategy.sol:234-249 | Dividing by the debt in wads, as the contract does, gives the same overall rate as dividing in rays. |
| ContractMatch.VariableRateBound | contracts/protocol/strategies/DefaultReserveInterestRateStrategy.sol:193-214 | The contract's variable rate is the expected one above the kink, and differs by at most slope1/(2 ray) + ray/(2 optimal) + 1 below it, where it multiplies before dividing. |
| ContractMatch.VariableRateWithinTolerance | test-suites/test-augmented/helpers/actions.ts:66-82 | With slope1/ray + ray/optimal < 6 the two variable rates always pass the scenarios' comparison. |
| ContractMatch.FirstUnitWithinToleranceIff | test-suites/test-augmented/helpers/actions.ts:66-82 | For a first slope below half a ray, the variable rates at one unit of utilization pass the comparison if and only if the slope adds at most three units there to the expected one. |
| ContractMatch.SmallKinkOutOfTolerance | test-suites/test-augmented/helpers/actions.ts:66-82 | With a kink at 1% and a first slope of 30% the two variable rates differ by 30 units at a utilization of one unit. |
| ContractMatch.RatesMatch | contracts/protocol/strategies/DefaultReserveInterestRateStrategy.sol:164-224 | On a balanced sheet the contract's stable rate is always the expected one, its yield is whenever its variable rate is, and all three are above the kink. |
| ContractMatch.IndexesMatchIff | contracts/protocol/libraries/logic/ReserveLogic.sol:349-384 | The expected indexes are the contract's at all later times if and only if depositors earn a rate, nothing is owed, or the borrow rate is below one unit per second. |
| ContractMatch.MintAverageBound | contracts/protocol/tokenization/StableDebtToken.sol:121-140 | For every debt the contract's average rate after a loan and the expected one differ by at most one token over the debt plus 3/2; from half a token on they pass the scenarios' comparison. |
| ContractMatch.OneUnitOutOfTolerance | contracts/protocol/tokenization/StableDebtToken.sol:121-140 | For a loan of one unit at a rate of four units they do not. |
| ContractMatch.BurnMatchesIff | contracts/protocol/tokenization/StableDebtToken.sol:159-186 | After a stable repayment the contract leaves the expected total debt if and only if all is repaid, or the average still weighs more than the repaid loan once both are rounded, or it weighs less by a unit per unit left: in between the contract erases what is expected to be owed still. |
| ContractMatch.BurnAverageBound | contracts/protocol/tokenization/StableDebtToken.sol:159-186 | Where neither side erases the debt, the two averages differ by at most one token over what stays lent plus 3/2; from half a token on they pass the scenarios' comparison. |
| ContractMatch.BurnForgivesFreeDebt | contracts/protocol/tokenization/StableDebtToken.sol:172-184 | Any part repayment of a debt without a rate erases all of it in the contract and only that part in the expected record. |
| Registry.JsonDb.AddContractAddr | helpers/misc-utils.ts:195-225 | An instance is logged by address; registering moves the name to the address and counts it up. |
| Registry.JsonDb.AddNamed | helpers/misc-utils.ts:268-283 | Naming an address counts the name up and logs no instance. |
| Registry.JsonDb.PrintContracts | helpers/misc-utils.ts:318-346 | The report lists exactly the visible names registered at most once, and counts the repeated ones and the instances. |
| Registry.WithSaveAndVerifyOnce | helpers/contracts-helpers.ts:60-73 | A once-only request attaches to a registered live address and touches nothing; otherwise a fresh instance is logged, the name moves to it and is counted up. |
| Registry.WithVerify | helpers/contracts-helpers.ts:108-123 | Logs a fresh instance and leaves every name as it was. |
| Registry.SetPreDeployAccessController | helpers/deploy-helpers.ts:25-38 | Names the configured access controller, or else one registered before, under the hidden name and changes no other name and no instance; reports a continuation exactly in the second case. |
| Registry.RunTask | tasks/migrations/augmented-test-incremental.ts:77-82 | A task leaves the registry that its requests leave one after another. |
| IncrementalDeploy.TaskCounts | helpers/contracts-helpers.ts:60-123 | Requests only ever add to the registry, and add at least one instance if any of them is not once-only. |
| IncrementalDeploy.SecondPassChangesNothing | helpers/contracts-helpers.ts:60-73 | A second pass of once-only tasks leaves the instances exactly as the first did, and the visible names too if none of them is given without a deployment. |
| IncrementalDeploy.CheckUnchanged | tasks/migrations/augmented-test-incremental.ts:103-113 | The flag is set if and only if every old name is still listed at its old address. |
| IncrementalDeploy.DetectMock | tasks/migrations/augmented-test-incremental.ts:49-53 | A mock is found if and only if a listed name starts with Mock. |
| IncrementalDeploy.ReportsOnlyGrow | tasks/migrations/augmented-test-incremental.ts:40-48 | When no name is repeated, every name listed before is listed unchanged and no count has dropped: two of the checks can never fail. |
| IncrementalDeploy.CyclesClean | tasks/migrations/augmented-test-incremental.ts:39-53 | After any number of cycles of once-only, mock-free tasks that give no visible name, every visible name was registered once and none is a mock. |
| IncrementalDeploy.LastReport | tasks/migrations/augmented-test-incremental.ts:39-53 | The report after the last cycle finds every visible name that is given without a deployment, and every mock. |
| IncrementalDeploy.CheckReport | tasks/migrations/augmented-test-incremental.ts:38-57 | The checks between cycles fail exactly on repeated or mock names, never as broken or redeployed. |
| IncrementalDeploy.ReplayCheckedIff | tasks/migrations/augmented-test-incremental.ts:67-74 | The instance count is unchanged by a replay of what the last cycle ran if and only if all of it is once-only. |
| IncrementalDeploy.RunCycle | tasks/migrations/augmented-test-incremental.ts:65-87 | A cycle goes through if and only if all tasks before its newest are once-only; it then has run the first maxStep tasks over the registry of the cycles before. |
| IncrementalDeploy.TestIncremental | tasks/migrations/augmented-test-incremental.ts:27-88 | For every list of tasks the loop ends; it completes if and only if all deployments are once-only, no visible name is given without one and none is a mock's, after N + 1 cycles of min(k, N) tasks; the instances and visible names are then those of one straight pass, if nothing is deployed under the hidden name; it never reports a broken registry or a redeployment. It fails after the first cycle that has something to fail for: on a visible name registered repeatedly, else on a mock, else, in the cycle after, on a replayed task that is not once-only. |
| IncrementalDeploy.ReplayNamesHidden | tasks/full/01-address-provider.ts:26-28 | A deployment that looks for an earlier access controller and then deploys one ends the test with the hidden name registered, which one pass does not register. |
| IncrementalDeploy.HiddenDeploymentSkipped | helpers/deploy-helpers.ts:25-38 | A contract deployed once under the hidden name is deployed by one pass and attached to by the test, which then ends with one instance less. |
| CallCommand.SplitWord | tasks/misc/call-cmd.ts:76-86 | The loop leaves the default roles followed by the word's roles, and its command name. |
| CallCommand.PrepareArgs | tasks/misc/call-cmd.ts:55-99 | The cursor loop is the scan of the words with a separator appended, and written commands come back with no roles in front for an empty option, the option itself for a plain one and what the JSON parser yields for a bracketed one; it fails exactly if that does not parse. |
| CallCommand.WordRoundTrip | tasks/misc/call-cmd.ts:76-86 | Slash-free roles and a slash-free name are read back from the word that joins them. |
| CallCommand.WordOfParts | tasks/misc/call-cmd.ts:76-86 | Every word is the join of the slash-free roles and name read from it. |
| CallCommand.ParsesGroupsIff | tasks/misc/call-cmd.ts:70-94 | For every list of words, one command per group between separators comes out if and only if no group but the last is empty. |
| CallCommand.ParsesWritten | tasks/misc/call-cmd.ts:55-99 | Parsing written commands returns them with the default roles in front, with or without one trailing separator. |
| LinkBytecode.Link | helpers/contracts-helpers.ts:138-159 | The triple loop applies, in order, one patch per placeholder of each supplied library. |
| LinkBytecode.LinkFrame | helpers/contracts-helpers.ts:138-159 | For disjoint placeholders of their addresses' length, linking keeps the length, writes every supplied address and leaves every other character alone. |
| LinkBytecode.AddressWritten | helpers/contracts-helpers.ts:149-154 | Each placeholder reads as its library's address without the 0x. |
| LinkBytecode.OrderDoesNotMatter | helpers/contracts-helpers.ts:149-154 | Any order of the same patches gives the same code. |
| LinkBytecode.LinkInAnyOrder | helpers/contracts-helpers.ts:141-156 | Listing the files, the libraries of each file and the placeholders of each library in any order gives the same code. |
| LinkBytecode.HeadAndTail | helpers/contracts-helpers.ts:149-154 | Cutting the code anywhere, even beyond its end, loses nothing and takes no more than asked for. |
| LinkBytecode.PermutedKeys | helpers/contracts-helpers.ts:141-156 | Lists that are permutations of one another list the same things, as the order-free comparison of files and libraries takes it. |
| LinkBytecode.LinkingInStages | helpers/contracts-helpers.ts:143-147 | Linking some libraries now and the others later gives the code linked with all at once. |

## Left out

- RayMath.TruncDiv: a zero divisor gives 0 where bignumber.js gives Infinity or NaN; `Exits.DivisorsNeverZero` shows that no admissible step has one.
- ContractMatch.CompoundedMatches: overflow of 256-bit words, on which the contracts revert, is not modelled; neither is it in the other contract formulas.
- Soundness.StepSolvent: the yield is measured on the total that the step records and as it is mined, not against debts that have grown since.
- Backing.RunBacked: how much time takes from the backing or adds to it between turns, as the depositors' yield and the borrowers' interest are rounded and cut apart, is a term of the claim and not bounded.
- Pool.StepMovesTogether: a variable borrow by a user who does not owe the whole debt is excluded, because its user side starts from the reserve's debt (`Pool.VariableBorrowLedgerIff`).
- ContractMatch.VariableRateWithinTolerance: strategies outside its inequality are only bounded, by `ContractMatch.VariableRateBound`, and decided at one unit of utilization, by `ContractMatch.FirstUnitWithinToleranceIff`.
- ContractMatch.BurnMatchesIff: the repaying user's own record, and the minting of interest above the repayment, are not compared.
- Calculations.CalcExpectedReserveDataAfterDeposit and its siblings take the reserve's strategy instead of looking it up by symbol; addresses, symbols, decimals and transaction cost are not in the records, and the user's copied borrow index and unused principal variable debt are not either.
- The records are values, updated field by field in local variables; the source's objects are not shared before they are returned, so no aliasing is lost.
- IncrementalDeploy.TestIncremental: its claim about one pass excludes deployments under the hidden name, which nothing in the repository makes and for which `IncrementalDeploy.HiddenDeploymentSkipped` shows that it fails; tasks are fixed lists of registry requests, made one after another as if all were awaited, so that a step which looks at the registry or the chain is modelled only as far as once-only requests and the look for an access controller go; what else a task does, the smoke and deposit tests after the loop, console output and the fork check are left out.
- Registry.JsonDb.AddContractAddr: the stored verification arguments are left out, and a name is one key, with no path syntax inside it.
- CallCommand.PrepareArgs: what the JSON parser makes of a bracketed roles option is a parameter; the caller's argument list is a value and does not keep the appended separator.
- LinkBytecode.LinkFrame: placeholders that overlap, leave the code or differ in length from their address are outside its promise; `LinkBytecode.Link` still says what the loop does with them.
- Contract deployment, getters, verification, wallets, permits, market tables, APY display and the rest of the Solidity protocol: thin wrappers, finite data or logic behind other interfaces.
