/** What every admissible step keeps: non-negative books, indexes that never fall, and rates that
    vanish with the debt. */
module Soundness {
  import opened RayMath
  import opened Accounting
  import opened Transitions
  import RateModel
  import Bounds

  ghost predicate Sound(r: Reserve) {
    && RAY <= r.liquidityIndex && RAY <= r.variableBorrowIndex
    && 0 <= r.totalLiquidity && 0 <= r.availableLiquidity
    && 0 <= r.totalStableDebt && 0 <= r.principalStableDebt
    && 0 <= r.totalVariableDebt && 0 <= r.scaledVariableDebt
    && 0 <= r.averageStableBorrowRate && 0 <= r.variableBorrowRate
    && 0 <= r.stableBorrowRate && 0 <= r.marketStableRate
    && 0 <= r.liquidityRate && 0 <= r.utilizationRate
    && 0 <= r.totalStableDebtLastUpdated <= r.lastUpdateTimestamp
    && (r.totalVariableDebt == 0 <==> r.scaledVariableDebt == 0)
    && (r.totalStableDebt == 0 <==> r.principalStableDebt == 0)
    && (r.utilizationRate == 0 ==> r.liquidityRate == 0)
    && (r.totalStableDebt + r.totalVariableDebt > 0 ==> r.totalLiquidity > 0)
  }

  /** Indexes and the clock only move forward. */
  ghost predicate NoEarlier(r: Reserve, later: Reserve) {
    && r.liquidityIndex <= later.liquidityIndex
    && r.variableBorrowIndex <= later.variableBorrowIndex
    && r.lastUpdateTimestamp <= later.lastUpdateTimestamp
  }

  ghost predicate BalanceSheet(r: Reserve) {
    r.totalLiquidity == r.availableLiquidity + r.totalStableDebt + r.totalVariableDebt
  }

  /** Time moves forward, and only a borrow is observed later than it is mined. */
  ghost predicate Timely(r: Reserve, s: Step) {
    && r.lastUpdateTimestamp <= s.tx <= s.now
    && (!s.action.Borrow? ==> s.now == s.tx)
  }

  /** A user record with no negative part, holding no more variable debt than the reserve records. */
  ghost predicate Fits(r: Reserve, u: User, tx: int) {
    && 0 <= u.scaledVariableDebt <= r.scaledVariableDebt
    && 0 <= u.scaledDepositBalance
    && 0 <= u.principalStableDebt && 0 <= u.currentStableDebt
    && 0 <= u.stableBorrowRate
    && 0 <= u.stableRateLastUpdated <= tx
  }

  /** What the pool demands before it executes the transaction. */
  ghost predicate Demanded(r: Reserve, u: User, s: Step) {
    match s.action
    case Withdraw(amount) =>
      AmountWithdrawn(amount, r, u, s.tx) <= Bounds.Min(r.availableLiquidity,
                                                        DepositBalance(r, u.scaledDepositBalance, s.tx))
    case Borrow(amount, _) => 0 < amount <= r.availableLiquidity
    case SwapRateMode(Variable) => 0 < VariableDebtBalance(r, u.scaledVariableDebt, s.tx)
    case _ => true
  }

  /** What the expected records need besides, to come out without a negative part. */
  ghost predicate Bookable(r: Reserve, u: User, s: Step) {
    match s.action
    case Repay(amount, Variable, _) => BurnedShare(amount, r, u, s.tx) <= r.scaledVariableDebt
    case SwapRateMode(Stable) => SwapFits(r, u, s.tx)
    case RebalanceStableRate => RebalanceFits(r, u, s.tx)
    case _ => true
  }

  ghost predicate Allowed(r: Reserve, u: User, s: Step) {
    Demanded(r, u, s) && Bookable(r, u, s)
  }

  /** The scaled debt that a variable repayment burns. */
  function BurnedShare(amount: int, r: Reserve, u: User, tx: int): int {
    RayDiv(AmountRepaid(amount, Variable, r, u, tx), VariableBorrowIndexAt(r, tx))
  }

  /** When the burned share stays within a debt, as a test on the amount. */
  lemma BurnsWithinIff(x: int, index: int, scaled: int)
    requires x >= 0 && index > 0 && scaled >= 0
    ensures RayDiv(x, index) <= scaled <==> index / 2 + x * RAY < (scaled + 1) * index
  {
    var a := index / 2 + x * RAY;
    DivBounds(a, index);
    if a / index <= scaled {
      MulMono(a / index + 1, scaled + 1, index);
    } else {
      MulMono(scaled + 1, a / index, index);
    }
  }

  /** A stable loan the reserve can release: it fits in the total, and its interest in the total's. */
  ghost predicate SwapFits(r: Reserve, u: User, tx: int) {
    var total, moved := StableDebtAt(r, tx), UserStableDebtAt(u, tx);
    moved == total ||
    (moved < total && r.averageStableBorrowRate * total - u.stableBorrowRate * moved > moved - total)
  }

  /** A loan that can be rebalanced: what the other loans weigh at the average left without it, and
      what it weighs itself at the new rate, do not add up to less than rounding hides. The loan is
      counted a billion times, as the rebalance counts it. */
  ghost predicate RebalanceFits(r: Reserve, u: User, tx: int) {
    var total, own := StableDebtAt(r, tx), UserStableDebtAt(u, tx);
    var without := RebalancedRate(r.averageStableBorrowRate, total, -own, u.stableBorrowRate);
    var weight := RayMul(without, total - own) + RayMul(r.stableBorrowRate, WadToRay(own));
    var borrowed := total - own + WadToRay(own);
    borrowed == 0 || weight * RAY + borrowed / 2 > -borrowed
  }

  // ---------- Settling ----------

  lemma RatesNonNegative(c: Strategy, market: nat, u: nat, stableDebt: nat, variableDebt: nat, average: nat)
    requires RateModel.ValidStrategy(c)
    ensures
      var rates := RateModel.InterestRates(c, market, u, stableDebt, variableDebt, average);
      && 0 <= rates.liquidity && 0 <= rates.stable && 0 <= rates.variable
      && (u == 0 ==> rates.liquidity == 0)
  {
    hide RateModel.VariableRate, RateModel.StableRate, RateModel.OverallBorrowRate, RateModel.LiquidityRate;
    RateModel.CurveAnchors(c, market);
    RateModel.CurveMono(c, market, 0, u);
    var variable := RateModel.VariableRate(c, u);
    if stableDebt + variableDebt > 0 {
      RateModel.OverallIsWeightedMean(stableDebt, variableDebt, variable, average);
    } else {
      RateModel.NoDebtNoRate(variable, average);
    }
    var overall := RateModel.OverallBorrowRate(stableDebt, variableDebt, variable, average);
    RateModel.LiquidityRateRounds(c, overall, u);
    RateModel.NoUtilizationNoYield(c, overall);
  }

  lemma UtilizationNonNegative(stableDebt: nat, variableDebt: nat, total: nat)
    requires stableDebt + variableDebt > 0 ==> total > 0
    ensures RateModel.UtilizationRate(stableDebt, variableDebt, total) >= 0
  {
    if stableDebt + variableDebt > 0 {
      RayDivRounds(stableDebt + variableDebt, total);
    }
  }

  /** Settling non-negative books at a later time gives a sound record. */
  lemma SettledSound(c: Strategy, r: Reserve, tx: int, available: nat, total: nat, principal: nat, scaled: nat,
                     average: nat, stableDebt: nat, variableDebt: nat, stableUpdated: nat)
    requires RateModel.ValidStrategy(c) && Sound(r) && r.lastUpdateTimestamp <= tx && stableUpdated <= tx
    requires variableDebt == 0 <==> scaled == 0
    requires stableDebt == 0 <==> principal == 0
    requires stableDebt + variableDebt > 0 ==> total > 0
    ensures
      var after := Settled(c, r, tx, available, total, principal, scaled, average, stableDebt, variableDebt, stableUpdated);
      Sound(after) && NoEarlier(r, after)
  {
    hide RateModel.InterestRates, RateModel.UtilizationRate, LiquidityIndexAt, VariableBorrowIndexAt;
    UtilizationNonNegative(stableDebt, variableDebt, total);
    RatesNonNegative(c, r.marketStableRate, RateModel.UtilizationRate(stableDebt, variableDebt, total),
                     stableDebt, variableDebt, average);
    IndexesGrow(r, tx);
  }

  /** Seeing grown debts keeps a balanced record sound: utilization cannot fall back to zero. */
  lemma SeenSound(r: Reserve, stableDebt: nat, variableDebt: nat)
    requires Sound(r) && BalanceSheet(r)
    requires r.utilizationRate == RateModel.UtilizationRate(r.totalStableDebt, r.totalVariableDebt, r.totalLiquidity)
    requires r.totalStableDebt <= stableDebt && r.totalVariableDebt <= variableDebt
    requires variableDebt == 0 <==> r.scaledVariableDebt == 0
    requires stableDebt == 0 <==> r.principalStableDebt == 0
    ensures Sound(SeenWith(r, stableDebt, variableDebt)) && BalanceSheet(SeenWith(r, stableDebt, variableDebt))
  {
    hide RayDiv;
    var debt, more := r.totalStableDebt + r.totalVariableDebt, stableDebt + variableDebt;
    var total := r.availableLiquidity + more;
    UtilizationNonNegative(stableDebt, variableDebt, total);
    if debt > 0 {
      RateModel.UtilizationMono(debt, more, r.availableLiquidity);
      assert r.utilizationRate == RayDiv(debt, r.availableLiquidity + debt);
      assert RateModel.UtilizationRate(stableDebt, variableDebt, total) == RayDiv(more, r.availableLiquidity + more);
    }
  }

  // ---------- Debts at the next action ----------

  lemma DebtsAt(r: Reserve, scaled: nat, tx: int)
    requires Sound(r) && r.lastUpdateTimestamp <= tx
    ensures StableDebtAt(r, tx) >= r.principalStableDebt
    ensures StableDebtAt(r, tx) == 0 <==> r.principalStableDebt == 0
    ensures VariableDebtAt(r, scaled, tx) >= scaled
    ensures VariableDebtAt(r, scaled, tx) == 0 <==> scaled == 0
    ensures VariableBorrowIndexAt(r, tx) >= RAY
  {
    hide RayMul, TotalStableDebtAt, VariableBorrowIndexAt;
    StableDebtGrows(r.principalStableDebt, r.averageStableBorrowRate, r.totalStableDebtLastUpdated, tx);
    IndexesGrow(r, tx);
    RayMulGrows(scaled, VariableBorrowIndexAt(r, tx));
    RayMulZero(VariableBorrowIndexAt(r, tx));
  }

  lemma UserDebtsAt(r: Reserve, u: User, tx: int)
    requires Sound(r) && r.lastUpdateTimestamp <= tx && Fits(r, u, tx)
    ensures UserStableDebtAt(u, tx) >= u.principalStableDebt
    ensures VariableDebtBalance(r, u.scaledVariableDebt, tx) == VariableDebtAt(r, u.scaledVariableDebt, tx)
    ensures 0 <= u.scaledVariableDebt <= VariableDebtAt(r, u.scaledVariableDebt, tx)
    ensures RayDiv(VariableDebtAt(r, u.scaledVariableDebt, tx), VariableBorrowIndexAt(r, tx)) == u.scaledVariableDebt
  {
    hide RayMul, RayDiv, StableDebtBalance, VariableBorrowIndexAt, VariableDebtBalance;
    StableDebtGrows(u.principalStableDebt, u.stableBorrowRate, u.stableRateLastUpdated, tx);
    DebtIsNextIndex(r, u.scaledVariableDebt, tx);
    DebtsAt(r, u.scaledVariableDebt, tx);
    RayDivOfRayMul(u.scaledVariableDebt, VariableBorrowIndexAt(r, tx));
  }

  /** A repayment never burns more scaled debt than the user holds. */
  lemma RepaidShareFits(r: Reserve, u: User, repaid: nat, tx: int)
    requires Sound(r) && r.lastUpdateTimestamp <= tx && Fits(r, u, tx)
    requires repaid <= VariableDebtBalance(r, u.scaledVariableDebt, tx)
    ensures 0 <= RayDiv(repaid, VariableBorrowIndexAt(r, tx)) <= u.scaledVariableDebt
  {
    hide RayMul, RayDiv, VariableBorrowIndexAt, VariableDebtBalance, VariableDebtAt;
    UserDebtsAt(r, u, tx);
    DebtsAt(r, u.scaledVariableDebt, tx);
    var index := VariableBorrowIndexAt(r, tx);
    RayDivMono(repaid, VariableDebtAt(r, u.scaledVariableDebt, tx), index);
    RayDivRounds(repaid, index);
  }

  lemma AverageAfterAdding(average: nat, total: nat, amount: nat, rate: nat)
    ensures AverageStableRate(average, total, amount, rate) >= 0
  {
  }

  lemma AverageAfterRemoving(average: nat, total: nat, moved: nat, rate: nat)
    requires moved == total || (moved < total && average * total - rate * moved > moved - total)
    ensures AverageStableRate(average, total, -(moved as int), rate) >= 0
  {
  }

  // ---------- Each action ----------

  lemma DepositSound(c: Strategy, r: Reserve, amount: nat, tx: int)
    requires RateModel.ValidStrategy(c) && Sound(r) && r.lastUpdateTimestamp <= tx
    ensures Sound(ReserveAfterDeposit(c, amount, r, tx)) && NoEarlier(r, ReserveAfterDeposit(c, amount, r, tx))
  {
    hide Settled, StableDebtAt, VariableDebtAt;
    DebtsAt(r, r.scaledVariableDebt, tx);
    SettledSound(c, r, tx, r.availableLiquidity + amount, r.totalLiquidity + amount, r.principalStableDebt,
                 r.scaledVariableDebt, r.averageStableBorrowRate, StableDebtAt(r, tx),
                 VariableDebtAt(r, r.scaledVariableDebt, tx), r.totalStableDebtLastUpdated);
  }

  lemma BalancedSound(c: Strategy, r: Reserve, tx: int, available: nat, principal: nat, scaled: nat, average: nat,
                      stableDebt: nat, variableDebt: nat, stableUpdated: nat)
    requires RateModel.ValidStrategy(c) && Sound(r) && r.lastUpdateTimestamp <= tx && stableUpdated <= tx
    requires variableDebt == 0 <==> scaled == 0
    requires stableDebt == 0 <==> principal == 0
    ensures
      var after := Balanced(c, r, tx, available, principal, scaled, average, stableDebt, variableDebt, stableUpdated);
      && Sound(after) && NoEarlier(r, after) && BalanceSheet(after)
      && after.utilizationRate
         == RateModel.UtilizationRate(after.totalStableDebt, after.totalVariableDebt, after.totalLiquidity)
      && after.utilizationRate <= RAY
  {
    SettledSound(c, r, tx, available, available + stableDebt + variableDebt, principal, scaled, average,
                 stableDebt, variableDebt, stableUpdated);
    RateModel.UtilizationBounds(stableDebt, variableDebt, available);
    hide RateModel.InterestRates, RateModel.UtilizationRate;
  }

  lemma WithdrawSound(c: Strategy, r: Reserve, u: User, amount: nat, tx: int)
    requires RateModel.ValidStrategy(c) && Sound(r) && r.lastUpdateTimestamp <= tx
    requires AmountWithdrawn(amount, r, u, tx) <= r.availableLiquidity
    ensures Settles(r, ReserveAfterWithdraw(c, amount, r, u, tx))
  {
    hide Balanced, StableDebtAt, VariableDebtAt, AmountWithdrawn;
    DebtsAt(r, r.scaledVariableDebt, tx);
    BalancedSound(c, r, tx, r.availableLiquidity - AmountWithdrawn(amount, r, u, tx), r.principalStableDebt,
                  r.scaledVariableDebt, r.averageStableBorrowRate, StableDebtAt(r, tx),
                  VariableDebtAt(r, r.scaledVariableDebt, tx), r.totalStableDebtLastUpdated);
  }

  /** The outcome of every action but a deposit. */
  ghost predicate Settles(r: Reserve, after: Reserve) {
    Sound(after) && NoEarlier(r, after) && BalanceSheet(after) && after.utilizationRate <= RAY
  }

  /** A settled borrow seen later. */
  lemma BorrowSeen(c: Strategy, r: Reserve, settled: Reserve, tx: nat, now: nat)
    requires tx <= now && settled.lastUpdateTimestamp == tx
    requires Settles(r, settled)
    requires settled.utilizationRate
             == RateModel.UtilizationRate(settled.totalStableDebt, settled.totalVariableDebt, settled.totalLiquidity)
    requires settled.totalStableDebt <= StableDebtAt(settled, now)
    requires settled.totalVariableDebt == RayMul(settled.scaledVariableDebt, settled.variableBorrowIndex)
    ensures Settles(r, SeenWith(settled, StableDebtAt(settled, now),
                                VariableDebtBalance(settled, settled.scaledVariableDebt, now)))
  {
    hide RayMul, TotalStableDebtAt, NormalizedDebt, RateModel.UtilizationRate;
    var scaled := settled.scaledVariableDebt;
    StableDebtGrows(settled.principalStableDebt, settled.averageStableBorrowRate, settled.totalStableDebtLastUpdated, now);
    NormalizedDebtGrows(settled.variableBorrowRate, settled.variableBorrowIndex, tx, now);
    var debt := NormalizedDebt(settled.variableBorrowRate, settled.variableBorrowIndex, tx, now);
    RayMulMono(scaled, scaled, settled.variableBorrowIndex, debt);
    RayMulZero(debt);
    var stable, variable := StableDebtAt(settled, now), VariableDebtBalance(settled, scaled, now);
    SeenSound(settled, stable, variable);
    RateModel.UtilizationBounds(stable, variable, settled.availableLiquidity);
  }

  lemma BorrowStableSound(c: Strategy, r: Reserve, amount: nat, tx: nat, now: nat)
    requires RateModel.ValidStrategy(c) && Sound(r) && r.lastUpdateTimestamp <= tx <= now
    requires amount <= r.availableLiquidity
    ensures Settles(r, ReserveAfterBorrow(c, amount, Stable, r, tx, now))
    ensures Sound(BorrowSettled(c, amount, Stable, r, tx))
  {
    hide TotalStableDebtAt, AverageStableRate, RayMul, NormalizedDebt, VariableBorrowIndexAt, LiquidityIndexAt,
         RateModel.InterestRates, RateModel.UtilizationRate;
    DebtsAt(r, r.scaledVariableDebt, tx);
    var before := StableDebtAt(r, tx);
    AverageAfterAdding(r.averageStableBorrowRate, before, amount, r.stableBorrowRate);
    var average := AverageStableRate(r.averageStableBorrowRate, before, amount, r.stableBorrowRate);
    BalancedSound(c, r, tx, r.availableLiquidity - amount, before + amount, r.scaledVariableDebt, average,
                  before + amount, VariableDebtAt(r, r.scaledVariableDebt, tx), tx);
    var settled := Balanced(c, r, tx, r.availableLiquidity - amount, before + amount, r.scaledVariableDebt, average,
                            before + amount, VariableDebtAt(r, r.scaledVariableDebt, tx), tx);
    StableDebtGrows(before + amount, average, tx, now);
    BorrowSeen(c, r, settled, tx, now);
  }

  lemma BorrowVariableSound(c: Strategy, r: Reserve, amount: nat, tx: nat, now: nat)
    requires RateModel.ValidStrategy(c) && Sound(r) && r.lastUpdateTimestamp <= tx <= now
    requires amount <= r.availableLiquidity
    ensures Settles(r, ReserveAfterBorrow(c, amount, Variable, r, tx, now))
    ensures Sound(BorrowSettled(c, amount, Variable, r, tx))
  {
    hide TotalStableDebtAt, StableDebtBalance, RayMul, RayDiv, NormalizedDebt, VariableBorrowIndexAt, LiquidityIndexAt,
         RateModel.InterestRates, RateModel.UtilizationRate;
    DebtsAt(r, r.scaledVariableDebt, tx);
    RayDivRounds(amount, VariableBorrowIndexAt(r, tx));
    var scaled := r.scaledVariableDebt + RayDiv(amount, VariableBorrowIndexAt(r, tx));
    DebtsAt(r, scaled, tx);
    var p, q, t := r.principalStableDebt, r.averageStableBorrowRate, r.totalStableDebtLastUpdated;
    StableDebtGrows(p, q, t, tx);
    TotalStableDebtMono(p, q, t, tx, now);
    var stable := StableDebtBalance(p, q, t, tx);
    BalancedSound(c, r, tx, r.availableLiquidity - amount, p, scaled, q, stable, VariableDebtAt(r, scaled, tx), t);
    var settled := Balanced(c, r, tx, r.availableLiquidity - amount, p, scaled, q, stable,
                            VariableDebtAt(r, scaled, tx), t);
    BorrowSeen(c, r, settled, tx, now);
  }

  lemma RepayStableSound(c: Strategy, r: Reserve, u: User, amount: nat, tx: nat)
    requires RateModel.ValidStrategy(c) && Sound(r) && r.lastUpdateTimestamp <= tx && Fits(r, u, tx)
    ensures Settles(r, ReserveAfterRepay(c, amount, Stable, r, u, tx))
  {
    hide Balanced, TotalStableDebtAt, StableDebtBalance, VariableDebtAt, AverageStableRate;
    DebtsAt(r, r.scaledVariableDebt, tx);
    UserDebtsAt(r, u, tx);
    var repaid := AmountRepaid(amount, Stable, r, u, tx);
    var total := StableDebtAt(r, tx);
    var (stable, average) := AfterStableRepay(total, r.averageStableBorrowRate, repaid, u.stableBorrowRate);
    BalancedSound(c, r, tx, r.availableLiquidity + repaid, stable, r.scaledVariableDebt, average, stable,
                  VariableDebtAt(r, r.scaledVariableDebt, tx), tx);
  }

  lemma RepayVariableSound(c: Strategy, r: Reserve, u: User, amount: nat, tx: nat)
    requires RateModel.ValidStrategy(c) && Sound(r) && r.lastUpdateTimestamp <= tx && Fits(r, u, tx)
    requires BurnedShare(amount, r, u, tx) <= r.scaledVariableDebt
    ensures Settles(r, ReserveAfterRepay(c, amount, Variable, r, u, tx))
  {
    hide Balanced, VariableDebtBalance, VariableDebtAt, StableDebtBalance, RayMul, RayDiv, VariableBorrowIndexAt;
    var repaid := AmountRepaid(amount, Variable, r, u, tx);
    UserDebtsAt(r, u, tx);
    var scaled := r.scaledVariableDebt - RayDiv(repaid, VariableBorrowIndexAt(r, tx));
    DebtsAt(r, scaled, tx);
    BalancedSound(c, r, tx, r.availableLiquidity + repaid, r.principalStableDebt, scaled, r.averageStableBorrowRate,
                  r.totalStableDebt, VariableDebtAt(r, scaled, tx), r.totalStableDebtLastUpdated);
  }

  lemma SwapToVariableSound(c: Strategy, r: Reserve, u: User, tx: nat)
    requires RateModel.ValidStrategy(c) && Sound(r) && r.lastUpdateTimestamp <= tx && Fits(r, u, tx)
    requires SwapFits(r, u, tx)
    ensures Settles(r, ReserveAfterSwapRateMode(c, r, u, Stable, tx))
  {
    hide Balanced, TotalStableDebtAt, StableDebtBalance, VariableDebtAt, AverageStableRate, RayMul, RayDiv,
         VariableBorrowIndexAt;
    var total, moved := StableDebtAt(r, tx), UserStableDebtAt(u, tx);
    DebtsAt(r, r.scaledVariableDebt, tx);
    UserDebtsAt(r, u, tx);
    var index := VariableBorrowIndexAt(r, tx);
    RayDivRounds(moved, index);
    var scaled := r.scaledVariableDebt + RayDiv(moved, index);
    DebtsAt(r, scaled, tx);
    AverageAfterRemoving(r.averageStableBorrowRate, total, moved, u.stableBorrowRate);
    var average := AverageStableRate(r.averageStableBorrowRate, total - moved + moved, -moved, u.stableBorrowRate);
    assert total - moved + moved == total;
    BalancedSound(c, r, tx, r.availableLiquidity, total - moved, scaled, average, total - moved,
                  VariableDebtAt(r, scaled, tx), tx);
  }

  /** Swapping a stable loan out leaves a sound record exactly when the loan fits the reserve's total
      and its interest fits the total's: unlike a repayment, the swap has no clamps. */
  lemma SwapSoundIff(c: Strategy, r: Reserve, u: User, tx: nat)
    requires RateModel.ValidStrategy(c) && Sound(r) && r.lastUpdateTimestamp <= tx && Fits(r, u, tx)
    ensures Sound(ReserveAfterSwapRateMode(c, r, u, Stable, tx)) <==> SwapFits(r, u, tx)
  {
    hide RayMul, RayDiv, LiquidityIndexAt, VariableBorrowIndexAt, TotalStableDebtAt, StableDebtBalance,
         AverageStableRate, RateModel.InterestRates, RateModel.UtilizationRate;
    if SwapFits(r, u, tx) {
      SwapToVariableSound(c, r, u, tx);
    } else {
      var total, moved := StableDebtAt(r, tx), UserStableDebtAt(u, tx);
      assert total - moved + moved == total;
      UserDebtsAt(r, u, tx);
      if moved < total {
        AverageUnderflows(r.averageStableBorrowRate, total, moved, u.stableBorrowRate);
      }
    }
  }

  lemma AverageUnderflows(average: nat, total: nat, moved: nat, rate: nat)
    requires moved < total && average * total - rate * moved <= moved - total
    ensures AverageStableRate(average, total, -(moved as int), rate) < 0
  {
  }

  lemma SwapToStableSound(c: Strategy, r: Reserve, u: User, tx: nat)
    requires RateModel.ValidStrategy(c) && Sound(r) && r.lastUpdateTimestamp <= tx && Fits(r, u, tx)
    ensures Settles(r, ReserveAfterSwapRateMode(c, r, u, Variable, tx))
  {
    hide Balanced, TotalStableDebtAt, StableDebtBalance, VariableDebtAt, VariableDebtBalance, AverageStableRate, RayMul,
         RayDiv, VariableBorrowIndexAt;
    var total, moved := StableDebtAt(r, tx), VariableDebtBalance(r, u.scaledVariableDebt, tx);
    UserDebtsAt(r, u, tx);
    var scaled := r.scaledVariableDebt - u.scaledVariableDebt;
    DebtsAt(r, scaled, tx);
    AverageAfterAdding(r.averageStableBorrowRate, r.totalStableDebt, moved, r.stableBorrowRate);
    var average := AverageStableRate(r.averageStableBorrowRate, r.totalStableDebt, moved, r.stableBorrowRate);
    BalancedSound(c, r, tx, r.availableLiquidity, total + moved, scaled, average, total + moved,
                  VariableDebtAt(r, scaled, tx), tx);
  }

  /** When the mixed average of the rebalance is not negative, on either side of zero. */
  lemma RebalancedNonNegativeIff(average: int, total: int, change: int, rate: int)
    ensures
      var weight := RayMul(average, total) + RayMul(rate, WadToRay(change));
      var borrowed := total + WadToRay(change);
      RebalancedRate(average, total, change, rate) >= 0 <==>
      borrowed == 0
      || (borrowed > 0 && weight * RAY + borrowed / 2 > -borrowed)
      || (borrowed < 0 && weight * RAY - (-borrowed) / 2 < -borrowed)
  {
    var weight := RayMul(average, total) + RayMul(rate, WadToRay(change));
    var borrowed := total + WadToRay(change);
    hide RayMul;
    RayDivSign(weight, borrowed);
  }

  lemma RayDivSign(x: int, a: int)
    ensures a > 0 ==> (RayDiv(x, a) >= 0 <==> x * RAY + a / 2 > -a)
    ensures a < 0 ==> (RayDiv(x, a) >= 0 <==> x * RAY - (-a) / 2 < -a)
  {
    if a > 0 {
      NonNegativeQuotient(a / 2 + x * RAY, a);
    } else if a < 0 {
      NonNegativeQuotient((-a) / 2 - x * RAY, -a);
    }
  }

  /** A quotient truncated toward zero is negative only from one whole divisor below zero on. */
  lemma NonNegativeQuotient(a: int, b: int)
    requires b > 0
    ensures TruncDiv(a, b) >= 0 <==> a > -b
    ensures TruncDiv(-a, -b) == TruncDiv(a, b)
  {
    TruncDivBounds(a, b);
  }

  /** Rebalancing leaves a sound record exactly when the loan can be rebalanced. */
  lemma RebalanceSoundIff(c: Strategy, r: Reserve, u: User, tx: nat)
    requires RateModel.ValidStrategy(c) && Sound(r) && r.lastUpdateTimestamp <= tx && Fits(r, u, tx)
    ensures Sound(ReserveAfterRebalance(c, r, u, tx)) <==> RebalanceFits(r, u, tx)
    ensures RebalanceFits(r, u, tx) ==> Settles(r, ReserveAfterRebalance(c, r, u, tx))
  {
    hide TotalStableDebtAt, StableDebtBalance, VariableDebtAt, RebalancedRate, RayMul, LiquidityIndexAt,
         VariableBorrowIndexAt, RateModel.InterestRates, RateModel.UtilizationRate;
    var total, own := StableDebtAt(r, tx), UserStableDebtAt(u, tx);
    DebtsAt(r, r.scaledVariableDebt, tx);
    UserDebtsAt(r, u, tx);
    var without := RebalancedRate(r.averageStableBorrowRate, total, -own, u.stableBorrowRate);
    RebalancedNonNegativeIff(without, total - own, own, r.stableBorrowRate);
    var average := RebalancedRate(without, total - own, own, r.stableBorrowRate);
    if average >= 0 {
      BalancedSound(c, r, tx, r.availableLiquidity, total, r.scaledVariableDebt, average, total,
                    VariableDebtAt(r, r.scaledVariableDebt, tx), tx);
    }
  }

  /** Three kinds of loan that can always be rebalanced: the only stable one, none at all, and one
      that outweighs the total in amount and in weighted rate once it is counted a billion times. */
  lemma RebalanceFitsUsually(r: Reserve, u: User, tx: nat)
    requires Sound(r) && r.lastUpdateTimestamp <= tx && Fits(r, u, tx)
    requires
      var total, own := StableDebtAt(r, tx), UserStableDebtAt(u, tx);
      own == total || own == 0
      || (own < total < WadToRay(own)
          && r.averageStableBorrowRate * total + RAY <= u.stableBorrowRate * WadToRay(own))
    ensures RebalanceFits(r, u, tx)
  {
    var total, own := StableDebtAt(r, tx), UserStableDebtAt(u, tx);
    DebtsAt(r, r.scaledVariableDebt, tx);
    UserDebtsAt(r, u, tx);
    hide TotalStableDebtAt, StableDebtBalance;
    var average, rate := r.averageStableBorrowRate, u.stableBorrowRate;
    var without := RebalancedRate(average, total, -own, rate);
    assert own != total ==> without >= 0 by {
      if own == 0 { NothingTakenOut(average, total, rate); }
      else if own < total { TakenOutNonNegative(average, total, own, rate); }
    }
    hide RayMul, RebalancedRate;
    RayMulZero(without);
    MulMono(0, r.stableBorrowRate, WadToRay(own));
    RayMulRounds(r.stableBorrowRate, WadToRay(own));
    if own != total {
      MulMono(0, without, total - own);
      RayMulRounds(without, total - own);
    }
  }

  lemma NothingTakenOut(average: nat, total: nat, rate: nat)
    ensures RebalancedRate(average, total, 0, rate) >= 0
  {
    RebalancedNonNegativeIff(average, total, 0, rate);
    MulMono(0, average, total);
    RayMulRounds(average, total);
    RayMulZero(rate);
    hide RayMul;
  }

  /** Taking out a loan that outweighs the total leaves a quotient of two non-positive numbers. */
  lemma TakenOutNonNegative(average: nat, total: nat, own: nat, rate: nat)
    requires own > 0 && total < WadToRay(own) && average * total + RAY <= rate * WadToRay(own)
    ensures RebalancedRate(average, total, -(own as int), rate) >= 0
  {
    var wide := WadToRay(own);
    MulMono(0, average, total);
    assert rate * -wide == -(rate * wide);
    TruncDivBounds(HALF_RAY + average * total, RAY);
    TruncDivBounds(HALF_RAY - rate * wide, RAY);
    assert RayMul(average, total) + RayMul(rate, -wide) <= 0;
    RebalancedNonNegativeIff(average, total, -(own as int), rate);
    hide RayMul;
  }

  /** A reserve that has lent two billion units at 3% and still offers 3%, and a user who owes one
      unit of them at 10%. */
  function LentAtThree(tx: nat): Reserve {
    var three := 3 * (RAY / 100);
    Reserve(2_000_000_000, 0, 2_000_000_000, 0, 2_000_000_000, 0, three, 0, three, RAY, RAY, RAY, 0, three, tx, tx)
  }

  function OwesOneAtTen(tx: nat): User {
    User(0, 0, 1, 0, 1, 0, 0, 10 * (RAY / 100), tx, false, 0)
  }

  /** A rebalance that breaks the books, under every strategy: counted a billion times, the one unit
      takes more weighted rate out than there is, and half of the debt still remains to divide it by. */
  lemma RebalanceCanUnderflow(c: Strategy, tx: nat)
    ensures Sound(LentAtThree(tx)) && BalanceSheet(LentAtThree(tx)) && Fits(LentAtThree(tx), OwesOneAtTen(tx), tx)
    ensures ReserveAfterRebalance(c, LentAtThree(tx), OwesOneAtTen(tx), tx).averageStableBorrowRate < 0
  {
    assert StableDebtAt(LentAtThree(tx), tx) == 2_000_000_000;
    assert UserStableDebtAt(OwesOneAtTen(tx), tx) == 1;
    hide TotalStableDebtAt, StableDebtBalance, LiquidityIndexAt, VariableDebtAt,
         VariableBorrowIndexAt, RateModel.InterestRates, RateModel.UtilizationRate;
  }

  // ---------- Any step, any run ----------

  /** One admissible step, on behalf of any user, keeps the record sound and its indexes rising; all
      but a deposit leave a balanced sheet utilized at most to 100%. */
  lemma StepSound(c: Strategy, r: Reserve, u: User, s: Step)
    requires RateModel.ValidStrategy(c) && Sound(r) && Timely(r, s) && Fits(r, u, s.tx) && Allowed(r, u, s)
    ensures Sound(ReserveAfter(c, r, u, s)) && NoEarlier(r, ReserveAfter(c, r, u, s))
    ensures !s.action.Deposit? && !s.action.SetUseAsCollateral? ==>
              BalanceSheet(ReserveAfter(c, r, u, s)) && ReserveAfter(c, r, u, s).utilizationRate <= RAY
  {
    hide ReserveAfterDeposit, ReserveAfterWithdraw, ReserveAfterBorrow, ReserveAfterRepay, ReserveAfterSwapRateMode,
         ReserveAfterRebalance, AmountWithdrawn, DepositBalance, AmountRepaid, UserStableDebtAt, VariableDebtBalance,
         StableDebtAt, SwapFits, RebalanceFits;
    match s.action
    case Deposit(amount) => DepositSound(c, r, amount, s.tx);
    case Withdraw(amount) => WithdrawSound(c, r, u, amount, s.tx);
    case Borrow(amount, Stable) => BorrowStableSound(c, r, amount, s.tx, s.now);
    case Borrow(amount, Variable) => BorrowVariableSound(c, r, amount, s.tx, s.now);
    case Repay(amount, Stable, _) => RepayStableSound(c, r, u, amount, s.tx);
    case Repay(amount, Variable, _) => RepayVariableSound(c, r, u, amount, s.tx);
    case SwapRateMode(Stable) => SwapToVariableSound(c, r, u, s.tx);
    case SwapRateMode(Variable) => SwapToStableSound(c, r, u, s.tx);
    case RebalanceStableRate => RebalanceSoundIff(c, r, u, s.tx);
    case SetUseAsCollateral(_) =>
  }

  /** Whatever the pool demands, it leaves a sound record exactly when the step can be booked: nothing
      else is needed, and none of the three guards can be spared. */
  lemma StepSoundIff(c: Strategy, r: Reserve, u: User, s: Step)
    requires RateModel.ValidStrategy(c) && Sound(r) && Timely(r, s) && Fits(r, u, s.tx) && Demanded(r, u, s)
    ensures Sound(ReserveAfter(c, r, u, s)) <==> Bookable(r, u, s)
  {
    if Bookable(r, u, s) {
      StepSound(c, r, u, s);
    } else {
      match s.action
      case Repay(amount, Variable, _) => OverBurned(c, r, u, amount, s.tx);
      case SwapRateMode(Stable) => SwapSoundIff(c, r, u, s.tx);
      case RebalanceStableRate => RebalanceSoundIff(c, r, u, s.tx);
    }
    hide ReserveAfterRepay, ReserveAfterSwapRateMode, ReserveAfterRebalance, Sound, Fits, SwapFits, RebalanceFits,
         BurnedShare;
  }

  lemma OverBurned(c: Strategy, r: Reserve, u: User, amount: int, tx: int)
    requires BurnedShare(amount, r, u, tx) > r.scaledVariableDebt
    ensures ReserveAfterRepay(c, amount, Variable, r, u, tx).scaledVariableDebt < 0
    ensures !Sound(ReserveAfterRepay(c, amount, Variable, r, u, tx))
  {
    hide RayDiv, RayMul, VariableBorrowIndexAt, LiquidityIndexAt, AmountRepaid, RateModel.InterestRates,
         RateModel.UtilizationRate;
  }

  /** Depositors' yield on the whole reserve is covered by what its borrowers pay. */
  ghost predicate Solvent(c: Strategy, r: Reserve) {
    RateModel.YieldCovered(c, RateModel.Rates(r.liquidityRate, r.stableBorrowRate, r.variableBorrowRate),
                           r.totalStableDebt, r.totalVariableDebt, r.totalLiquidity, r.averageStableBorrowRate)
  }

  lemma SettledSolvent(c: Strategy, r: Reserve, tx: int, available: int, total: nat, principal: int, scaled: int,
                       average: nat, stableDebt: nat, variableDebt: nat, stableUpdated: int)
    requires RateModel.ValidStrategy(c) && r.marketStableRate >= 0
    ensures Solvent(c, Settled(c, r, tx, available, total, principal, scaled, average, stableDebt, variableDebt,
                               stableUpdated))
  {
    hide RateModel.InterestRates, RateModel.UtilizationRate, RateModel.YieldCovered, LiquidityIndexAt,
         VariableBorrowIndexAt;
    RateModel.DepositorsPaidFromBorrowers(c, r.marketStableRate, stableDebt, variableDebt, total, average);
  }

  /** Whatever is deposited, withdrawn, borrowed, repaid, swapped or rebalanced, the rates it settles
      at are solvent on the total it records; a borrow seen later still has those rates. */
  lemma StepSolvent(c: Strategy, r: Reserve, u: User, s: Step)
    requires RateModel.ValidStrategy(c) && Sound(r) && Timely(r, s) && Fits(r, u, s.tx) && Allowed(r, u, s)
    requires !s.action.SetUseAsCollateral?
    ensures Solvent(c, SettledAfter(c, r, u, s))
    ensures ReserveAfter(c, r, u, s).liquidityRate == SettledAfter(c, r, u, s).liquidityRate
  {
    var e := SettledAfter(c, r, u, s);
    StepSettles(c, r, u, s);
    SettledStepSound(c, r, u, s);
    hide SettledAfter, Settled, Solvent, Allowed, Fits;
    SettledSolvent(c, r, s.tx, e.availableLiquidity, e.totalLiquidity, e.principalStableDebt, e.scaledVariableDebt,
                   e.averageStableBorrowRate, e.totalStableDebt, e.totalVariableDebt, e.totalStableDebtLastUpdated);
  }

  /** The record that a step settles is sound, also when a borrow is only seen later. */
  lemma SettledStepSound(c: Strategy, r: Reserve, u: User, s: Step)
    requires RateModel.ValidStrategy(c) && Sound(r) && Timely(r, s) && Fits(r, u, s.tx) && Allowed(r, u, s)
    ensures Sound(SettledAfter(c, r, u, s))
  {
    hide ReserveAfter, BorrowSettled, Allowed;
    match s.action
    case Borrow(amount, mode) => BorrowSettledSound(c, r, u, s);
    case _ => StepSound(c, r, u, s);
  }

  lemma BorrowSettledSound(c: Strategy, r: Reserve, u: User, s: Step)
    requires RateModel.ValidStrategy(c) && Sound(r) && Timely(r, s) && s.action.Borrow? && Allowed(r, u, s)
    ensures Sound(BorrowSettled(c, s.action.amount, s.action.mode, r, s.tx))
  {
    hide BorrowSettled;
    match s.action
    case Borrow(amount, Stable) => BorrowStableSound(c, r, amount, s.tx, s.now);
    case Borrow(amount, Variable) => BorrowVariableSound(c, r, amount, s.tx, s.now);
  }

  /** Every action settles its record from the amounts it leaves. */
  lemma StepSettles(c: Strategy, r: Reserve, u: User, s: Step)
    requires !s.action.SetUseAsCollateral?
    ensures
      var e := SettledAfter(c, r, u, s);
      e == Settled(c, r, s.tx, e.availableLiquidity, e.totalLiquidity, e.principalStableDebt, e.scaledVariableDebt,
                   e.averageStableBorrowRate, e.totalStableDebt, e.totalVariableDebt, e.totalStableDebtLastUpdated)
    ensures ReserveAfter(c, r, u, s).liquidityRate == SettledAfter(c, r, u, s).liquidityRate
    ensures ReserveAfter(c, r, u, s).stableBorrowRate == SettledAfter(c, r, u, s).stableBorrowRate
    ensures ReserveAfter(c, r, u, s).variableBorrowRate == SettledAfter(c, r, u, s).variableBorrowRate
  {
    hide RateModel.InterestRates, RateModel.UtilizationRate, VariableDebtAt, TotalStableDebtAt, VariableBorrowIndexAt,
         LiquidityIndexAt, VariableDebtBalance, StableDebtBalance, AverageStableRate, RebalancedRate, AfterStableRepay,
         RayDiv, AmountWithdrawn, AmountRepaid;
  }

  /** A step taken on behalf of some user, whose record is read before it. */
  datatype Event = Event(user: User, step: Step)

  function RunReserve(c: Strategy, r: Reserve, events: seq<Event>): Reserve
    decreases |events|
  {
    if events == [] then r
    else RunReserve(c, ReserveAfter(c, r, events[0].user, events[0].step), events[1..])
  }

  ghost predicate Admissible(c: Strategy, r: Reserve, events: seq<Event>)
    decreases |events|
  {
    events == [] ||
    (var u, s := events[0].user, events[0].step;
     && Timely(r, s) && Fits(r, u, s.tx) && Allowed(r, u, s)
     && Admissible(c, ReserveAfter(c, r, u, s), events[1..]))
  }

  /** Over every admissible run, by any users in any order, the reserve stays sound and neither index
      ever falls. */
  lemma {:induction false} RunSound(c: Strategy, r: Reserve, events: seq<Event>)
    requires RateModel.ValidStrategy(c) && Sound(r) && Admissible(c, r, events)
    ensures Sound(RunReserve(c, r, events)) && NoEarlier(r, RunReserve(c, r, events))
    decreases |events|
  {
    hide ReserveAfter, Timely, Fits, Allowed, Sound;
    if events != [] {
      var u, s := events[0].user, events[0].step;
      StepSound(c, r, u, s);
      RunSound(c, ReserveAfter(c, r, u, s), events[1..]);
    }
  }

  /** In every admissible run, each step settles at solvent rates. */
  lemma {:induction false} RunSolvent(c: Strategy, r: Reserve, events: seq<Event>, k: nat)
    requires RateModel.ValidStrategy(c) && Sound(r) && Admissible(c, r, events)
    requires k < |events| && !events[k].step.action.SetUseAsCollateral?
    ensures Solvent(c, SettledAfter(c, RunReserve(c, r, events[..k]), events[k].user, events[k].step))
    decreases |events|
  {
    hide ReserveAfter, SettledAfter, Timely, Fits, Allowed, Sound, Solvent;
    var u, s := events[0].user, events[0].step;
    if k == 0 {
      StepSolvent(c, r, u, s);
    } else {
      StepSound(c, r, u, s);
      RunSolvent(c, ReserveAfter(c, r, u, s), events[1..], k - 1);
      assert events[..k][1..] == events[1..][..k - 1];
    }
  }
}
