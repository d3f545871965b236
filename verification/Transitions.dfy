/** What each action does to the reserve record and to the acting user's record. The two sides are
    separate definitions, as they are in the scenarios: nothing here shares a computed amount. */
module Transitions {
  import opened RayMath
  import opened Accounting
  import RateModel

  type Strategy = RateModel.Strategy

  // ---------- Reserve ----------

  /** A record settled at tx: rates follow from the utilization of the given debts and total. The
      timestamps complete what some of the source's records leave unfilled. */
  function Settled(c: Strategy, r: Reserve, tx: int, available: int, total: int,
                   principal: int, scaled: int, average: int,
                   stableDebt: int, variableDebt: int, stableUpdated: int): Reserve
  {
    var u := RateModel.UtilizationRate(stableDebt, variableDebt, total);
    var rates := RateModel.InterestRates(c, r.marketStableRate, u, stableDebt, variableDebt, average);
    Reserve(total, available, stableDebt, variableDebt, principal, scaled, average,
            rates.variable, rates.stable, u,
            LiquidityIndexAt(r, tx), VariableBorrowIndexAt(r, tx), rates.liquidity,
            r.marketStableRate, tx, stableUpdated)
  }

  /** Settled with the total made of what is held and what is lent. */
  function Balanced(c: Strategy, r: Reserve, tx: int, available: int,
                    principal: int, scaled: int, average: int,
                    stableDebt: int, variableDebt: int, stableUpdated: int): Reserve
  {
    Settled(c, r, tx, available, available + stableDebt + variableDebt,
            principal, scaled, average, stableDebt, variableDebt, stableUpdated)
  }

  /** The same record seen later: the debts have grown, the rates have not moved. */
  function SeenWith(r: Reserve, stableDebt: int, variableDebt: int): Reserve {
    var total := r.availableLiquidity + stableDebt + variableDebt;
    r.(totalStableDebt := stableDebt, totalVariableDebt := variableDebt, totalLiquidity := total,
       utilizationRate := RateModel.UtilizationRate(stableDebt, variableDebt, total))
  }

  function StableDebtAt(r: Reserve, now: int): int {
    TotalStableDebtAt(r.principalStableDebt, r.averageStableBorrowRate, r.totalStableDebtLastUpdated, now)
  }

  function UserStableDebtAt(u: User, now: int): int {
    StableDebtBalance(u.principalStableDebt, u.stableBorrowRate, u.stableRateLastUpdated, now)
  }

  function VariableDebtAt(r: Reserve, scaled: int, tx: int): int {
    RayMul(scaled, VariableBorrowIndexAt(r, tx))
  }

  function ReserveAfterDeposit(c: Strategy, amount: int, r: Reserve, tx: int): Reserve {
    // the recorded total is not re-accrued: only the amount is added to it
    Settled(c, r, tx, r.availableLiquidity + amount, r.totalLiquidity + amount,
            r.principalStableDebt, r.scaledVariableDebt, r.averageStableBorrowRate,
            StableDebtAt(r, tx), VariableDebtAt(r, r.scaledVariableDebt, tx), r.totalStableDebtLastUpdated)
  }

  function AmountWithdrawn(amount: int, r: Reserve, u: User, tx: int): int {
    if amount == MAX_UINT_AMOUNT then DepositBalance(r, u.scaledDepositBalance, tx) else amount
  }

  function ReserveAfterWithdraw(c: Strategy, amount: int, r: Reserve, u: User, tx: int): Reserve {
    Balanced(c, r, tx, r.availableLiquidity - AmountWithdrawn(amount, r, u, tx),
             r.principalStableDebt, r.scaledVariableDebt, r.averageStableBorrowRate,
             StableDebtAt(r, tx), VariableDebtAt(r, r.scaledVariableDebt, tx), r.totalStableDebtLastUpdated)
  }

  /** The reserve as a borrow is mined: the debts and the total that its new rates follow from. */
  function BorrowSettled(c: Strategy, amount: int, mode: RateMode, r: Reserve, tx: int): Reserve {
    var available := r.availableLiquidity - amount;
    match mode
    case Stable =>
      var before := StableDebtAt(r, tx);
      var average := AverageStableRate(r.averageStableBorrowRate, before, amount, r.stableBorrowRate);
      Balanced(c, r, tx, available, before + amount, r.scaledVariableDebt, average,
               before + amount, VariableDebtAt(r, r.scaledVariableDebt, tx), tx)
    case Variable =>
      var scaled := r.scaledVariableDebt + RayDiv(amount, VariableBorrowIndexAt(r, tx));
      var stable := StableDebtBalance(r.principalStableDebt, r.averageStableBorrowRate,
                                      r.totalStableDebtLastUpdated, tx);
      Balanced(c, r, tx, available, r.principalStableDebt, scaled, r.averageStableBorrowRate,
               stable, VariableDebtAt(r, scaled, tx), r.totalStableDebtLastUpdated)
  }

  /** A borrow is settled as it is mined, and observed with the debts it has grown to by now. */
  function ReserveAfterBorrow(c: Strategy, amount: int, mode: RateMode, r: Reserve, tx: int, now: int): Reserve {
    var settled := BorrowSettled(c, amount, mode, r, tx);
    SeenWith(settled, StableDebtAt(settled, now), VariableDebtBalance(settled, settled.scaledVariableDebt, now))
  }

  function AmountRepaid(amount: int, mode: RateMode, r: Reserve, u: User, at: int): int {
    if amount == MAX_UINT_AMOUNT || amount == -MAX_UINT_AMOUNT then
      if mode == Stable then UserStableDebtAt(u, at) else VariableDebtBalance(r, u.scaledVariableDebt, at)
    else amount
  }

  /** Total stable debt and average rate left by a stable repayment. Two clamps absorb accumulated
      rounding: a negative debt, and a negative average, are both erased together with the rest. */
  function AfterStableRepay(total: int, average: int, repaid: int, rate: int): (int, int) {
    if total - repaid < 0 then (0, 0) else
      var left := AverageStableRate(average, total, -repaid, rate);
      if left < 0 then (0, 0) else (total - repaid, left)
  }

  function ReserveAfterRepay(c: Strategy, amount: int, mode: RateMode, r: Reserve, u: User, tx: int): Reserve {
    var repaid := AmountRepaid(amount, mode, r, u, tx);
    var available := r.availableLiquidity + repaid;
    match mode
    case Stable =>
      var (stable, average) := AfterStableRepay(StableDebtAt(r, tx), r.averageStableBorrowRate, repaid, u.stableBorrowRate);
      Balanced(c, r, tx, available, stable, r.scaledVariableDebt, average,
               stable, VariableDebtAt(r, r.scaledVariableDebt, tx), tx)
    case Variable =>
      var scaled := r.scaledVariableDebt - RayDiv(repaid, VariableBorrowIndexAt(r, tx));
      // the recorded stable debt is not re-accrued
      Balanced(c, r, tx, available, r.principalStableDebt, scaled, r.averageStableBorrowRate,
               r.totalStableDebt, VariableDebtAt(r, scaled, tx), r.totalStableDebtLastUpdated)
  }

  function ReserveAfterSwapRateMode(c: Strategy, r: Reserve, u: User, mode: RateMode, tx: int): Reserve {
    var index := VariableBorrowIndexAt(r, tx);
    match mode
    case Stable =>
      var moved := UserStableDebtAt(u, tx);
      var scaled := r.scaledVariableDebt + RayDiv(moved, index);
      var stable := StableDebtAt(r, tx) - moved;
      var average := AverageStableRate(r.averageStableBorrowRate, stable + moved, -moved, u.stableBorrowRate);
      Balanced(c, r, tx, r.availableLiquidity, stable, scaled, average, stable, VariableDebtAt(r, scaled, tx), tx)
    case Variable =>
      var moved := VariableDebtBalance(r, u.scaledVariableDebt, tx);
      var scaled := r.scaledVariableDebt - RayDiv(moved, index);
      var stable := StableDebtAt(r, tx) + moved;
      // the average is taken over the recorded stable debt, not the accrued one
      var average := AverageStableRate(r.averageStableBorrowRate, r.totalStableDebt, moved, r.stableBorrowRate);
      Balanced(c, r, tx, r.availableLiquidity, stable, scaled, average, stable, VariableDebtAt(r, scaled, tx), tx)
  }

  function ReserveAfterRebalance(c: Strategy, r: Reserve, u: User, tx: int): Reserve {
    var own := UserStableDebtAt(u, tx);
    var stable := StableDebtAt(r, tx);
    var without := RebalancedRate(r.averageStableBorrowRate, stable, -own, u.stableBorrowRate);
    var average := RebalancedRate(without, stable - own, own, r.stableBorrowRate);
    Balanced(c, r, tx, r.availableLiquidity, stable, r.scaledVariableDebt, average,
             stable, VariableDebtAt(r, r.scaledVariableDebt, tx), tx)
  }

  // ---------- User ----------

  function UserAfterDeposit(amount: int, r: Reserve, after: Reserve, u: User, tx: int): User {
    var variable := VariableDebtBalance(r, u.scaledVariableDebt, tx);
    u.(scaledDepositBalance := ScaledDeposit(u.scaledDepositBalance, after.liquidityIndex, amount, 0),
       currentDepositBalance := DepositBalance(r, u.scaledDepositBalance, tx) + amount,
       currentStableDebt := UserStableDebtAt(u, tx),
       currentVariableDebt := variable,
       principalStableDebt := variable, // overwritten by a chained assignment
       liquidityRate := after.liquidityRate,
       usageAsCollateralEnabled := u.currentDepositBalance == 0 || u.usageAsCollateralEnabled,
       walletBalance := u.walletBalance - amount)
  }

  function UserAfterWithdraw(amount: int, r: Reserve, after: Reserve, u: User, tx: int): User {
    var balance := DepositBalance(r, u.scaledDepositBalance, tx);
    var withdrawn := AmountWithdrawn(amount, r, u, tx);
    u.(scaledDepositBalance := ScaledDeposit(u.scaledDepositBalance, after.liquidityIndex, 0, withdrawn),
       currentDepositBalance := balance - withdrawn,
       currentStableDebt := UserStableDebtAt(u, tx),
       currentVariableDebt := VariableDebtBalance(r, u.scaledVariableDebt, tx),
       liquidityRate := after.liquidityRate,
       usageAsCollateralEnabled :=
         u.currentDepositBalance == 0 || (balance - withdrawn != 0 && u.usageAsCollateralEnabled),
       walletBalance := u.walletBalance + withdrawn)
  }

  function UserAfterBorrow(amount: int, mode: RateMode, r: Reserve, after: Reserve, u: User, tx: int, now: int): User {
    var taken := match mode
      case Stable =>
        var before := UserStableDebtAt(u, tx);
        var rate := UserStableRate(before, u.stableBorrowRate, amount, r.stableBorrowRate);
        u.(principalStableDebt := before + amount, stableBorrowRate := rate, stableRateLastUpdated := tx)
      case Variable =>
        // counted from the reserve's scaled debt, not from the user's own
        u.(scaledVariableDebt := r.scaledVariableDebt + RayDiv(amount, after.variableBorrowIndex));
    taken.(currentStableDebt := UserStableDebtAt(taken, now),
           currentVariableDebt := VariableDebtBalance(after, taken.scaledVariableDebt, now),
           currentDepositBalance := DepositBalance(after, u.scaledDepositBalance, now),
           liquidityRate := after.liquidityRate,
           walletBalance := u.walletBalance + amount)
  }

  function UserAfterRepay(amount: int, mode: RateMode, r: Reserve, after: Reserve, u: User,
                          paysOwnDebt: bool, tx: int, now: int): User
  {
    var repaid := AmountRepaid(amount, mode, r, u, now);
    var stable := UserStableDebtAt(u, now);
    var left := match mode
      case Stable =>
        var done := stable - repaid == 0;
        u.(currentVariableDebt := VariableDebtBalance(r, u.scaledVariableDebt, now),
           principalStableDebt := stable - repaid,
           currentStableDebt := stable - repaid,
           stableBorrowRate := if done then 0 else u.stableBorrowRate,
           stableRateLastUpdated := if done then 0 else tx)
      case Variable =>
        var scaled := u.scaledVariableDebt - RayDiv(repaid, after.variableBorrowIndex);
        // principal and current stable debt trade places
        u.(currentStableDebt := u.principalStableDebt,
           principalStableDebt := stable,
           scaledVariableDebt := scaled,
           currentVariableDebt := RayMul(scaled, after.variableBorrowIndex));
    left.(liquidityRate := after.liquidityRate,
          currentDepositBalance := DepositBalance(r, u.scaledDepositBalance, tx),
          walletBalance := if paysOwnDebt then u.walletBalance - repaid else u.walletBalance)
  }

  function UserAfterSetUseAsCollateral(use: bool, u: User): User {
    u.(usageAsCollateralEnabled := use)
  }

  function UserAfterSwapRateMode(r: Reserve, after: Reserve, u: User, mode: RateMode, tx: int): User {
    var stable := UserStableDebtAt(u, tx);
    var variable := VariableDebtBalance(r, u.scaledVariableDebt, tx);
    var swapped := match mode
      case Stable =>
        var scaled := u.scaledVariableDebt + RayDiv(stable, after.variableBorrowIndex);
        u.(currentStableDebt := 0, principalStableDebt := 0, stableBorrowRate := 0, stableRateLastUpdated := 0,
           scaledVariableDebt := scaled, currentVariableDebt := RayMul(scaled, after.variableBorrowIndex))
      case Variable =>
        // the recorded stable debt is not re-accrued
        u.(currentStableDebt := u.currentStableDebt + variable,
           principalStableDebt := u.currentStableDebt + variable,
           stableBorrowRate := UserStableRate(stable, u.stableBorrowRate, variable, r.stableBorrowRate),
           stableRateLastUpdated := tx,
           scaledVariableDebt := 0, currentVariableDebt := 0);
    swapped.(currentDepositBalance := DepositBalance(r, u.scaledDepositBalance, tx),
             liquidityRate := after.liquidityRate)
  }

  function UserAfterRebalance(r: Reserve, after: Reserve, u: User, tx: int): User {
    var stable := UserStableDebtAt(u, tx);
    u.(currentStableDebt := stable,
       principalStableDebt := stable,
       currentVariableDebt := VariableDebtBalance(r, u.scaledVariableDebt, tx),
       stableRateLastUpdated := tx,
       stableBorrowRate := after.averageStableBorrowRate,
       liquidityRate := after.liquidityRate,
       currentDepositBalance := DepositBalance(r, u.scaledDepositBalance, tx))
  }

  // ---------- One step ----------

  datatype Action =
    | Deposit(amount: nat)
    | Withdraw(amount: nat)
    | Borrow(amount: nat, mode: RateMode)
    | Repay(amount: nat, mode: RateMode, paysOwn: bool)
    | SwapRateMode(mode: RateMode)
    | RebalanceStableRate
    | SetUseAsCollateral(use: bool)

  /** An action mined at tx and observed at now. A repayment may be paid for by somebody else. */
  datatype Step = Step(action: Action, tx: nat, now: nat)

  function ReserveAfter(c: Strategy, r: Reserve, u: User, s: Step): Reserve {
    match s.action
    case Deposit(amount) => ReserveAfterDeposit(c, amount, r, s.tx)
    case Withdraw(amount) => ReserveAfterWithdraw(c, amount, r, u, s.tx)
    case Borrow(amount, mode) => ReserveAfterBorrow(c, amount, mode, r, s.tx, s.now)
    case Repay(amount, mode, _) => ReserveAfterRepay(c, amount, mode, r, u, s.tx)
    case SwapRateMode(mode) => ReserveAfterSwapRateMode(c, r, u, mode, s.tx)
    case RebalanceStableRate => ReserveAfterRebalance(c, r, u, s.tx)
    case SetUseAsCollateral(_) => r
  }

  /** The record that a step's new rates are settled from. */
  function SettledAfter(c: Strategy, r: Reserve, u: User, s: Step): Reserve {
    match s.action
    case Borrow(amount, mode) => BorrowSettled(c, amount, mode, r, s.tx)
    case _ => ReserveAfter(c, r, u, s)
  }

  function UserAfter(c: Strategy, r: Reserve, u: User, s: Step): User {
    var after := ReserveAfter(c, r, u, s);
    match s.action
    case Deposit(amount) => UserAfterDeposit(amount, r, after, u, s.tx)
    case Withdraw(amount) => UserAfterWithdraw(amount, r, after, u, s.tx)
    case Borrow(amount, mode) => UserAfterBorrow(amount, mode, r, after, u, s.tx, s.now)
    case Repay(amount, mode, paysOwn) => UserAfterRepay(amount, mode, r, after, u, paysOwn, s.tx, s.now)
    case SwapRateMode(mode) => UserAfterSwapRateMode(r, after, u, mode, s.tx)
    case RebalanceStableRate => UserAfterRebalance(r, after, u, s.tx)
    case SetUseAsCollateral(use) => UserAfterSetUseAsCollateral(use, u)
  }
}
