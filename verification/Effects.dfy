/** What each action does to the reserve and to the acting user, told in its amount, in the debts accrued
    until it, and in the contracts' own rates. */
module Effects {
  import opened RayMath
  import opened Accounting
  import opened Transitions
  import opened Soundness
  import opened Backing
  import ContractMatch
  import Exits
  import Ledgers
  import Pool
  import RateModel
  import StableTwin

  // ---------- Rates ----------

  /** The contract's rates, from the utilization and the debts that a record shows. */
  ghost predicate AtContractRates(c: Strategy, e: Reserve)
    requires RateModel.ValidStrategy(c)
  {
    && 0 <= e.totalStableDebt && 0 <= e.totalVariableDebt && 0 <= e.averageStableBorrowRate
    && 0 <= e.totalLiquidity && 0 <= e.utilizationRate && 0 <= e.marketStableRate && 0 <= e.variableBorrowRate
    && (var debt := e.totalStableDebt + e.totalVariableDebt;
        && (debt == 0 ==> e.utilizationRate == 0)
        && (debt != 0 ==> e.totalLiquidity != 0
                          && e.utilizationRate == ContractMatch.ContractRayDiv(debt, e.totalLiquidity)))
    && e.stableBorrowRate == ContractMatch.ContractStableRate(c, e.marketStableRate, e.utilizationRate)
    && e.variableBorrowRate == RateModel.VariableRate(c, e.utilizationRate)
    && (var overall := ContractMatch.ContractOverallRate(e.totalStableDebt, e.totalVariableDebt, e.variableBorrowRate,
                                                         e.averageStableBorrowRate);
        e.liquidityRate == ContractMatch.ContractPercentMul(ContractMatch.ContractRayMul(overall, e.utilizationRate),
                                                            PERCENTAGE_FACTOR - c.reserveFactor))
  }

  /** Every action settles its record at the contract's rates for what it shows, and a borrow seen later
      still has the three of them. */
  lemma SettlesAtContractRates(c: Strategy, r: Reserve, u: User, s: Step)
    requires RateModel.ValidStrategy(c) && Sound(r) && Timely(r, s) && Fits(r, u, s.tx) && Allowed(r, u, s)
    requires !s.action.SetUseAsCollateral?
    ensures AtContractRates(c, SettledAfter(c, r, u, s))
    ensures
      var e, seen := SettledAfter(c, r, u, s), ReserveAfter(c, r, u, s);
      && e.marketStableRate == seen.marketStableRate == r.marketStableRate
      && seen.stableBorrowRate == e.stableBorrowRate && seen.variableBorrowRate == e.variableBorrowRate
      && seen.liquidityRate == e.liquidityRate
  {
    StepSettles(c, r, u, s);
    SettledStepSound(c, r, u, s);
    StepMarket(c, r, u, s);
    var e := SettledAfter(c, r, u, s);
    hide SettledAfter, ReserveAfter, Allowed, Fits, AtContractRates;
    SettledAtContractRates(c, r, s.tx, e);
  }

  lemma StepMarket(c: Strategy, r: Reserve, u: User, s: Step)
    ensures SettledAfter(c, r, u, s).marketStableRate == ReserveAfter(c, r, u, s).marketStableRate == r.marketStableRate
  {
    hide RateModel.InterestRates, RateModel.UtilizationRate, VariableDebtAt, TotalStableDebtAt, VariableBorrowIndexAt,
         LiquidityIndexAt, VariableDebtBalance, StableDebtBalance, AverageStableRate, RebalancedRate, AfterStableRepay,
         RayDiv, AmountWithdrawn, AmountRepaid;
  }

  lemma SettledAtContractRates(c: Strategy, r: Reserve, tx: int, e: Reserve)
    requires RateModel.ValidStrategy(c) && Sound(e)
    requires e == Settled(c, r, tx, e.availableLiquidity, e.totalLiquidity, e.principalStableDebt, e.scaledVariableDebt,
                          e.averageStableBorrowRate, e.totalStableDebt, e.totalVariableDebt, e.totalStableDebtLastUpdated)
    ensures AtContractRates(c, e)
  {
    hide RateModel.VariableRate, RateModel.StableRate, RateModel.OverallBorrowRate, ContractMatch.ContractStableRate,
         ContractMatch.ContractOverallRate, ContractMatch.ContractRayDiv, ContractMatch.ContractRayMul,
         ContractMatch.ContractPercentMul, RayMul, RayDiv, PercentMul, LiquidityIndexAt, VariableBorrowIndexAt;
    var debt := e.totalStableDebt + e.totalVariableDebt;
    if debt != 0 { ContractMatch.RayDivMatches(debt, e.totalLiquidity); }
    ContractMatch.StableRateMatches(c, e.marketStableRate, e.utilizationRate);
    ContractMatch.OverallRateMatches(e.totalStableDebt, e.totalVariableDebt, e.variableBorrowRate,
                                     e.averageStableBorrowRate);
    var overall := ContractMatch.ContractOverallRate(e.totalStableDebt, e.totalVariableDebt, e.variableBorrowRate,
                                                     e.averageStableBorrowRate);
    ContractMatch.RayMulMatches(overall, e.utilizationRate);
    ContractMatch.PercentMulMatches(ContractMatch.ContractRayMul(overall, e.utilizationRate),
                                    PERCENTAGE_FACTOR - c.reserveFactor);
  }

  // ---------- What stays ----------

  ghost predicate SameVariableDebt(e: Reserve, r: Reserve, tx: int) {
    && e.scaledVariableDebt == r.scaledVariableDebt
    && e.totalVariableDebt == RayMul(r.scaledVariableDebt, VariableBorrowIndexAt(r, tx))
  }

  /** The stable debt as it was, accrued until now. */
  ghost predicate StableAccrued(e: Reserve, r: Reserve, tx: int) {
    SameLoan(e, r) && e.totalStableDebt == StableDebtAt(r, tx)
  }

  /** A new stable principal, dated now. */
  ghost predicate StableRewritten(e: Reserve, principal: int, tx: int) {
    e.principalStableDebt == principal && e.totalStableDebt == principal && e.totalStableDebtLastUpdated == tx
  }

  ghost predicate SameUserDebts(u': User, u: User) {
    && u'.scaledVariableDebt == u.scaledVariableDebt
    && u'.stableBorrowRate == u.stableBorrowRate && u'.stableRateLastUpdated == u.stableRateLastUpdated
  }

  /** The deposit is untouched and shown at the index just booked. */
  ghost predicate DepositShown(r: Reserve, u: User, u': User, tx: int) {
    && u'.scaledDepositBalance == u.scaledDepositBalance
    && u'.currentDepositBalance == RayMul(u.scaledDepositBalance, LiquidityIndexAt(r, tx))
  }

  /** A mean of weights over a debt, cut to whole units. */
  ghost predicate IsMean(average: int, weighed: int, debt: int) {
    -debt < weighed - average * debt < debt && (weighed >= 0 ==> average * debt <= weighed)
  }

  lemma MeanTruncates(average: int, total: int, change: int, rate: int)
    requires total + change > 0
    ensures IsMean(AverageStableRate(average, total, change, rate), average * total + rate * change, total + change)
  {
    var debt := total + change;
    TruncDivBounds(average * total + rate * change, debt);
    var q := TruncDiv(average * total + rate * change, debt);
    assert debt * q == q * debt;
    hide TruncDiv;
  }

  // ---------- Deposit and withdrawal ----------

  lemma DepositEffect(c: Strategy, r: Reserve, u: User, amount: nat, tx: int)
    requires Sound(r) && r.lastUpdateTimestamp <= tx
    ensures
      var e := ReserveAfterDeposit(c, amount, r, tx);
      var u' := UserAfterDeposit(amount, r, e, u, tx);
      && e.availableLiquidity == r.availableLiquidity + amount && e.totalLiquidity == r.totalLiquidity + amount
      && SameVariableDebt(e, r, tx) && StableAccrued(e, r, tx)
      && u'.walletBalance == u.walletBalance - amount
      && u'.scaledDepositBalance == u.scaledDepositBalance + RayDiv(amount, LiquidityIndexAt(r, tx))
      && u'.currentDepositBalance == RayMul(u.scaledDepositBalance, LiquidityIndexAt(r, tx)) + amount
      && SameUserDebts(u', u) && u'.currentStableDebt == UserStableDebtAt(u, tx)
      && u'.principalStableDebt == u'.currentVariableDebt == VariableDebtBalance(r, u.scaledVariableDebt, tx)
      && u'.liquidityRate == e.liquidityRate
      && (u'.usageAsCollateralEnabled <==> u.currentDepositBalance == 0 || u.usageAsCollateralEnabled)
  {
    IncomeShown(r, tx);
    RayDivZero(LiquidityIndexAt(r, tx));
    hide RayMul, RayDiv, LiquidityIndexAt, VariableBorrowIndexAt, NormalizedIncome, NormalizedDebt, StableDebtBalance,
         TotalStableDebtAt, RateModel.InterestRates, RateModel.UtilizationRate;
  }

  lemma IncomeShown(r: Reserve, tx: int)
    requires Sound(r) && r.lastUpdateTimestamp <= tx
    ensures NormalizedIncome(r, tx) == LiquidityIndexAt(r, tx) >= RAY
  {
    IncomeIsNextIndex(r);
    IndexesAtLeastOne(r, tx);
    hide NormalizedIncome, LiquidityIndexAt;
  }

  /** A withdrawal pays what it says, out of the reserve, into the wallet and off the balance shown. */
  lemma WithdrawEffect(c: Strategy, r: Reserve, u: User, amount: nat, tx: int)
    requires Sound(r) && r.lastUpdateTimestamp <= tx && amount != MAX_UINT_AMOUNT
    ensures
      var e := ReserveAfterWithdraw(c, amount, r, u, tx);
      var u' := UserAfterWithdraw(amount, r, e, u, tx);
      var shown := RayMul(u.scaledDepositBalance, LiquidityIndexAt(r, tx));
      && e.availableLiquidity == r.availableLiquidity - amount
      && SameVariableDebt(e, r, tx) && StableAccrued(e, r, tx)
      && u'.walletBalance == u.walletBalance + amount
      && u'.scaledDepositBalance == u.scaledDepositBalance - RayDiv(amount, LiquidityIndexAt(r, tx))
      && u'.currentDepositBalance == shown - amount
      && SameUserDebts(u', u) && u'.currentStableDebt == UserStableDebtAt(u, tx)
      && u'.currentVariableDebt == VariableDebtBalance(r, u.scaledVariableDebt, tx)
      && u'.principalStableDebt == u.principalStableDebt && u'.liquidityRate == e.liquidityRate
      && (u'.usageAsCollateralEnabled <==> u.currentDepositBalance == 0 || (shown != amount && u.usageAsCollateralEnabled))
  {
    IncomeShown(r, tx);
    RayDivZero(LiquidityIndexAt(r, tx));
    hide RayMul, RayDiv, LiquidityIndexAt, VariableBorrowIndexAt, NormalizedIncome, NormalizedDebt, StableDebtBalance,
         TotalStableDebtAt, RateModel.InterestRates, RateModel.UtilizationRate;
  }

  // ---------- Borrow ----------

  /** A borrow of either kind pays the user the amount and leaves the deposit, shown at the income that
      it has grown to when seen. */
  lemma BorrowEffect(c: Strategy, r: Reserve, u: User, amount: nat, mode: RateMode, tx: int, now: int)
    ensures
      var e := ReserveAfterBorrow(c, amount, mode, r, tx, now);
      var u' := UserAfterBorrow(amount, mode, r, e, u, tx, now);
      && e.availableLiquidity == r.availableLiquidity - amount
      && u'.walletBalance == u.walletBalance + amount
      && u'.scaledDepositBalance == u.scaledDepositBalance
      && u'.currentDepositBalance == RayMul(u.scaledDepositBalance, NormalizedIncome(e, now))
      && u'.liquidityRate == e.liquidityRate && u'.usageAsCollateralEnabled == u.usageAsCollateralEnabled
      && e.totalStableDebt == StableDebtAt(e, now) && u'.currentStableDebt == UserStableDebtAt(u', now)
      && e.totalVariableDebt
         == RayMul(e.scaledVariableDebt, NormalizedDebt(e.variableBorrowRate, e.variableBorrowIndex, tx, now))
      && u'.currentVariableDebt
         == RayMul(u'.scaledVariableDebt, NormalizedDebt(e.variableBorrowRate, e.variableBorrowIndex, tx, now))
      && match mode
         case Variable =>
           && e.scaledVariableDebt == u'.scaledVariableDebt
              == r.scaledVariableDebt + RayDiv(amount, VariableBorrowIndexAt(r, tx))
           && SameLoan(e, r)
           && u'.principalStableDebt == u.principalStableDebt && u'.stableBorrowRate == u.stableBorrowRate
           && u'.stableRateLastUpdated == u.stableRateLastUpdated
         case Stable =>
           && e.scaledVariableDebt == r.scaledVariableDebt && u'.scaledVariableDebt == u.scaledVariableDebt
           && e.principalStableDebt == StableDebtAt(r, tx) + amount && e.totalStableDebtLastUpdated == tx
           && u'.principalStableDebt == UserStableDebtAt(u, tx) + amount && u'.stableRateLastUpdated == tx
  {
    hide RayMul, RayDiv, LiquidityIndexAt, VariableBorrowIndexAt, NormalizedIncome, NormalizedDebt, StableDebtBalance,
         TotalStableDebtAt, RateModel.InterestRates, RateModel.UtilizationRate, AverageStableRate, UserStableRate;
  }

  /** The rates of a borrow follow from all of the debt as it is mined, the amount included; what is shown
      of it later is a balanced sheet, utilized by what the debt has grown to. */
  lemma BorrowSettles(c: Strategy, r: Reserve, u: User, s: Step)
    requires RateModel.ValidStrategy(c) && Sound(r) && Timely(r, s) && Fits(r, u, s.tx) && Allowed(r, u, s)
    requires s.action.Borrow?
    ensures
      var e, amount := SettledAfter(c, r, u, s), s.action.amount;
      && e.availableLiquidity == r.availableLiquidity - amount && BalanceSheet(e)
      && e.totalVariableDebt == RayMul(e.scaledVariableDebt, VariableBorrowIndexAt(r, s.tx))
      && (s.action.mode == Stable ==> e.totalStableDebt == StableDebtAt(r, s.tx) + amount
                                      && e.scaledVariableDebt == r.scaledVariableDebt)
      && (s.action.mode == Variable && r.totalStableDebtLastUpdated != 0 ==> e.totalStableDebt == StableDebtAt(r, s.tx))
    ensures
      var seen := ReserveAfter(c, r, u, s);
      var debt := seen.totalStableDebt + seen.totalVariableDebt;
      && BalanceSheet(seen) && seen.totalLiquidity >= debt >= 0
      && (debt == 0 ==> seen.utilizationRate == 0)
      && (debt > 0 ==> seen.utilizationRate == ContractMatch.ContractRayDiv(debt, seen.totalLiquidity))
  {
    BorrowShown(c, r, s.action.amount, s.action.mode, s.tx, s.now);
    StepSound(c, r, u, s);
    DebtsAt(r, r.scaledVariableDebt, s.tx);
    BorrowAmounts(c, r, u, s);
    if s.action.mode == Variable && r.totalStableDebtLastUpdated != 0 { Pool.ShortCutsAgree(r, u, s.tx); }
    var seen := ReserveAfter(c, r, u, s);
    if seen.totalStableDebt + seen.totalVariableDebt > 0 {
      ContractMatch.RayDivMatches(seen.totalStableDebt + seen.totalVariableDebt, seen.totalLiquidity);
    }
    hide ReserveAfter, RayMul, RayDiv, ContractMatch.ContractRayDiv, LiquidityIndexAt, VariableBorrowIndexAt,
         StableDebtBalance, TotalStableDebtAt, AverageStableRate, RateModel.InterestRates, NormalizedDebt;
  }

  lemma BorrowShown(c: Strategy, r: Reserve, amount: int, mode: RateMode, tx: int, now: int)
    ensures
      var seen := ReserveAfterBorrow(c, amount, mode, r, tx, now);
      var debt := seen.totalStableDebt + seen.totalVariableDebt;
      seen.utilizationRate == if seen.totalStableDebt == 0 && seen.totalVariableDebt == 0 then 0
                              else RayDiv(debt, seen.totalLiquidity)
  {
    hide RayMul, RayDiv, LiquidityIndexAt, VariableBorrowIndexAt, StableDebtBalance, TotalStableDebtAt, AverageStableRate,
         RateModel.InterestRates, NormalizedDebt;
  }

  /** A stable borrow averages its loan in at the rate offered before it, on both sides. */
  lemma StableBorrowAverages(c: Strategy, r: Reserve, u: User, amount: nat, tx: int, now: int)
    requires Sound(r) && r.lastUpdateTimestamp <= tx && Fits(r, u, tx) && amount > 0
    ensures
      var e := ReserveAfterBorrow(c, amount, Stable, r, tx, now);
      var u' := UserAfterBorrow(amount, Stable, r, e, u, tx, now);
      var total, own := StableDebtAt(r, tx), UserStableDebtAt(u, tx);
      && IsMean(e.averageStableBorrowRate, r.averageStableBorrowRate * total + r.stableBorrowRate * amount, total + amount)
      && IsMean(u'.stableBorrowRate, u.stableBorrowRate * own + r.stableBorrowRate * amount, own + amount)
  {
    var total, own := StableDebtAt(r, tx), UserStableDebtAt(u, tx);
    DebtsAt(r, 0, tx);
    UserDebtsAt(r, u, tx);
    MeanTruncates(r.averageStableBorrowRate, total, amount, r.stableBorrowRate);
    MeanTruncates(u.stableBorrowRate, own, amount, r.stableBorrowRate);
    StableTwin.SameAverage(own, u.stableBorrowRate, amount, r.stableBorrowRate);
    hide RayMul, RayDiv, LiquidityIndexAt, VariableBorrowIndexAt, NormalizedIncome, NormalizedDebt, StableDebtBalance,
         TotalStableDebtAt, RateModel.InterestRates, RateModel.UtilizationRate, AverageStableRate, UserStableRate, IsMean;
  }

  // ---------- Repayment ----------

  /** A repayment takes what it says from whoever pays, and reaches the reserve whole. */
  lemma RepayEffect(c: Strategy, r: Reserve, u: User, amount: nat, mode: RateMode, paysOwn: bool, tx: int, now: int)
    requires Sound(r) && r.lastUpdateTimestamp <= tx && amount != MAX_UINT_AMOUNT
    ensures
      var e := ReserveAfterRepay(c, amount, mode, r, u, tx);
      var u' := UserAfterRepay(amount, mode, r, e, u, paysOwn, tx, now);
      && e.availableLiquidity == r.availableLiquidity + amount
      && u'.walletBalance == (if paysOwn then u.walletBalance - amount else u.walletBalance)
      && DepositShown(r, u, u', tx)
      && u'.liquidityRate == e.liquidityRate && u'.usageAsCollateralEnabled == u.usageAsCollateralEnabled
      && match mode
         case Stable => StableRepaid(r, e, u, u', amount, tx, now)
         case Variable =>
           var burned := RayDiv(amount, VariableBorrowIndexAt(r, tx));
           && e.scaledVariableDebt == r.scaledVariableDebt - burned
           && u'.scaledVariableDebt == u.scaledVariableDebt - burned
           && SameLoan(e, r) && e.totalStableDebt == r.totalStableDebt
           && u'.principalStableDebt == UserStableDebtAt(u, now) && u'.currentStableDebt == u.principalStableDebt
           && u'.stableBorrowRate == u.stableBorrowRate && u'.stableRateLastUpdated == u.stableRateLastUpdated
  {
    IncomeShown(r, tx);
    if mode == Stable { StableRepayClamps(StableDebtAt(r, tx), r.averageStableBorrowRate, amount, u.stableBorrowRate); }
    hide RayMul, RayDiv, LiquidityIndexAt, VariableBorrowIndexAt, NormalizedIncome, NormalizedDebt, StableDebtBalance,
         TotalStableDebtAt, RateModel.InterestRates, RateModel.UtilizationRate, AfterStableRepay, IsMean;
  }

  /** The reserve's total drops by what is paid at the mean of the loans left; it is erased together with
      the average once it would be negative, or the average would. The user's loan drops by as much. */
  ghost predicate StableRepaid(r: Reserve, e: Reserve, u: User, u': User, repaid: int, tx: int, now: int) {
    var total, own := StableDebtAt(r, tx), UserStableDebtAt(u, now);
    var weighed := r.averageStableBorrowRate * total - u.stableBorrowRate * repaid;
    && (if total <= repaid || weighed <= repaid - total
        then StableRewritten(e, 0, tx) && e.averageStableBorrowRate == 0
        else StableRewritten(e, total - repaid, tx) && IsMean(e.averageStableBorrowRate, weighed, total - repaid))
    && SameVariableDebt(e, r, tx)
    && u'.principalStableDebt == u'.currentStableDebt == own - repaid && u'.scaledVariableDebt == u.scaledVariableDebt
    && u'.stableBorrowRate == (if own == repaid then 0 else u.stableBorrowRate)
    && u'.stableRateLastUpdated == (if own == repaid then 0 else tx)
  }

  lemma StableRepayClamps(total: int, average: int, repaid: int, rate: int)
    ensures
      var (left, mean) := AfterStableRepay(total, average, repaid, rate);
      var weighed := average * total - rate * repaid;
      if total <= repaid || weighed <= repaid - total then left == 0 && mean == 0
      else left == total - repaid && IsMean(mean, weighed, total - repaid)
  {
    assert rate * -repaid == -(rate * repaid);
    if repaid < total {
      MeanTruncates(average, total, -repaid, rate);
      NonNegativeQuotient(average * total - rate * repaid, total - repaid);
    }
    hide IsMean;
  }

  /** A repayment of everything, written with either sign, takes the debt as accrued, of either kind. */
  lemma RepayAllEffect(c: Strategy, r: Reserve, u: User, all: int, mode: RateMode, paysOwn: bool, tx: int)
    requires Sound(r) && r.lastUpdateTimestamp <= tx && Fits(r, u, tx)
    requires all == MAX_UINT_AMOUNT || all == -MAX_UINT_AMOUNT
    ensures
      var e := ReserveAfterRepay(c, all, mode, r, u, tx);
      var u' := UserAfterRepay(all, mode, r, e, u, paysOwn, tx, tx);
      var debt := if mode == Stable then UserStableDebtAt(u, tx)
                  else RayMul(u.scaledVariableDebt, VariableBorrowIndexAt(r, tx));
      && e.availableLiquidity == r.availableLiquidity + debt
      && u'.walletBalance == (if paysOwn then u.walletBalance - debt else u.walletBalance)
      && DepositShown(r, u, u', tx)
      && u'.liquidityRate == e.liquidityRate && u'.usageAsCollateralEnabled == u.usageAsCollateralEnabled
      && match mode
         case Stable => StableRepaid(r, e, u, u', debt, tx, tx)
         case Variable =>
           && e.scaledVariableDebt == r.scaledVariableDebt - u.scaledVariableDebt && u'.scaledVariableDebt == 0
           && SameLoan(e, r) && e.totalStableDebt == r.totalStableDebt
           && u'.principalStableDebt == UserStableDebtAt(u, tx) && u'.currentStableDebt == u.principalStableDebt
  {
    IncomeShown(r, tx);
    UserDebtsAt(r, u, tx);
    StableRepayClamps(StableDebtAt(r, tx), r.averageStableBorrowRate, UserStableDebtAt(u, tx), u.stableBorrowRate);
    hide RayMul, RayDiv, LiquidityIndexAt, VariableBorrowIndexAt, NormalizedIncome, NormalizedDebt, StableDebtBalance,
         TotalStableDebtAt, RateModel.InterestRates, RateModel.UtilizationRate, AfterStableRepay, IsMean,
         VariableDebtBalance;
  }

  // ---------- Swap and rebalance ----------

  /** What a swap leaves as it is, in either direction. */
  ghost predicate SwapKeeps(r: Reserve, e: Reserve, u: User, u': User, tx: int) {
    && e.availableLiquidity == r.availableLiquidity && u'.walletBalance == u.walletBalance
    && DepositShown(r, u, u', tx)
    && u'.liquidityRate == e.liquidityRate && u'.usageAsCollateralEnabled == u.usageAsCollateralEnabled
  }

  /** A swap to variable takes the loan out of the total at its own rate, and books its share on both
      sides. */
  lemma SwapToVariableEffect(c: Strategy, r: Reserve, u: User, tx: nat)
    requires Sound(r) && r.lastUpdateTimestamp <= tx
    ensures
      var e := ReserveAfterSwapRateMode(c, r, u, Stable, tx);
      var u' := UserAfterSwapRateMode(r, e, u, Stable, tx);
      var total, moved := StableDebtAt(r, tx), UserStableDebtAt(u, tx);
      var share := RayDiv(moved, VariableBorrowIndexAt(r, tx));
      && SwapKeeps(r, e, u, u', tx)
      && StableRewritten(e, total - moved, tx)
      && (moved == total ==> e.averageStableBorrowRate == 0)
      && (moved < total ==> IsMean(e.averageStableBorrowRate,
                                   r.averageStableBorrowRate * total - u.stableBorrowRate * moved, total - moved))
      && e.scaledVariableDebt == r.scaledVariableDebt + share && u'.scaledVariableDebt == u.scaledVariableDebt + share
      && u'.principalStableDebt == u'.currentStableDebt == u'.stableBorrowRate == u'.stableRateLastUpdated == 0
  {
    IncomeShown(r, tx);
    SwappedOutAverage(StableDebtAt(r, tx), UserStableDebtAt(u, tx), r.averageStableBorrowRate, u.stableBorrowRate);
    hide RayMul, RayDiv, LiquidityIndexAt, VariableBorrowIndexAt, NormalizedIncome, NormalizedDebt, StableDebtBalance,
         TotalStableDebtAt, RateModel.InterestRates, RateModel.UtilizationRate, AverageStableRate, UserStableRate, IsMean,
         Sound;
  }

  lemma SwappedOutAverage(total: int, moved: int, average: int, rate: int)
    ensures
      var left := AverageStableRate(average, total - moved + moved, -moved, rate);
      && (moved == total ==> left == 0)
      && (moved < total ==> IsMean(left, average * total - rate * moved, total - moved))
  {
    assert total - moved + moved == total && rate * -moved == -(rate * moved);
    if moved < total {
      MeanTruncates(average, total, -moved, rate);
    } else if moved == total {
      StableTwin.NothingLeft(average, total, rate);
    }
    hide AverageStableRate, IsMean;
  }

  /** A swap to stable releases the user's share and joins it to the accrued total, averaged at the rate
      offered: over the recorded total for the reserve, over the accrued loan for the user, whose debt is
      what was recorded and the share. */
  lemma SwapToStableEffect(c: Strategy, r: Reserve, u: User, tx: nat)
    requires Sound(r) && r.lastUpdateTimestamp <= tx && Fits(r, u, tx)
    ensures
      var e := ReserveAfterSwapRateMode(c, r, u, Variable, tx);
      var u' := UserAfterSwapRateMode(r, e, u, Variable, tx);
      var moved, own := RayMul(u.scaledVariableDebt, VariableBorrowIndexAt(r, tx)), UserStableDebtAt(u, tx);
      && SwapKeeps(r, e, u, u', tx)
      && StableRewritten(e, StableDebtAt(r, tx) + moved, tx)
      && (moved > 0 ==> IsMean(e.averageStableBorrowRate,
                               r.averageStableBorrowRate * r.totalStableDebt + r.stableBorrowRate * moved,
                               r.totalStableDebt + moved))
      && e.scaledVariableDebt == r.scaledVariableDebt - u.scaledVariableDebt
      && u'.scaledVariableDebt == u'.currentVariableDebt == 0
      && u'.principalStableDebt == u'.currentStableDebt == u.currentStableDebt + moved
      && u'.stableRateLastUpdated == tx
      && (moved > 0 ==> IsMean(u'.stableBorrowRate, u.stableBorrowRate * own + r.stableBorrowRate * moved, own + moved))
  {
    IncomeShown(r, tx);
    UserDebtsAt(r, u, tx);
    SwappedInAverages(r, u, VariableDebtAt(r, u.scaledVariableDebt, tx), UserStableDebtAt(u, tx));
    hide RayMul, RayDiv, LiquidityIndexAt, VariableBorrowIndexAt, NormalizedIncome, NormalizedDebt, StableDebtBalance,
         TotalStableDebtAt, RateModel.InterestRates, RateModel.UtilizationRate, AverageStableRate, UserStableRate, IsMean,
         VariableDebtBalance, Sound;
  }

  lemma SwappedInAverages(r: Reserve, u: User, moved: int, own: nat)
    requires r.totalStableDebt >= 0 && r.stableBorrowRate >= 0 && u.stableBorrowRate >= 0
    ensures moved > 0 ==>
      && IsMean(AverageStableRate(r.averageStableBorrowRate, r.totalStableDebt, moved, r.stableBorrowRate),
                r.averageStableBorrowRate * r.totalStableDebt + r.stableBorrowRate * moved, r.totalStableDebt + moved)
      && IsMean(UserStableRate(own, u.stableBorrowRate, moved, r.stableBorrowRate),
                u.stableBorrowRate * own + r.stableBorrowRate * moved, own + moved)
  {
    if moved > 0 {
      MeanTruncates(r.averageStableBorrowRate, r.totalStableDebt, moved, r.stableBorrowRate);
      MeanTruncates(u.stableBorrowRate, own, moved, r.stableBorrowRate);
      StableTwin.SameAverage(own, u.stableBorrowRate, moved, r.stableBorrowRate);
    }
    hide AverageStableRate, UserStableRate, IsMean;
  }

  /** A rebalance rewrites the stable debt as accrued, and gives the user the reserve's new average. */
  lemma RebalanceEffect(c: Strategy, r: Reserve, u: User, tx: nat)
    requires Sound(r) && r.lastUpdateTimestamp <= tx
    ensures
      var e := ReserveAfterRebalance(c, r, u, tx);
      var u' := UserAfterRebalance(r, e, u, tx);
      && e.availableLiquidity == r.availableLiquidity && u'.walletBalance == u.walletBalance
      && SameVariableDebt(e, r, tx) && u'.scaledVariableDebt == u.scaledVariableDebt
      && DepositShown(r, u, u', tx)
      && u'.liquidityRate == e.liquidityRate && u'.usageAsCollateralEnabled == u.usageAsCollateralEnabled
      && StableRewritten(e, StableDebtAt(r, tx), tx)
      && u'.principalStableDebt == u'.currentStableDebt == UserStableDebtAt(u, tx) && u'.stableRateLastUpdated == tx
      && u'.stableBorrowRate == e.averageStableBorrowRate
  {
    IncomeShown(r, tx);
    hide RayMul, RayDiv, LiquidityIndexAt, VariableBorrowIndexAt, NormalizedIncome, NormalizedDebt, StableDebtBalance,
         TotalStableDebtAt, RateModel.InterestRates, RateModel.UtilizationRate, RebalancedRate, Sound;
  }

  /** That average is made of the other loans at the average without this one, and of this one at the rate
      offered, counted a billion times. */
  lemma RebalanceAverages(c: Strategy, r: Reserve, u: User, tx: nat)
    ensures exists without: int ::
              TakenOutAt(r, u, tx, without)
              && PutBackAt(r, u, tx, without, ReserveAfterRebalance(c, r, u, tx).averageStableBorrowRate)
  {
    hide RebalancedRate, StableDebtAt, UserStableDebtAt, ReserveAfterRebalance;
    var total, own := StableDebtAt(r, tx), UserStableDebtAt(u, tx);
    var without := RebalancedRate(r.averageStableBorrowRate, total, -own, u.stableBorrowRate);
    RecordedAverage(c, r, u, tx);
    TakenOutRounds(r.averageStableBorrowRate, total, own, u.stableBorrowRate);
    PutBackRounds(without, total - own, own, r.stableBorrowRate);
    assert TakenOutAt(r, u, tx, without) by { hide Rounds, WadToRay; }
    assert PutBackAt(r, u, tx, without, ReserveAfterRebalance(c, r, u, tx).averageStableBorrowRate)
      by { hide Rounds, WadToRay; }
  }

  lemma TakenOutRounds(average: int, total: int, own: int, rate: int)
    ensures Rounds(RebalancedRate(average, total, -own, rate), average * total - rate * WadToRay(own), total - WadToRay(own))
  {
    StableTwin.MixedAverageRounds(average, total, -own, rate);
    NegatedWeight(rate, own);
    hide RebalancedRate, WadToRay;
    AsRounds(RebalancedRate(average, total, -own, rate), average * total - rate * WadToRay(own), total - WadToRay(own));
  }

  lemma PutBackRounds(average: int, total: int, own: int, rate: int)
    ensures Rounds(RebalancedRate(average, total, own, rate), average * total + rate * WadToRay(own), total + WadToRay(own))
  {
    StableTwin.MixedAverageRounds(average, total, own, rate);
    hide RebalancedRate, WadToRay;
    AsRounds(RebalancedRate(average, total, own, rate), average * total + rate * WadToRay(own), total + WadToRay(own));
  }

  /** The only loan of at least one whole token adopts the rate offered, on both records. */
  lemma RebalanceAdopts(c: Strategy, r: Reserve, u: User, tx: nat)
    requires r.stableBorrowRate >= 0 && UserStableDebtAt(u, tx) == StableDebtAt(r, tx) && WadToRay(StableDebtAt(r, tx)) >= RAY
    ensures ReserveAfterRebalance(c, r, u, tx).averageStableBorrowRate == r.stableBorrowRate
    ensures UserAfterRebalance(r, ReserveAfterRebalance(c, r, u, tx), u, tx).stableBorrowRate == r.stableBorrowRate
  {
    var total, own := StableDebtAt(r, tx), UserStableDebtAt(u, tx);
    RecordedAverage(c, r, u, tx);
    StableTwin.RebalanceAdoptsRateIff(RebalancedRate(r.averageStableBorrowRate, total, -own, u.stableBorrowRate), own);
    hide RebalancedRate, StableDebtAt, UserStableDebtAt, ReserveAfterRebalance;
  }

  lemma NegatedWeight(rate: int, own: int)
    ensures WadToRay(-own) == -WadToRay(own)
    ensures rate * WadToRay(-own) == -(rate * WadToRay(own))
  {
  }

  lemma AsRounds(rate: int, weighed: int, debt: int)
    requires debt == 0 ==> rate == 0
    requires debt > 0 ==> -(6 * RAY + 3 * debt) <= 2 * (rate * debt - weighed) <= 6 * RAY + 3 * debt
    requires debt < 0 ==> -(6 * RAY - 3 * debt) <= 2 * (rate * debt - weighed) <= 6 * RAY - 3 * debt
    ensures Rounds(rate, weighed, debt)
  {
  }

  lemma RecordedAverage(c: Strategy, r: Reserve, u: User, tx: int)
    ensures
      var total, own := StableDebtAt(r, tx), UserStableDebtAt(u, tx);
      var without := RebalancedRate(r.averageStableBorrowRate, total, -own, u.stableBorrowRate);
      ReserveAfterRebalance(c, r, u, tx).averageStableBorrowRate
      == RebalancedRate(without, total - own, own, r.stableBorrowRate)
  {
    hide RebalancedRate, StableDebtAt, UserStableDebtAt, VariableDebtAt, RateModel.InterestRates,
         RateModel.UtilizationRate, LiquidityIndexAt, VariableBorrowIndexAt;
  }

  /** The average without the loan, within what its roundings cost. */
  ghost predicate TakenOutAt(r: Reserve, u: User, tx: int, without: int) {
    var total, own := StableDebtAt(r, tx), UserStableDebtAt(u, tx);
    Rounds(without, r.averageStableBorrowRate * total - u.stableBorrowRate * WadToRay(own), total - WadToRay(own))
  }

  ghost predicate PutBackAt(r: Reserve, u: User, tx: int, without: int, average: int) {
    var total, own := StableDebtAt(r, tx), UserStableDebtAt(u, tx);
    Rounds(average, without * (total - own) + r.stableBorrowRate * WadToRay(own), total - own + WadToRay(own))
  }

  /** A rate times a debt is the weight, up to three rays and one and a half times the debt; no debt, no
      rate. */
  ghost predicate Rounds(rate: int, weighed: int, debt: int) {
    var slack := 6 * RAY + 3 * (if debt < 0 then -debt else debt);
    if debt == 0 then rate == 0 else -slack <= 2 * (rate * debt - weighed) <= slack
  }
}
