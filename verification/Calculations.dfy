/** The expected records, built the way the scenarios build them: an empty record filled field by
    field, some fields more than once and some read back. Each is proved equal to its transition.
    The strategy stands for the reserve's symbol, which the source looks up in its configuration. */
module Calculations {
  import opened RayMath
  import opened Accounting
  import opened Transitions
  import RateModel

  const BLANK_RESERVE := Reserve(0, 0, 0, 0, 0, 0, 0, 0, 0, 0, 0, 0, 0, 0, 0, 0)
  const BLANK_USER := User(0, 0, 0, 0, 0, 0, 0, 0, 0, false, 0)

  /** The accessory fields a record is completed with before the next step reads it. */
  function Completed(e: Reserve, r: Reserve, tx: int, stableUpdated: int): Reserve {
    e.(marketStableRate := r.marketStableRate, lastUpdateTimestamp := tx, totalStableDebtLastUpdated := stableUpdated)
  }

  method CalcExpectedInterestRates(c: Strategy, marketStableRate: int, utilization: int, totalStableDebt: int,
                                   totalVariableDebt: int, averageStableBorrowRate: int)
    returns (liquidityRate: int, stableBorrowRate: int, variableBorrowRate: int)
    ensures RateModel.Rates(liquidityRate, stableBorrowRate, variableBorrowRate)
            == RateModel.InterestRates(c, marketStableRate, utilization, totalStableDebt, totalVariableDebt,
                                       averageStableBorrowRate)
  {
    stableBorrowRate := marketStableRate;
    variableBorrowRate := c.baseVariableBorrowRate;
    var optimalRate := c.optimalUtilizationRate;
    var excessRate := RAY - optimalRate;
    if utilization > optimalRate {
      var excessUtilizationRateRatio := RayDiv(utilization - c.optimalUtilizationRate, excessRate);
      stableBorrowRate := stableBorrowRate + c.stableRateSlope1
        + RayMul(c.stableRateSlope2, excessUtilizationRateRatio);
      variableBorrowRate := variableBorrowRate + c.variableRateSlope1
        + RayMul(c.variableRateSlope2, excessUtilizationRateRatio);
    } else {
      stableBorrowRate := stableBorrowRate + RayMul(c.stableRateSlope1, RayDiv(utilization, optimalRate));
      variableBorrowRate := variableBorrowRate + RayMul(RayDiv(utilization, optimalRate), c.variableRateSlope1);
    }
    var overallRate := RateModel.OverallBorrowRate(totalStableDebt, totalVariableDebt, variableBorrowRate,
                                                   averageStableBorrowRate);
    liquidityRate := PercentMul(RayMul(overallRate, utilization), PERCENTAGE_FACTOR - c.reserveFactor);
  }

  /** Fills the utilization and the three rates from the debts and the total already in the record. */
  method FillRates(c: Strategy, r: Reserve, filled: Reserve) returns (e: Reserve)
    ensures
      var u := RateModel.UtilizationRate(filled.totalStableDebt, filled.totalVariableDebt, filled.totalLiquidity);
      var rates := RateModel.InterestRates(c, r.marketStableRate, u, filled.totalStableDebt,
                                           filled.totalVariableDebt, filled.averageStableBorrowRate);
      e == filled.(utilizationRate := u, liquidityRate := rates.liquidity, stableBorrowRate := rates.stable,
                   variableBorrowRate := rates.variable)
  {
    e := filled;
    e := e.(utilizationRate :=
      RateModel.UtilizationRate(e.totalStableDebt, e.totalVariableDebt, e.totalLiquidity));
    var liquidity, stable, variable := CalcExpectedInterestRates(c, r.marketStableRate, e.utilizationRate,
      e.totalStableDebt, e.totalVariableDebt, e.averageStableBorrowRate);
    e := e.(liquidityRate := liquidity);
    e := e.(stableBorrowRate := stable);
    e := e.(variableBorrowRate := variable);
  }

  method CalcExpectedReserveDataAfterDeposit(c: Strategy, amountDeposited: int, r: Reserve, tx: int)
    returns (e: Reserve)
    ensures e == ReserveAfterDeposit(c, amountDeposited, r, tx)
  {
    hide RayMul, RateModel.InterestRates;
    e := BLANK_RESERVE;
    e := e.(totalLiquidity := r.totalLiquidity + amountDeposited);
    e := e.(availableLiquidity := r.availableLiquidity + amountDeposited);
    e := e.(averageStableBorrowRate := r.averageStableBorrowRate);
    e := e.(liquidityIndex := LiquidityIndexAt(r, tx));
    e := e.(variableBorrowIndex := VariableBorrowIndexAt(r, tx));
    e := e.(totalStableDebt := TotalStableDebtAt(r.principalStableDebt, r.averageStableBorrowRate,
                                                 r.totalStableDebtLastUpdated, tx));
    e := e.(totalVariableDebt := RayMul(r.scaledVariableDebt, e.variableBorrowIndex));
    e := e.(scaledVariableDebt := r.scaledVariableDebt);
    e := e.(principalStableDebt := r.principalStableDebt);
    e := FillRates(c, r, e);
    e := Completed(e, r, tx, r.totalStableDebtLastUpdated);
  }

  method CalcExpectedReserveDataAfterWithdraw(c: Strategy, amount: int, r: Reserve, u: User, tx: int)
    returns (e: Reserve)
    ensures e == ReserveAfterWithdraw(c, amount, r, u, tx)
  {
    hide RayMul, RateModel.InterestRates, RateModel.UtilizationRate;
    e := BLANK_RESERVE;
    var amountWithdrawn := amount;
    if amountWithdrawn == MAX_UINT_AMOUNT {
      amountWithdrawn := DepositBalance(r, u.scaledDepositBalance, tx);
    }
    e := e.(availableLiquidity := r.availableLiquidity - amountWithdrawn);
    e := e.(principalStableDebt := r.principalStableDebt);
    e := e.(scaledVariableDebt := r.scaledVariableDebt);
    e := e.(liquidityIndex := LiquidityIndexAt(r, tx));
    e := e.(variableBorrowIndex := VariableBorrowIndexAt(r, tx));
    e := e.(totalStableDebt := TotalStableDebtAt(r.principalStableDebt, r.averageStableBorrowRate,
                                                 r.totalStableDebtLastUpdated, tx));
    e := e.(totalVariableDebt := RayMul(e.scaledVariableDebt, e.variableBorrowIndex));
    e := e.(averageStableBorrowRate := r.averageStableBorrowRate);
    e := e.(totalLiquidity := r.availableLiquidity - amountWithdrawn + e.totalVariableDebt + e.totalStableDebt);
    e := FillRates(c, r, e);
    e := Completed(e, r, tx, r.totalStableDebtLastUpdated);
  }

  method CalcExpectedReserveDataAfterBorrow(c: Strategy, amount: int, mode: RateMode, r: Reserve, tx: int, now: int)
    returns (e: Reserve)
    ensures e == ReserveAfterBorrow(c, amount, mode, r, tx, now)
  {
    hide RayMul, RayDiv, RateModel.InterestRates, RateModel.UtilizationRate, AverageStableRate, NormalizedDebt;
    e := BLANK_RESERVE;
    e := e.(liquidityIndex := LiquidityIndexAt(r, tx));
    e := e.(variableBorrowIndex := VariableBorrowIndexAt(r, tx));
    e := e.(availableLiquidity := r.availableLiquidity - amount);
    e := e.(lastUpdateTimestamp := tx);
    if mode == Stable {
      e := e.(scaledVariableDebt := r.scaledVariableDebt);
      var variableDebtAfterTx := RayMul(e.scaledVariableDebt, e.variableBorrowIndex);
      var stableDebtUntilTx := TotalStableDebtAt(r.principalStableDebt, r.averageStableBorrowRate,
                                                 r.totalStableDebtLastUpdated, tx);
      e := e.(principalStableDebt := stableDebtUntilTx + amount);
      e := e.(averageStableBorrowRate := AverageStableRate(r.averageStableBorrowRate, stableDebtUntilTx, amount,
                                                           r.stableBorrowRate));
      var totalLiquidityAfterTx := e.availableLiquidity + e.principalStableDebt + variableDebtAfterTx;
      var utilizationAfterTx := RateModel.UtilizationRate(e.principalStableDebt, variableDebtAfterTx,
                                                          totalLiquidityAfterTx);
      var liquidity, stable, variable := CalcExpectedInterestRates(c, r.marketStableRate, utilizationAfterTx,
        e.principalStableDebt, variableDebtAfterTx, e.averageStableBorrowRate);
      e := e.(liquidityRate := liquidity);
      e := e.(stableBorrowRate := stable);
      e := e.(variableBorrowRate := variable);
      e := e.(totalStableDebt := TotalStableDebtAt(e.principalStableDebt, e.averageStableBorrowRate, tx, now));
      e := e.(totalVariableDebt := RayMul(r.scaledVariableDebt,
        NormalizedDebt(e.variableBorrowRate, e.variableBorrowIndex, tx, now)));
      e := e.(totalLiquidity := e.availableLiquidity + e.totalVariableDebt + e.totalStableDebt);
      e := e.(utilizationRate :=
        RateModel.UtilizationRate(e.totalStableDebt, e.totalVariableDebt, e.totalLiquidity));
      e := Completed(e, r, tx, tx);
    } else {
      e := e.(principalStableDebt := r.principalStableDebt);
      var stableDebtAfterTx := StableDebtBalance(r.principalStableDebt, r.averageStableBorrowRate,
                                                 r.totalStableDebtLastUpdated, tx);
      e := e.(totalStableDebt := TotalStableDebtAt(r.principalStableDebt, r.averageStableBorrowRate,
                                                   r.totalStableDebtLastUpdated, now));
      e := e.(averageStableBorrowRate := r.averageStableBorrowRate);
      e := e.(scaledVariableDebt := r.scaledVariableDebt + RayDiv(amount, e.variableBorrowIndex));
      var variableDebtAfterTx := RayMul(e.scaledVariableDebt, e.variableBorrowIndex);
      var utilizationAfterTx := RateModel.UtilizationRate(stableDebtAfterTx, variableDebtAfterTx,
        e.availableLiquidity + stableDebtAfterTx + variableDebtAfterTx);
      var liquidity, stable, variable := CalcExpectedInterestRates(c, r.marketStableRate, utilizationAfterTx,
        stableDebtAfterTx, variableDebtAfterTx, e.averageStableBorrowRate);
      e := e.(liquidityRate := liquidity);
      e := e.(stableBorrowRate := stable);
      e := e.(variableBorrowRate := variable);
      e := e.(totalVariableDebt := RayMul(e.scaledVariableDebt,
        NormalizedDebt(e.variableBorrowRate, e.variableBorrowIndex, tx, now)));
      e := e.(totalLiquidity := e.availableLiquidity + e.totalStableDebt + e.totalVariableDebt);
      e := e.(utilizationRate :=
        RateModel.UtilizationRate(e.totalStableDebt, e.totalVariableDebt, e.totalLiquidity));
      e := Completed(e, r, tx, r.totalStableDebtLastUpdated);
    }
  }

  method CalcExpectedReserveDataAfterRepay(c: Strategy, amount: int, mode: RateMode, r: Reserve, u: User, tx: int)
    returns (e: Reserve)
    ensures e == ReserveAfterRepay(c, amount, mode, r, u, tx)
  {
    hide RayMul, RayDiv, RateModel.InterestRates, RateModel.UtilizationRate, AverageStableRate, NormalizedDebt;
    e := BLANK_RESERVE;
    var amountRepaid := amount;
    var userStableDebt := StableDebtBalance(u.principalStableDebt, u.stableBorrowRate, u.stableRateLastUpdated, tx);
    var userVariableDebt := VariableDebtBalance(r, u.scaledVariableDebt, tx);
    if amountRepaid == MAX_UINT_AMOUNT || -amountRepaid == MAX_UINT_AMOUNT {
      if mode == Stable {
        amountRepaid := userStableDebt;
      } else {
        amountRepaid := userVariableDebt;
      }
    }
    e := e.(liquidityIndex := LiquidityIndexAt(r, tx));
    e := e.(variableBorrowIndex := VariableBorrowIndexAt(r, tx));
    if mode == Stable {
      var expectedDebt := TotalStableDebtAt(r.principalStableDebt, r.averageStableBorrowRate,
                                            r.totalStableDebtLastUpdated, tx);
      e := e.(totalStableDebt := expectedDebt - amountRepaid);
      e := e.(principalStableDebt := e.totalStableDebt);
      if e.totalStableDebt < 0 {
        e := e.(averageStableBorrowRate := 0, totalStableDebt := 0, principalStableDebt := 0);
      } else {
        e := e.(averageStableBorrowRate := AverageStableRate(r.averageStableBorrowRate, expectedDebt, -amountRepaid,
                                                             u.stableBorrowRate));
        if e.averageStableBorrowRate < 0 {
          e := e.(averageStableBorrowRate := 0, totalStableDebt := 0, principalStableDebt := 0);
        }
      }
      e := e.(scaledVariableDebt := r.scaledVariableDebt);
      e := e.(totalVariableDebt := RayMul(e.scaledVariableDebt, e.variableBorrowIndex));
    } else {
      e := e.(scaledVariableDebt := r.scaledVariableDebt - RayDiv(amountRepaid, e.variableBorrowIndex));
      e := e.(totalVariableDebt := RayMul(e.scaledVariableDebt, e.variableBorrowIndex));
      e := e.(principalStableDebt := r.principalStableDebt);
      e := e.(totalStableDebt := r.totalStableDebt);
      e := e.(averageStableBorrowRate := r.averageStableBorrowRate);
    }
    e := e.(availableLiquidity := r.availableLiquidity + amountRepaid);
    e := e.(totalLiquidity := e.availableLiquidity + e.totalStableDebt + e.totalVariableDebt);
    e := FillRates(c, r, e);
    e := e.(lastUpdateTimestamp := tx);
    e := Completed(e, r, tx, if mode == Stable then tx else r.totalStableDebtLastUpdated);
  }

  method CalcExpectedReserveDataAfterSwapRateMode(c: Strategy, r: Reserve, u: User, mode: RateMode, tx: int)
    returns (e: Reserve)
    ensures e == ReserveAfterSwapRateMode(c, r, u, mode, tx)
  {
    hide RayMul, RayDiv, RateModel.InterestRates, RateModel.UtilizationRate, AverageStableRate, NormalizedDebt;
    e := BLANK_RESERVE;
    var variableDebt := VariableDebtBalance(r, u.scaledVariableDebt, tx);
    var stableDebt := StableDebtBalance(u.principalStableDebt, u.stableBorrowRate, u.stableRateLastUpdated, tx);
    e := e.(liquidityIndex := LiquidityIndexAt(r, tx));
    e := e.(variableBorrowIndex := VariableBorrowIndexAt(r, tx));
    e := e.(availableLiquidity := r.availableLiquidity);
    var totalStableDebtUntilTx := TotalStableDebtAt(r.principalStableDebt, r.averageStableBorrowRate,
                                                    r.totalStableDebtLastUpdated, tx);
    if mode == Stable {
      e := e.(scaledVariableDebt := r.scaledVariableDebt + RayDiv(stableDebt, e.variableBorrowIndex));
      e := e.(totalVariableDebt := RayMul(e.scaledVariableDebt, e.variableBorrowIndex));
      e := e.(totalStableDebt := totalStableDebtUntilTx - stableDebt);
      e := e.(principalStableDebt := e.totalStableDebt);
      e := e.(averageStableBorrowRate := AverageStableRate(r.averageStableBorrowRate,
        e.principalStableDebt + stableDebt, -stableDebt, u.stableBorrowRate));
    } else {
      e := e.(totalStableDebt := totalStableDebtUntilTx + variableDebt);
      e := e.(principalStableDebt := e.totalStableDebt);
      e := e.(scaledVariableDebt := r.scaledVariableDebt - RayDiv(variableDebt, e.variableBorrowIndex));
      e := e.(totalVariableDebt := RayMul(e.scaledVariableDebt, e.variableBorrowIndex));
      e := e.(averageStableBorrowRate := AverageStableRate(r.averageStableBorrowRate, r.totalStableDebt,
        variableDebt, r.stableBorrowRate));
    }
    e := e.(totalLiquidity := r.availableLiquidity + e.totalStableDebt + e.totalVariableDebt);
    e := FillRates(c, r, e);
    e := Completed(e, r, tx, tx);
  }

  method CalcExpectedReserveDataAfterStableRateRebalance(c: Strategy, r: Reserve, u: User, tx: int)
    returns (e: Reserve)
    ensures e == ReserveAfterRebalance(c, r, u, tx)
  {
    hide RayMul, RayDiv, RateModel.InterestRates, RateModel.UtilizationRate, RebalancedRate;
    e := BLANK_RESERVE;
    var userStableDebt := StableDebtBalance(u.principalStableDebt, u.stableBorrowRate, u.stableRateLastUpdated, tx);
    e := e.(liquidityIndex := LiquidityIndexAt(r, tx));
    e := e.(variableBorrowIndex := VariableBorrowIndexAt(r, tx));
    e := e.(scaledVariableDebt := r.scaledVariableDebt);
    e := e.(totalVariableDebt := RayMul(e.scaledVariableDebt, e.variableBorrowIndex));
    e := e.(totalStableDebt := TotalStableDebtAt(r.principalStableDebt, r.averageStableBorrowRate,
                                                 r.totalStableDebtLastUpdated, tx));
    e := e.(principalStableDebt := e.totalStableDebt);
    e := e.(availableLiquidity := r.availableLiquidity);
    e := e.(totalLiquidity := e.availableLiquidity + e.totalStableDebt + e.totalVariableDebt);
    var avgRateBefore := RebalancedRate(r.averageStableBorrowRate, e.totalStableDebt, -userStableDebt,
                                        u.stableBorrowRate);
    e := e.(averageStableBorrowRate := RebalancedRate(avgRateBefore, e.totalStableDebt - userStableDebt,
                                                      userStableDebt, r.stableBorrowRate));
    e := FillRates(c, r, e);
    e := Completed(e, r, tx, tx);
  }

  method CalcExpectedUserDataAfterDeposit(amount: int, r: Reserve, after: Reserve, u: User, tx: int)
    returns (e: User)
    ensures e == UserAfterDeposit(amount, r, after, u, tx)
  {
    hide VariableDebtBalance, UserStableDebtAt, DepositBalance;
    e := BLANK_USER;
    e := e.(currentStableDebt := UserStableDebtAt(u, tx));
    e := e.(currentVariableDebt := VariableDebtBalance(r, u.scaledVariableDebt, tx));
    e := e.(principalStableDebt := u.principalStableDebt);
    e := e.(scaledVariableDebt := u.scaledVariableDebt);
    e := e.(stableBorrowRate := u.stableBorrowRate);
    e := e.(stableRateLastUpdated := u.stableRateLastUpdated);
    e := e.(liquidityRate := after.liquidityRate);
    e := e.(scaledDepositBalance := ScaledDeposit(u.scaledDepositBalance, after.liquidityIndex, amount, 0));
    e := e.(currentDepositBalance := DepositBalance(r, u.scaledDepositBalance, tx) + amount);
    if u.currentDepositBalance == 0 {
      e := e.(usageAsCollateralEnabled := true);
    } else {
      e := e.(usageAsCollateralEnabled := u.usageAsCollateralEnabled);
    }
    e := e.(walletBalance := u.walletBalance - amount);
    e := e.(principalStableDebt := UserStableDebtAt(u, tx));
    e := e.(currentStableDebt := e.principalStableDebt);
    e := e.(principalStableDebt := VariableDebtBalance(r, u.scaledVariableDebt, tx));
    e := e.(currentVariableDebt := e.principalStableDebt);
  }

  method CalcExpectedUserDataAfterWithdraw(amount: int, r: Reserve, after: Reserve, u: User, tx: int)
    returns (e: User)
    ensures e == UserAfterWithdraw(amount, r, after, u, tx)
  {
    hide VariableDebtBalance, UserStableDebtAt, DepositBalance;
    e := BLANK_USER;
    var depositTokenBalance := DepositBalance(r, u.scaledDepositBalance, tx);
    var amountWithdrawn := amount;
    if amountWithdrawn == MAX_UINT_AMOUNT {
      amountWithdrawn := depositTokenBalance;
    }
    e := e.(scaledDepositBalance := ScaledDeposit(u.scaledDepositBalance, after.liquidityIndex, 0, amountWithdrawn));
    e := e.(currentDepositBalance := depositTokenBalance - amountWithdrawn);
    e := e.(principalStableDebt := u.principalStableDebt);
    e := e.(scaledVariableDebt := u.scaledVariableDebt);
    e := e.(currentStableDebt := UserStableDebtAt(u, tx));
    e := e.(currentVariableDebt := VariableDebtBalance(r, u.scaledVariableDebt, tx));
    e := e.(stableBorrowRate := u.stableBorrowRate);
    e := e.(stableRateLastUpdated := u.stableRateLastUpdated);
    e := e.(liquidityRate := after.liquidityRate);
    if u.currentDepositBalance == 0 {
      e := e.(usageAsCollateralEnabled := true);
    } else {
      if e.currentDepositBalance == 0 {
        e := e.(usageAsCollateralEnabled := false);
      } else {
        e := e.(usageAsCollateralEnabled := u.usageAsCollateralEnabled);
      }
    }
    e := e.(walletBalance := u.walletBalance + amountWithdrawn);
  }

  method CalcExpectedUserDataAfterBorrow(amount: int, mode: RateMode, r: Reserve, after: Reserve, u: User,
                                         tx: int, now: int)
    returns (e: User)
    ensures e == UserAfterBorrow(amount, mode, r, after, u, tx, now)
  {
    hide VariableDebtBalance, DepositBalance, StableDebtBalance, UserStableRate, RayDiv;
    e := BLANK_USER;
    if mode == Stable {
      var stableDebtUntilTx := UserStableDebtAt(u, tx);
      e := e.(principalStableDebt := stableDebtUntilTx + amount);
      e := e.(stableRateLastUpdated := tx);
      e := e.(stableBorrowRate := UserStableRate(stableDebtUntilTx, u.stableBorrowRate, amount, r.stableBorrowRate));
      e := e.(currentStableDebt := StableDebtBalance(e.principalStableDebt, e.stableBorrowRate, tx, now));
      e := e.(scaledVariableDebt := u.scaledVariableDebt);
    } else {
      e := e.(scaledVariableDebt := r.scaledVariableDebt + RayDiv(amount, after.variableBorrowIndex));
      e := e.(principalStableDebt := u.principalStableDebt);
      e := e.(stableBorrowRate := u.stableBorrowRate);
      e := e.(stableRateLastUpdated := u.stableRateLastUpdated);
      e := e.(currentStableDebt := UserStableDebtAt(u, now));
    }
    e := e.(currentVariableDebt := VariableDebtBalance(after, e.scaledVariableDebt, now));
    e := e.(liquidityRate := after.liquidityRate);
    e := e.(usageAsCollateralEnabled := u.usageAsCollateralEnabled);
    e := e.(currentDepositBalance := DepositBalance(after, u.scaledDepositBalance, now));
    e := e.(scaledDepositBalance := u.scaledDepositBalance);
    e := e.(walletBalance := u.walletBalance + amount);
  }

  method CalcExpectedUserDataAfterRepay(amount: int, mode: RateMode, r: Reserve, after: Reserve, u: User,
                                        user: string, onBehalfOf: string, tx: int, now: int)
    returns (e: User)
    ensures e == UserAfterRepay(amount, mode, r, after, u, user == onBehalfOf, tx, now)
  {
    hide VariableDebtBalance, DepositBalance, StableDebtBalance, RayDiv, RayMul;
    e := BLANK_USER;
    var variableDebt := VariableDebtBalance(r, u.scaledVariableDebt, now);
    var stableDebt := UserStableDebtAt(u, now);
    var totalRepaid := amount;
    if totalRepaid == MAX_UINT_AMOUNT || -totalRepaid == MAX_UINT_AMOUNT {
      totalRepaid := if mode == Stable then stableDebt else variableDebt;
    }
    if mode == Stable {
      e := e.(scaledVariableDebt := u.scaledVariableDebt);
      e := e.(currentVariableDebt := variableDebt);
      e := e.(currentStableDebt := stableDebt - totalRepaid);
      e := e.(principalStableDebt := e.currentStableDebt);
      if e.currentStableDebt == 0 {
        e := e.(stableBorrowRate := 0, stableRateLastUpdated := 0);
      } else {
        e := e.(stableBorrowRate := u.stableBorrowRate);
        e := e.(stableRateLastUpdated := tx);
      }
    } else {
      e := e.(currentStableDebt := u.principalStableDebt);
      e := e.(principalStableDebt := stableDebt);
      e := e.(stableBorrowRate := u.stableBorrowRate);
      e := e.(stableRateLastUpdated := u.stableRateLastUpdated);
      e := e.(scaledVariableDebt := u.scaledVariableDebt - RayDiv(totalRepaid, after.variableBorrowIndex));
      e := e.(currentVariableDebt := RayMul(e.scaledVariableDebt, after.variableBorrowIndex));
    }
    e := e.(liquidityRate := after.liquidityRate);
    e := e.(usageAsCollateralEnabled := u.usageAsCollateralEnabled);
    e := e.(currentDepositBalance := DepositBalance(r, u.scaledDepositBalance, tx));
    e := e.(scaledDepositBalance := u.scaledDepositBalance);
    if user == onBehalfOf {
      e := e.(walletBalance := u.walletBalance - totalRepaid);
    } else {
      e := e.(walletBalance := u.walletBalance);
    }
  }

  method CalcExpectedUserDataAfterSetUseAsCollateral(useAsCollateral: bool, u: User) returns (e: User)
    ensures e == UserAfterSetUseAsCollateral(useAsCollateral, u)
  {
    e := u;
    e := e.(usageAsCollateralEnabled := useAsCollateral);
  }

  method CalcExpectedUserDataAfterSwapRateMode(r: Reserve, after: Reserve, u: User, mode: RateMode, tx: int)
    returns (e: User)
    ensures e == UserAfterSwapRateMode(r, after, u, mode, tx)
  {
    hide VariableDebtBalance, DepositBalance, StableDebtBalance, UserStableRate, RayDiv, RayMul;
    e := u;
    var stableDebtBalance := UserStableDebtAt(u, tx);
    var variableDebtBalance := VariableDebtBalance(r, u.scaledVariableDebt, tx);
    e := e.(currentDepositBalance := DepositBalance(r, u.scaledDepositBalance, tx));
    if mode == Stable {
      e := e.(principalStableDebt := 0, currentStableDebt := 0);
      e := e.(stableBorrowRate := 0);
      e := e.(scaledVariableDebt := u.scaledVariableDebt + RayDiv(stableDebtBalance, after.variableBorrowIndex));
      e := e.(currentVariableDebt := RayMul(e.scaledVariableDebt, after.variableBorrowIndex));
      e := e.(stableRateLastUpdated := 0);
    } else {
      e := e.(currentStableDebt := u.currentStableDebt + variableDebtBalance);
      e := e.(principalStableDebt := e.currentStableDebt);
      e := e.(stableBorrowRate := UserStableRate(stableDebtBalance, u.stableBorrowRate, variableDebtBalance,
                                                 r.stableBorrowRate));
      e := e.(stableRateLastUpdated := tx);
      e := e.(scaledVariableDebt := 0, currentVariableDebt := 0);
    }
    e := e.(liquidityRate := after.liquidityRate);
  }

  method CalcExpectedUserDataAfterStableRateRebalance(r: Reserve, after: Reserve, u: User, tx: int)
    returns (e: User)
    ensures e == UserAfterRebalance(r, after, u, tx)
  {
    hide VariableDebtBalance, DepositBalance, StableDebtBalance;
    e := u;
    e := e.(principalStableDebt := u.principalStableDebt);
    e := e.(principalStableDebt := UserStableDebtAt(u, tx));
    e := e.(currentStableDebt := e.principalStableDebt);
    e := e.(currentVariableDebt := VariableDebtBalance(r, u.scaledVariableDebt, tx));
    e := e.(stableRateLastUpdated := tx);
    e := e.(stableBorrowRate := after.averageStableBorrowRate);
    e := e.(liquidityRate := after.liquidityRate);
    e := e.(currentDepositBalance := DepositBalance(r, u.scaledDepositBalance, tx));
  }
}
