/** Utilization, the two-slope borrow rates, the overall borrow rate and the rate paid to depositors. */
module RateModel {
  import opened RayMath

  /** The per-reserve parameters the rates depend on. */
  datatype Strategy = Strategy(
    baseVariableBorrowRate: int,
    variableRateSlope1: int,
    variableRateSlope2: int,
    stableRateSlope1: int,
    stableRateSlope2: int,
    optimalUtilizationRate: int,
    reserveFactor: int)

  ghost predicate ValidStrategy(c: Strategy) {
    && 0 <= c.baseVariableBorrowRate
    && 0 <= c.variableRateSlope1 && 0 <= c.variableRateSlope2
    && 0 <= c.stableRateSlope1 && 0 <= c.stableRateSlope2
    && 0 < c.optimalUtilizationRate < RAY
    && 0 <= c.reserveFactor <= PERCENTAGE_FACTOR
  }

  datatype Rates = Rates(liquidity: int, stable: int, variable: int)

  function UtilizationRate(stableDebt: int, variableDebt: int, totalLiquidity: int): int {
    if stableDebt == 0 && variableDebt == 0 then 0
    else RayDiv(stableDebt + variableDebt, totalLiquidity)
  }

  /** The utilization above the kink, as a share of what is left above it. */
  function ExcessRatio(c: Strategy, utilization: int): int {
    RayDiv(utilization - c.optimalUtilizationRate, RAY - c.optimalUtilizationRate)
  }

  function StableRate(c: Strategy, marketStableRate: int, utilization: int): int {
    if utilization > c.optimalUtilizationRate then
      marketStableRate + c.stableRateSlope1 + RayMul(c.stableRateSlope2, ExcessRatio(c, utilization))
    else
      marketStableRate + RayMul(c.stableRateSlope1, RayDiv(utilization, c.optimalUtilizationRate))
  }

  function VariableRate(c: Strategy, utilization: int): int {
    if utilization > c.optimalUtilizationRate then
      c.baseVariableBorrowRate + c.variableRateSlope1 + RayMul(c.variableRateSlope2, ExcessRatio(c, utilization))
    else
      c.baseVariableBorrowRate + RayMul(RayDiv(utilization, c.optimalUtilizationRate), c.variableRateSlope1)
  }

  function OverallBorrowRate(stableDebt: int, variableDebt: int, variableRate: int, averageStableRate: int): int {
    var totalBorrows := stableDebt + variableDebt;
    if totalBorrows == 0 then 0 else
      RayDiv(RayMul(WadToRay(variableDebt), variableRate) + RayMul(WadToRay(stableDebt), averageStableRate),
             WadToRay(totalBorrows))
  }

  function LiquidityRate(c: Strategy, overall: int, utilization: int): int {
    PercentMul(RayMul(overall, utilization), PERCENTAGE_FACTOR - c.reserveFactor)
  }

  function InterestRates(c: Strategy, marketStableRate: int, utilization: int,
                         stableDebt: int, variableDebt: int, averageStableRate: int): Rates
  {
    var variable := VariableRate(c, utilization);
    var overall := OverallBorrowRate(stableDebt, variableDebt, variable, averageStableRate);
    Rates(LiquidityRate(c, overall, utilization), StableRate(c, marketStableRate, utilization), variable)
  }

  // ---------- Utilization ----------

  /** A reserve whose total is what it holds plus what it lent is never utilized beyond 100%. */
  lemma UtilizationBounds(stableDebt: nat, variableDebt: nat, available: nat)
    ensures 0 <= UtilizationRate(stableDebt, variableDebt, available + stableDebt + variableDebt) <= RAY
  {
    var debt, total := stableDebt + variableDebt, available + stableDebt + variableDebt;
    if debt > 0 {
      RayDivRounds(debt, total);
      RayDivMono(debt, total, total);
      RayDivSelf(total);
    }
  }

  /** At a fixed amount held, more debt means at least as much utilization. */
  lemma UtilizationMono(debt: nat, more: nat, available: nat)
    requires 0 < debt <= more
    ensures RayDiv(debt, available + debt) <= RayDiv(more, available + more)
  {
    var q := RayDiv(debt, available + debt);
    var a, b := available + debt, available + more;
    var k := more - debt;
    RayDivRounds(debt, a);
    RayDivMono(debt, a, a);
    RayDivSelf(a);
    // q <= RAY, so q * k <= RAY * k: the grown numerator still reaches q
    DivBounds(a / 2 + debt * RAY, a);
    assert a * q <= a / 2 + debt * RAY;
    MulMono(q, RAY, k);
    assert b * q == a * q + k * q;
    assert b * q <= b / 2 + more * RAY;
    DivAtLeast(b / 2 + more * RAY, b, q);
  }

  lemma DivAtLeast(a: int, b: int, q: int)
    requires a >= 0 && b > 0 && b * q <= a
    ensures q <= a / b
  {
    DivBounds(a, b);
    if a / b < q {
      MulMono(a / b + 1, q, b);
    }
  }

  // ---------- The rate curve ----------

  /** Both curves pass exactly through base, kink and full utilization. */
  lemma CurveAnchors(c: Strategy, market: nat)
    requires ValidStrategy(c)
    ensures VariableRate(c, 0) == c.baseVariableBorrowRate
    ensures VariableRate(c, c.optimalUtilizationRate) == c.baseVariableBorrowRate + c.variableRateSlope1
    ensures VariableRate(c, RAY) == c.baseVariableBorrowRate + c.variableRateSlope1 + c.variableRateSlope2
    ensures StableRate(c, market, 0) == market
    ensures StableRate(c, market, c.optimalUtilizationRate) == market + c.stableRateSlope1
    ensures StableRate(c, market, RAY) == market + c.stableRateSlope1 + c.stableRateSlope2
  {
    var opt := c.optimalUtilizationRate;
    RayDivSelf(opt);
    RayDivSelf(RAY - opt);
    RayDivZero(opt);
    RayMulUnit(c.variableRateSlope1);
    RayMulUnit(c.variableRateSlope2);
    RayMulUnit(c.stableRateSlope1);
    RayMulUnit(c.stableRateSlope2);
    RayMulZero(c.variableRateSlope1);
    RayMulZero(c.stableRateSlope1);
    hide RayMul, RayDiv;
  }

  /** Both curves rise with utilization, across the kink as well as on either side of it. */
  lemma CurveMono(c: Strategy, market: nat, u: nat, v: nat)
    requires ValidStrategy(c) && u <= v
    ensures VariableRate(c, u) <= VariableRate(c, v)
    ensures StableRate(c, market, u) <= StableRate(c, market, v)
  {
    hide RayMul, RayDiv;
    var opt := c.optimalUtilizationRate;
    if v <= opt {
      RisingSegment(u, v, opt, c.variableRateSlope1);
      RisingSegment(u, v, opt, c.stableRateSlope1);
    } else if u > opt {
      RisingSegment(u - opt, v - opt, RAY - opt, c.variableRateSlope2);
      RisingSegment(u - opt, v - opt, RAY - opt, c.stableRateSlope2);
    } else {
      CurveAnchors(c, market);
      RisingSegment(u, opt, opt, c.variableRateSlope1);
      RisingSegment(u, opt, opt, c.stableRateSlope1);
      RisingSegment(0, v - opt, RAY - opt, c.variableRateSlope2);
      RisingSegment(0, v - opt, RAY - opt, c.stableRateSlope2);
    }
  }

  lemma RisingSegment(u: nat, v: nat, width: int, slope: nat)
    requires u <= v && width > 0
    ensures 0 <= RayMul(RayDiv(u, width), slope) <= RayMul(RayDiv(v, width), slope)
    ensures RayMul(slope, RayDiv(u, width)) == RayMul(RayDiv(u, width), slope)
    ensures RayMul(slope, RayDiv(v, width)) == RayMul(RayDiv(v, width), slope)
  {
    RayDivRounds(u, width);
    RayDivMono(u, v, width);
    MulMono(0, RayDiv(u, width), slope);
    RayMulRounds(RayDiv(u, width), slope);
    RayMulMono(RayDiv(u, width), RayDiv(v, width), slope, slope);
    RayMulCommutes(slope, RayDiv(u, width));
    RayMulCommutes(slope, RayDiv(v, width));
  }

  /** Up to full utilization, the rates stay between the base and the sum of both slopes. */
  lemma CurveRange(c: Strategy, market: nat, u: nat)
    requires ValidStrategy(c) && u <= RAY
    ensures c.baseVariableBorrowRate <= VariableRate(c, u)
            <= c.baseVariableBorrowRate + c.variableRateSlope1 + c.variableRateSlope2
    ensures market <= StableRate(c, market, u) <= market + c.stableRateSlope1 + c.stableRateSlope2
  {
    CurveAnchors(c, market);
    CurveMono(c, market, 0, u);
    CurveMono(c, market, u, RAY);
  }

  // ---------- The overall rate ----------

  /** The overall rate is the debt-weighted mean of the two borrow rates, within a rounding bound. */
  lemma OverallIsWeightedMean(stableDebt: nat, variableDebt: nat, variableRate: nat, averageStableRate: nat)
    requires stableDebt + variableDebt > 0
    ensures
      var total := stableDebt + variableDebt;
      var paid := variableDebt * variableRate + stableDebt * averageStableRate;
      var overall := OverallBorrowRate(stableDebt, variableDebt, variableRate, averageStableRate);
      -(2 * (RAY / WAD_RAY_RATIO) + total) <= 2 * (overall * total) - 2 * paid <= 2 * (RAY / WAD_RAY_RATIO) + total
    ensures OverallBorrowRate(stableDebt, variableDebt, variableRate, averageStableRate) >= 0
  {
    var total := stableDebt + variableDebt;
    var v, s := variableDebt * variableRate, stableDebt * averageStableRate;
    MulMono(0, variableDebt, variableRate);
    MulMono(0, stableDebt, averageStableRate);
    assert WadToRay(variableDebt) * variableRate == WAD_RAY_RATIO * v;
    assert WadToRay(stableDebt) * averageStableRate == WAD_RAY_RATIO * s;
    RayMulRounds(WadToRay(variableDebt), variableRate);
    RayMulRounds(WadToRay(stableDebt), averageStableRate);
    var weight := RayMul(WadToRay(variableDebt), variableRate) + RayMul(WadToRay(stableDebt), averageStableRate);
    RayDivRounds(weight, WadToRay(total));
    var overall := RayDiv(weight, WadToRay(total));
    assert WadToRay(total) * overall == WAD_RAY_RATIO * (overall * total);
    hide *;
  }

  // ---------- Solvency ----------

  /** The rate paid to depositors, one rounding at a time. */
  lemma LiquidityRateRounds(c: Strategy, overall: nat, utilization: nat)
    requires ValidStrategy(c)
    ensures LiquidityRate(c, overall, utilization) >= 0
    ensures 2 * PERCENTAGE_FACTOR * RAY * LiquidityRate(c, overall, utilization)
            <= (PERCENTAGE_FACTOR - c.reserveFactor) * (2 * (overall * utilization) + RAY) + RAY * PERCENTAGE_FACTOR
  {
    MulMono(0, overall, utilization);
    RayMulRounds(overall, utilization);
    var share := RayMul(overall, utilization);
    var kept := PERCENTAGE_FACTOR - c.reserveFactor;
    MulMono(0, share, kept);
    PercentMulRounds(share, kept);
    MulMono(2 * RAY * share, 2 * (overall * utilization) + RAY, kept);
    assert kept * (2 * RAY * share) == 2 * RAY * (share * kept);
  }

  lemma NoUtilizationNoYield(c: Strategy, overall: int)
    requires ValidStrategy(c)
    ensures LiquidityRate(c, overall, 0) == 0
  {
  }

  /** The yield promised on the total is covered by the reserve's share of what the debts pay, beyond
      the stated rounding: all amounts are scaled by 2 * 10^4 * ray to stay in the integers. */
  ghost predicate YieldCovered(c: Strategy, rates: Rates, stableDebt: int, variableDebt: int, total: int,
                               averageStableRate: int)
  {
    var debt := stableDebt + variableDebt;
    var paid := variableDebt * rates.variable + stableDebt * averageStableRate;
    var overall := OverallBorrowRate(stableDebt, variableDebt, rates.variable, averageStableRate);
    2 * PERCENTAGE_FACTOR * RAY * (rates.liquidity * total)
    <= (PERCENTAGE_FACTOR - c.reserveFactor)
       * (RAY * (2 * paid + 2 * (RAY / WAD_RAY_RATIO) + debt) + (overall + RAY) * total)
       + RAY * PERCENTAGE_FACTOR * total
  }

  /** Whatever total the utilization is taken of, depositors are never promised more on it than the
      borrowers pay, after the reserve's cut. */
  lemma DepositorsPaidFromBorrowers(c: Strategy, market: nat, stableDebt: nat, variableDebt: nat,
                                    total: nat, averageStableRate: nat)
    requires ValidStrategy(c)
    ensures
      var u := UtilizationRate(stableDebt, variableDebt, total);
      YieldCovered(c, InterestRates(c, market, u, stableDebt, variableDebt, averageStableRate),
                   stableDebt, variableDebt, total, averageStableRate)
  {
    hide RayMul, RayDiv, PercentMul, VariableRate, LiquidityRate, OverallBorrowRate, StableRate, UtilizationRate,
         YieldCovered;
    var debt := stableDebt + variableDebt;
    var u := UtilizationRate(stableDebt, variableDebt, total);
    UtilizationShare(stableDebt, variableDebt, total);
    var variable := VariableRate(c, u);
    CurveAnchors(c, market);
    CurveMono(c, market, 0, u);
    if debt == 0 {
      NoUtilizationNoYield(c, OverallBorrowRate(0, 0, variable, averageStableRate));
      NothingCovered(c, market, total, averageStableRate);
    } else {
      var overall := OverallBorrowRate(stableDebt, variableDebt, variable, averageStableRate);
      DebtCovered(c, StableRate(c, market, u), variable, overall, u, stableDebt, variableDebt, total, averageStableRate);
    }
  }

  lemma NothingCovered(c: Strategy, market: nat, total: nat, averageStableRate: nat)
    requires ValidStrategy(c)
    ensures YieldCovered(c, InterestRates(c, market, 0, 0, 0, averageStableRate), 0, 0, total, averageStableRate)
  {
    var variable := VariableRate(c, 0);
    NoDebtNoRate(variable, averageStableRate);
    NoUtilizationNoYield(c, 0);
    hide VariableRate, StableRate, LiquidityRate, OverallBorrowRate;
    YieldWithoutDebt(LiquidityRate(c, 0, 0), total, PERCENTAGE_FACTOR - c.reserveFactor);
  }

  lemma DebtCovered(c: Strategy, stable: int, variable: nat, overall: int, u: nat, stableDebt: nat, variableDebt: nat,
                    total: nat, averageStableRate: nat)
    requires ValidStrategy(c) && stableDebt + variableDebt > 0
    requires overall == OverallBorrowRate(stableDebt, variableDebt, variable, averageStableRate)
    requires 2 * (total * u) <= 2 * ((stableDebt + variableDebt) * RAY) + total
    ensures YieldCovered(c, Rates(LiquidityRate(c, overall, u), stable, variable), stableDebt, variableDebt, total,
                         averageStableRate)
  {
    OverallIsWeightedMean(stableDebt, variableDebt, variable, averageStableRate);
    hide OverallBorrowRate, LiquidityRate;
    LiquidityRateRounds(c, overall, u);
    MulMono(0, variableDebt, variable);
    MulMono(0, stableDebt, averageStableRate);
    var paid := variableDebt * variable + stableDebt * averageStableRate;
    YieldFromDebt(LiquidityRate(c, overall, u), overall, u, total, stableDebt + variableDebt, paid,
                  PERCENTAGE_FACTOR - c.reserveFactor);
  }

  /** The utilized share of any total is at most the debt, and half a unit of rounding. */
  lemma UtilizationShare(stableDebt: nat, variableDebt: nat, total: nat)
    ensures
      var u := UtilizationRate(stableDebt, variableDebt, total);
      u >= 0 && 2 * (total * u) <= 2 * ((stableDebt + variableDebt) * RAY) + total
    ensures stableDebt + variableDebt == 0 ==> UtilizationRate(stableDebt, variableDebt, total) == 0
  {
    if stableDebt + variableDebt > 0 && total > 0 {
      RayDivRounds(stableDebt + variableDebt, total);
    }
  }

  lemma NoDebtNoRate(variable: int, averageStableRate: int)
    ensures OverallBorrowRate(0, 0, variable, averageStableRate) == 0
  {
  }

  lemma YieldWithoutDebt(rate: int, total: nat, kept: nat)
    requires rate == 0
    ensures 2 * PERCENTAGE_FACTOR * RAY * (rate * total)
            <= kept * (RAY * (2 * (RAY / WAD_RAY_RATIO)) + RAY * total) + RAY * PERCENTAGE_FACTOR * total
  {
  }

  lemma YieldFromDebt(rate: nat, overall: nat, u: nat, total: nat, debt: nat, paid: nat, kept: nat)
    requires 2 * PERCENTAGE_FACTOR * RAY * rate <= kept * (2 * (overall * u) + RAY) + RAY * PERCENTAGE_FACTOR
    requires 2 * (total * u) <= 2 * (debt * RAY) + total
    requires 2 * (overall * debt) <= 2 * paid + 2 * (RAY / WAD_RAY_RATIO) + debt
    ensures 2 * PERCENTAGE_FACTOR * RAY * (rate * total)
            <= kept * (RAY * (2 * paid + 2 * (RAY / WAD_RAY_RATIO) + debt) + (overall + RAY) * total)
               + RAY * PERCENTAGE_FACTOR * total
  {
    YieldShare(overall, u, total, debt, paid);
    YieldScaled(rate, kept, total, 2 * (overall * u) + RAY,
                RAY * (2 * paid + 2 * (RAY / WAD_RAY_RATIO) + debt) + (overall + RAY) * total);
  }

  /** The overall rate at the rounded utilization, times the total, is what the debt pays. */
  lemma YieldShare(overall: nat, u: nat, total: nat, debt: nat, paid: nat)
    requires 2 * (total * u) <= 2 * (debt * RAY) + total
    requires 2 * (overall * debt) <= 2 * paid + 2 * (RAY / WAD_RAY_RATIO) + debt
    ensures total * (2 * (overall * u) + RAY)
            <= RAY * (2 * paid + 2 * (RAY / WAD_RAY_RATIO) + debt) + (overall + RAY) * total
  {
  }

  lemma YieldScaled(rate: nat, kept: nat, total: nat, x: int, bound: int)
    requires 2 * PERCENTAGE_FACTOR * RAY * rate <= kept * x + RAY * PERCENTAGE_FACTOR
    requires total * x <= bound
    ensures 2 * PERCENTAGE_FACTOR * RAY * (rate * total) <= kept * bound + RAY * PERCENTAGE_FACTOR * total
  {
  }
}
