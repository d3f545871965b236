/** The deployed contracts' own arithmetic beside the scenarios' expected values: where the two are
    the same number, where they stay within the scenarios' tolerance of three units, and where not. */
module ContractMatch {
  import opened RayMath
  import opened Interest
  import opened Accounting
  import opened Soundness
  import opened Transitions
  import RateModel

  const WAD: int := 1_000_000_000_000_000_000
  const HALF_WAD: int := 500_000_000_000_000_000

  /** How far an expected value may be from the contract's before a scenario fails. */
  const TOLERANCE: int := 3

  ghost predicate WithinTolerance(expected: int, actual: int) {
    -TOLERANCE <= expected - actual <= TOLERANCE
  }

  // ---------- Contract arithmetic, on unsigned numbers ----------

  function ContractRayMul(a: nat, b: nat): nat {
    if a == 0 || b == 0 then 0 else (a * b + HALF_RAY) / RAY
  }

  function ContractRayDiv(a: nat, b: nat): nat
    requires b != 0
  {
    (a * RAY + b / 2) / b
  }

  function ContractWadMul(a: nat, b: nat): nat {
    if a == 0 || b == 0 then 0 else (a * b + HALF_WAD) / WAD
  }

  function ContractWadDiv(a: nat, b: nat): nat
    requires b != 0
  {
    (a * WAD + b / 2) / b
  }

  lemma RayMulMatches(a: nat, b: nat)
    ensures ContractRayMul(a, b) == RayMul(a, b)
  {
  }

  lemma RayDivMatches(a: nat, b: nat)
    requires b != 0
    ensures ContractRayDiv(a, b) == RayDiv(a, b)
  {
  }

  // ---------- Interest ----------

  function ContractCompounded(rate: nat, last: nat, now: nat): int
    requires last <= now
  {
    var exp := now - last;
    if exp == 0 then RAY else
      var expMinusTwo := if exp > 2 then exp - 2 else 0;
      var ratePerSecond := rate / ONE_YEAR;
      var basePowerTwo := ContractRayMul(ratePerSecond, ratePerSecond);
      var basePowerThree := ContractRayMul(basePowerTwo, ratePerSecond);
      RAY + exp * ratePerSecond + exp * (exp - 1) * basePowerTwo / 2
      + exp * (exp - 1) * expMinusTwo * basePowerThree / 6
  }

  /** The scenarios expect exactly the interest that the contract computes. */
  lemma CompoundedMatches(rate: nat, last: nat, now: nat)
    requires last <= now
    ensures ContractCompounded(rate, last, now) == CompoundedInterest(rate, now, last)
  {
    var n := now - last;
    PowerBounds(rate);
    var p, b2, b3 := Power1(rate), Power2(rate), Power3(rate);
    RayMulMatches(p, p);
    RayMulMatches(b2, p);
    if n > 0 {
      var m := if n > 2 then n - 2 else 0;
      CompoundedIsBinomial(rate, now, last);
      ChooseClosedForms(n);
      ScaledExactly(2, Choose2(n), n * (n - 1), b2);
      ScaledExactly(6, Choose3(n), n * (n - 1) * m, b3);
    }
    hide RayMul, ContractRayMul, CompoundedInterest;
  }

  // ---------- Rates ----------

  /** Below the kink the contract multiplies before it divides. */
  function ContractVariableRate(c: RateModel.Strategy, u: nat): nat
    requires RateModel.ValidStrategy(c)
  {
    if u > c.optimalUtilizationRate then
      c.baseVariableBorrowRate + c.variableRateSlope1
      + ContractRayMul(c.variableRateSlope2,
                       ContractRayDiv(u - c.optimalUtilizationRate, RAY - c.optimalUtilizationRate))
    else
      c.baseVariableBorrowRate + ContractRayDiv(ContractRayMul(u, c.variableRateSlope1), c.optimalUtilizationRate)
  }

  function ContractOverallRate(stableDebt: nat, variableDebt: nat, variableRate: nat, averageStableRate: nat): nat {
    if stableDebt + variableDebt == 0 then 0 else
      ContractWadDiv(ContractRayMul(variableDebt * WAD_RAY_RATIO, variableRate)
                     + ContractRayMul(stableDebt * WAD_RAY_RATIO, averageStableRate),
                     stableDebt + variableDebt)
  }

  /** Dividing by the debt in wads or in rays gives the same overall rate, to the unit. */
  lemma OverallRateMatches(stableDebt: nat, variableDebt: nat, variableRate: nat, averageStableRate: nat)
    ensures ContractOverallRate(stableDebt, variableDebt, variableRate, averageStableRate)
            == RateModel.OverallBorrowRate(stableDebt, variableDebt, variableRate, averageStableRate)
  {
    RayMulMatches(variableDebt * WAD_RAY_RATIO, variableRate);
    RayMulMatches(stableDebt * WAD_RAY_RATIO, averageStableRate);
    if stableDebt + variableDebt > 0 {
      WadOrRayQuotient(ContractRayMul(variableDebt * WAD_RAY_RATIO, variableRate)
                       + ContractRayMul(stableDebt * WAD_RAY_RATIO, averageStableRate), stableDebt + variableDebt);
    }
    hide RayMul, ContractRayMul, RayDiv, ContractWadDiv;
  }

  lemma WadOrRayQuotient(weight: nat, debt: nat)
    requires debt > 0
    ensures ContractWadDiv(weight, debt) == RayDiv(weight, WadToRay(debt))
  {
    var k := ContractWadDiv(weight, debt);
    DivBounds(weight * WAD + debt / 2, debt);
    var wide := WadToRay(debt);
    assert wide * k == WAD_RAY_RATIO * (debt * k);
    QuotientUnique(wide / 2 + weight * RAY, wide, k);
  }

  /** Above the kink the variable rates are equal; below it they differ by at most what the two
      orders of rounding cost. */
  lemma VariableRateBound(c: RateModel.Strategy, u: nat)
    requires RateModel.ValidStrategy(c)
    ensures
      var d := RateModel.VariableRate(c, u) - ContractVariableRate(c, u);
      var slack := c.variableRateSlope1 * c.optimalUtilizationRate + RAY * RAY + 2 * (c.optimalUtilizationRate * RAY);
      if u > c.optimalUtilizationRate then d == 0
      else -slack <= 2 * (RAY * (c.optimalUtilizationRate * d)) <= slack
  {
    var opt, slope := c.optimalUtilizationRate, c.variableRateSlope1;
    if u > opt {
      RayDivMatches(u - opt, RAY - opt);
      RayMulMatches(c.variableRateSlope2, ContractRayDiv(u - opt, RAY - opt));
      hide RayMul, RayDiv, ContractRayMul, ContractRayDiv;
    } else {
      RayMulMatches(u, slope);
      RayDivMatches(RayMul(u, slope), opt);
      OrdersOfRounding(u, opt, slope);
      hide RayMul, RayDiv, ContractRayMul, ContractRayDiv;
    }
  }

  lemma OrdersOfRounding(u: nat, opt: nat, slope: nat)
    requires opt > 0
    ensures
      var d := RayMul(RayDiv(u, opt), slope) - RayDiv(RayMul(u, slope), opt);
      var slack := slope * opt + RAY * RAY + 2 * (opt * RAY);
      -slack <= 2 * (RAY * (opt * d)) <= slack
  {
    hide RayMul, RayDiv;
    MultiplyFirst(u, opt, slope);
    var a := RayDiv(u, opt);
    RayDivRounds(u, opt);
    MulMono(0, a, slope);
    RayMulRounds(a, slope);
    Reordered(u, opt, a, slope);
    TwoRoundings(2 * (u * RAY), opt, opt * a, slope, a * slope, RayMul(a, slope), opt);
    Difference(opt, RayMul(RayDiv(u, opt), slope), RayDiv(RayMul(u, slope), opt));
  }

  lemma Difference(opt: int, m: int, k: int)
    ensures RAY * (opt * (m - k)) == RAY * (opt * m) - RAY * (opt * k)
  {
  }

  lemma Reordered(u: int, opt: int, a: int, slope: int)
    ensures opt * (a * slope) == (opt * a) * slope
    ensures (2 * (u * RAY)) * slope == 2 * (RAY * (u * slope))
    ensures opt * slope == slope * opt
  {
  }

  /** a rounding to opt * a, scaled by the slope, then a rounding of the product to one ray. */
  lemma TwoRoundings(exact: int, slack: nat, scaled: int, slope: nat, product: int, m: int, opt: nat)
    requires exact - slack <= 2 * scaled <= exact + slack
    requires opt * product == scaled * slope
    requires 2 * product - RAY <= 2 * RAY * m <= 2 * product + RAY
    ensures exact * slope - slack * slope - opt * RAY <= 2 * (RAY * (opt * m)) <= exact * slope + slack * slope + opt * RAY
  {
    MulMono(exact - slack, 2 * scaled, slope);
    MulMono(2 * scaled, exact + slack, slope);
    MulMono(2 * product - RAY, 2 * RAY * m, opt);
    MulMono(2 * RAY * m, 2 * product + RAY, opt);
    assert opt * (2 * RAY * m) == 2 * (RAY * (opt * m));
    assert opt * (2 * product) == 2 * (scaled * slope);
  }

  lemma MultiplyFirst(u: nat, opt: nat, slope: nat)
    requires opt > 0
    ensures
      var k := RayDiv(RayMul(u, slope), opt);
      2 * (RAY * (u * slope)) - RAY * RAY - opt * RAY <= 2 * (RAY * (opt * k))
      <= 2 * (RAY * (u * slope)) + RAY * RAY + opt * RAY
  {
    MulMono(0, u, slope);
    RayMulRounds(u, slope);
    RayDivRounds(RayMul(u, slope), opt);
    hide RayMul, RayDiv;
  }

  /** The expected variable rate passes the scenarios' comparison at every utilization, for any
      strategy whose first slope and kink satisfy slope1 / ray + ray / optimal < 6. */
  lemma VariableRateWithinTolerance(c: RateModel.Strategy, u: nat)
    requires RateModel.ValidStrategy(c)
    requires c.variableRateSlope1 * c.optimalUtilizationRate + RAY * RAY < 6 * (c.optimalUtilizationRate * RAY)
    ensures WithinTolerance(RateModel.VariableRate(c, u), ContractVariableRate(c, u))
  {
    hide RateModel.VariableRate, ContractVariableRate;
    VariableRateBound(c, u);
    var d := RateModel.VariableRate(c, u) - ContractVariableRate(c, u);
    SmallFactor(c.optimalUtilizationRate, d);
    SmallFactor(c.optimalUtilizationRate, -d);
  }

  /** At one unit of utilization, a first slope of less than half a ray adds nothing at the contract, so
      the comparison passes exactly if it adds at most three units to the expected rate. */
  lemma FirstUnitWithinToleranceIff(c: RateModel.Strategy)
    requires RateModel.ValidStrategy(c) && c.variableRateSlope1 < HALF_RAY
    ensures WithinTolerance(RateModel.VariableRate(c, 1), ContractVariableRate(c, 1))
            <==> RayMul(RayDiv(1, c.optimalUtilizationRate), c.variableRateSlope1) <= TOLERANCE
  {
    assert ContractRayMul(1, c.variableRateSlope1) == 0;
    NothingDivided(c.optimalUtilizationRate);
    RayDivRounds(1, c.optimalUtilizationRate);
    MulMono(0, RayDiv(1, c.optimalUtilizationRate), c.variableRateSlope1);
    RayMulRounds(RayDiv(1, c.optimalUtilizationRate), c.variableRateSlope1);
    hide RayMul, RayDiv, ContractRayMul, ContractRayDiv;
  }

  lemma NothingDivided(b: nat)
    requires b != 0
    ensures ContractRayDiv(0, b) == 0
  {
  }

  /** With a kink at 1% and a first slope of 30%, one part in 10^27 of utilization costs 30 units at
      the expected rate and nothing at the contract's: such a strategy fails the comparison. */
  lemma SmallKinkOutOfTolerance(c: RateModel.Strategy)
    requires RateModel.ValidStrategy(c)
    requires c.optimalUtilizationRate == RAY / 100 && c.variableRateSlope1 == 30 * (RAY / 100)
    ensures RateModel.VariableRate(c, 1) == ContractVariableRate(c, 1) + 30
  {
    assert RayDiv(1, RAY / 100) == 100;
    assert RayMul(100, 30 * (RAY / 100)) == 30;
    assert ContractRayMul(1, 30 * (RAY / 100)) == 0;
    assert ContractRayDiv(0, RAY / 100) == 0;
  }

  lemma SmallFactor(opt: int, d: int)
    requires opt > 0
    ensures d >= 4 ==> 2 * (RAY * (opt * d)) >= 8 * (opt * RAY)
    ensures 2 * (RAY * (opt * -d)) == -(2 * (RAY * (opt * d)))
  {
  }

  function ContractPercentMul(value: nat, factor: nat): nat {
    if value == 0 || factor == 0 then 0 else (value * factor + HALF_PERCENTAGE) / PERCENTAGE_FACTOR
  }

  lemma PercentMulMatches(value: nat, factor: nat)
    ensures ContractPercentMul(value, factor) == PercentMul(value, factor)
  {
  }

  function ContractStableRate(c: RateModel.Strategy, market: nat, u: nat): int
    requires RateModel.ValidStrategy(c)
  {
    if u > c.optimalUtilizationRate then
      market + c.stableRateSlope1
      + ContractRayMul(c.stableRateSlope2,
                       ContractRayDiv(u - c.optimalUtilizationRate, RAY - c.optimalUtilizationRate))
    else
      market + ContractRayMul(c.stableRateSlope1, ContractRayDiv(u, c.optimalUtilizationRate))
  }

  lemma StableRateMatches(c: RateModel.Strategy, market: nat, u: nat)
    requires RateModel.ValidStrategy(c)
    ensures ContractStableRate(c, market, u) == RateModel.StableRate(c, market, u)
  {
    var opt := c.optimalUtilizationRate;
    if u > opt {
      RayDivMatches(u - opt, RAY - opt);
      RayMulMatches(c.stableRateSlope2, ContractRayDiv(u - opt, RAY - opt));
    } else {
      RayDivMatches(u, opt);
      RayMulMatches(c.stableRateSlope1, ContractRayDiv(u, opt));
    }
    hide RayMul, RayDiv, ContractRayMul, ContractRayDiv;
  }

  /** The contract's three rates, from what is held and what is lent. */
  function ContractRates(c: RateModel.Strategy, market: nat, available: nat, stableDebt: nat, variableDebt: nat,
                         averageStableRate: nat): RateModel.Rates
    requires RateModel.ValidStrategy(c)
  {
    var debt := stableDebt + variableDebt;
    var u: nat := if debt == 0 then 0 else ContractRayDiv(debt, available + debt);
    var variable := ContractVariableRate(c, u);
    var overall := ContractOverallRate(stableDebt, variableDebt, variable, averageStableRate);
    RateModel.Rates(ContractPercentMul(ContractRayMul(overall, u), PERCENTAGE_FACTOR - c.reserveFactor),
                    ContractStableRate(c, market, u), variable)
  }

  /** On a balanced sheet the expected stable rate is always the contract's, and the yield is whenever
      the variable rate is: in particular all three rates are, above the kink. */
  lemma RatesMatch(c: RateModel.Strategy, market: nat, available: nat, stableDebt: nat, variableDebt: nat,
                   averageStableRate: nat)
    requires RateModel.ValidStrategy(c)
    ensures
      var u := RateModel.UtilizationRate(stableDebt, variableDebt, available + stableDebt + variableDebt);
      var expected := RateModel.InterestRates(c, market, u, stableDebt, variableDebt, averageStableRate);
      var actual := ContractRates(c, market, available, stableDebt, variableDebt, averageStableRate);
      && expected.stable == actual.stable
      && (expected.variable == actual.variable ==> expected == actual)
      && (u > c.optimalUtilizationRate ==> expected == actual)
  {
    hide RayMul, RayDiv, PercentMul, ContractRayMul, ContractRayDiv, ContractPercentMul, RateModel.VariableRate,
         RateModel.StableRate, RateModel.OverallBorrowRate, ContractStableRate, ContractOverallRate, ContractVariableRate;
    var debt := stableDebt + variableDebt;
    if debt > 0 { RayDivMatches(debt, available + debt); }
    RateModel.UtilizationBounds(stableDebt, variableDebt, available);
    var u := RateModel.UtilizationRate(stableDebt, variableDebt, available + stableDebt + variableDebt);
    StableRateMatches(c, market, u);
    VariableRateBound(c, u);
    var variable := ContractVariableRate(c, u);
    var overall := ContractOverallRate(stableDebt, variableDebt, variable, averageStableRate);
    OverallRateMatches(stableDebt, variableDebt, variable, averageStableRate);
    RayMulMatches(overall, u);
    PercentMulMatches(ContractRayMul(overall, u), PERCENTAGE_FACTOR - c.reserveFactor);
  }

  // ---------- Indexes ----------

  function ContractLinear(rate: nat, last: nat, now: nat): nat
    requires last <= now
  {
    RAY + rate * (now - last) / ONE_YEAR
  }

  lemma LinearMatches(rate: nat, last: nat, now: nat)
    requires last <= now
    ensures ContractLinear(rate, last, now) == LinearInterest(rate, now, last)
  {
  }

  /** The contract accrues either index only while depositors earn a rate. */
  function ContractIndexes(r: Reserve, now: nat): (int, int)
    requires Sound(r) && r.lastUpdateTimestamp <= now
  {
    var last := r.lastUpdateTimestamp;
    if r.liquidityRate > 0 then
      (ContractRayMul(ContractLinear(r.liquidityRate, last, now), r.liquidityIndex),
       if r.scaledVariableDebt != 0
       then ContractRayMul(CompoundedNat(r.variableBorrowRate, last, now), r.variableBorrowIndex)
       else r.variableBorrowIndex)
    else (r.liquidityIndex, r.variableBorrowIndex)
  }

  function CompoundedNat(rate: nat, last: nat, now: nat): nat
    requires last <= now
  {
    CompoundedMatches(rate, last, now);
    CompoundedAtLeastSimple(rate, now, last);
    ContractCompounded(rate, last, now)
  }

  /** The contract's two steps, in the terms of the expected values. */
  lemma ContractSteps(r: Reserve, now: nat)
    requires Sound(r) && r.lastUpdateTimestamp <= now
    ensures ContractIndexes(r, now)
            == if r.liquidityRate == 0 then (r.liquidityIndex, r.variableBorrowIndex)
               else (RayMul(LinearInterest(r.liquidityRate, now, r.lastUpdateTimestamp), r.liquidityIndex),
                     if r.scaledVariableDebt == 0 then r.variableBorrowIndex
                     else RayMul(CompoundedInterest(r.variableBorrowRate, now, r.lastUpdateTimestamp),
                                 r.variableBorrowIndex))
  {
    hide RayMul, ContractRayMul, ContractLinear, LinearInterest, ContractCompounded, CompoundedInterest;
    var last := r.lastUpdateTimestamp;
    LinearMatches(r.liquidityRate, last, now);
    CompoundedMatches(r.variableBorrowRate, last, now);
    RayMulMatches(ContractLinear(r.liquidityRate, last, now), r.liquidityIndex);
    RayMulMatches(CompoundedNat(r.variableBorrowRate, last, now), r.variableBorrowIndex);
  }

  /** The expected indexes are the contract's at every later time exactly when depositors earn a
      rate, or nothing is owed, or the borrow rate rounds to nothing per second: a reserve that keeps
      all its interest breaks the agreement. */
  lemma IndexesMatchIff(r: Reserve)
    requires Sound(r)
    ensures (forall now: nat :: now >= r.lastUpdateTimestamp ==>
               ContractIndexes(r, now) == (LiquidityIndexAt(r, now), VariableBorrowIndexAt(r, now)))
            <==> r.liquidityRate > 0 || r.scaledVariableDebt == 0 || Power1(r.variableBorrowRate) == 0
  {
    hide RayMul, LinearInterest, CompoundedInterest, Power1, ContractIndexes;
    if r.liquidityRate > 0 || r.scaledVariableDebt == 0 || Power1(r.variableBorrowRate) == 0 {
      forall now: nat | now >= r.lastUpdateTimestamp
        ensures ContractIndexes(r, now) == (LiquidityIndexAt(r, now), VariableBorrowIndexAt(r, now))
      {
        ContractSteps(r, now);
        LinearBounds(r.liquidityRate, now, r.lastUpdateTimestamp);
        CompoundedUnit(r.variableBorrowRate, now, r.lastUpdateTimestamp);
        RayMulUnit(r.liquidityIndex);
        RayMulUnit(r.variableBorrowIndex);
      }
    } else {
      var now := r.lastUpdateTimestamp + 1;
      ContractSteps(r, now);
      CompoundedUnit(r.variableBorrowRate, now, r.lastUpdateTimestamp);
      CompoundedAtLeastSimple(r.variableBorrowRate, now, r.lastUpdateTimestamp);
      StrictlyGrows(r.variableBorrowIndex, CompoundedInterest(r.variableBorrowRate, now, r.lastUpdateTimestamp));
      assert ContractIndexes(r, now).1 != VariableBorrowIndexAt(r, now);
    }
  }

  // ---------- The average stable rate after a loan ----------

  function ContractMintAverage(average: nat, supply: nat, amount: nat, rate: nat): nat
    requires supply + amount > 0
  {
    ContractWadDiv(ContractWadMul(average, supply) + ContractWadMul(rate, amount), supply + amount)
  }

  lemma WadMulRounds(a: nat, b: nat)
    ensures 2 * (a * b) - WAD < 2 * WAD * ContractWadMul(a, b) <= 2 * (a * b) + WAD
  {
  }

  /** The expected average and the contract's differ by at most one token over the debt plus three
      halves, so the comparison passes as soon as the debt reaches half a whole token. */
  lemma MintAverageBound(average: nat, supply: nat, amount: nat, rate: nat)
    requires supply + amount > 0
    ensures
      var n := supply + amount;
      var d := AverageStableRate(average, supply, amount, rate) - ContractMintAverage(average, supply, amount, rate);
      -(2 * WAD + 3 * n) <= 2 * (n * d) <= 2 * WAD + 3 * n && (2 * n >= WAD ==> -TOLERANCE <= d <= TOLERANCE)
  {
    var n := supply + amount;
    var x, y := average * supply, rate * amount;
    MulMono(0, average, supply);
    MulMono(0, rate, amount);
    WadMulRounds(average, supply);
    WadMulRounds(rate, amount);
    var weight := ContractWadMul(average, supply) + ContractWadMul(rate, amount);
    DivBounds(weight * WAD + n / 2, n);
    DivBounds(x + y, n);
    hide ContractWadMul;
    CloseQuotients(x + y, weight * WAD, n, (x + y) / n, ContractMintAverage(average, supply, amount, rate));
  }

  /** A loan of one unit at a rate of four units fails it: the contract's average rounds to nothing. */
  lemma OneUnitOutOfTolerance()
    ensures AverageStableRate(0, 0, 1, 4) == 4 && ContractMintAverage(0, 0, 1, 4) == 0
  {
  }

  lemma CloseQuotients(sum: int, near: int, n: nat, q: int, k: int)
    requires -WAD <= near - sum <= WAD
    requires n * q <= sum < n * q + n
    requires n * k <= near + n / 2 < n * k + n
    ensures -(2 * WAD + 3 * n) <= 2 * (n * (q - k)) <= 2 * WAD + 3 * n
    ensures 2 * n >= WAD ==> WithinTolerance(q, k)
  {
    assert n * (q - k) == n * q - n * k;
    assert n * (k - q) == n * k - n * q;
    if q - k >= 4 { MulMono(4, q - k, n); }
    if k - q >= 4 { MulMono(4, k - q, n); }
  }

  // ---------- The average stable rate after a repayment ----------

  /** The supply and the average rate that the contract leaves. Its clamps are on the supply, and on
      the two weighted rates after each has been rounded. */
  function ContractBurn(average: nat, supply: nat, amount: nat, rate: nat): (int, int) {
    if supply <= amount then (0, 0) else
      var first := ContractRayMul(average, WadToRay(supply));
      var second := ContractRayMul(rate, WadToRay(amount));
      if second >= first then (0, 0)
      else (supply - amount, ContractRayDiv(first - second, WadToRay(supply - amount)))
  }

  /** What is owed after a stable repayment is what the contract leaves, exactly unless the rest of
      the loans weighs less than the contract's rounding sees and yet enough for the expected average:
      then the contract forgives a debt that the scenarios still expect. */
  lemma BurnMatchesIff(average: nat, supply: nat, amount: nat, rate: nat)
    ensures AfterStableRepay(supply, average, amount, rate).0 == ContractBurn(average, supply, amount, rate).0
            <==> supply <= amount
                 || RayMul(average, WadToRay(supply)) > RayMul(rate, WadToRay(amount))
                 || average * supply - rate * amount <= amount - supply
  {
    RayMulMatches(average, WadToRay(supply));
    RayMulMatches(rate, WadToRay(amount));
    hide RayMul, ContractRayMul, ContractRayDiv;
    if amount < supply {
      ErasedIff(average, supply, amount, rate);
      if average * supply <= rate * amount {
        HeavierRoundsHeavier(average, supply, amount, rate);
      }
    }
  }

  /** The expected average is negative from one unit per remaining unit of debt below zero on. */
  lemma ErasedIff(average: nat, supply: nat, amount: nat, rate: nat)
    requires amount < supply
    ensures AverageStableRate(average, supply, -(amount as int), rate) < 0
            <==> average * supply - rate * amount <= amount - supply
  {
    assert rate * -(amount as int) == -(rate * amount);
    NonNegativeQuotient(average * supply - rate * amount, supply - amount);
  }

  lemma HeavierRoundsHeavier(average: nat, supply: nat, amount: nat, rate: nat)
    requires average * supply <= rate * amount
    ensures RayMul(average, WadToRay(supply)) <= RayMul(rate, WadToRay(amount))
  {
    assert average * WadToRay(supply) == (average * supply) * WAD_RAY_RATIO;
    assert rate * WadToRay(amount) == (rate * amount) * WAD_RAY_RATIO;
    MulMono(0, average, supply);
    MulMono(average * supply, rate * amount, WAD_RAY_RATIO);
    DivMono(HALF_RAY + average * WadToRay(supply), HALF_RAY + rate * WadToRay(amount), RAY);
  }

  /** Where neither side erases the debt, the averages differ by at most one token over what stays lent
      plus three halves, so they pass the comparison as soon as half a token does. */
  lemma BurnAverageBound(average: nat, supply: nat, amount: nat, rate: nat)
    requires amount < supply
    requires RayMul(average, WadToRay(supply)) > RayMul(rate, WadToRay(amount))
    ensures
      var n := supply - amount;
      var d := AfterStableRepay(supply, average, amount, rate).1 - ContractBurn(average, supply, amount, rate).1;
      -(2 * WAD + 3 * n) <= 2 * (n * d) <= 2 * WAD + 3 * n && (2 * n >= WAD ==> -TOLERANCE <= d <= TOLERANCE)
  {
    var n: nat := supply - amount;
    var first, second := RayMul(average, WadToRay(supply)), RayMul(rate, WadToRay(amount));
    var rest := average * supply - rate * amount;
    RayMulMatches(average, WadToRay(supply));
    RayMulMatches(rate, WadToRay(amount));
    WideProduct(average, supply);
    WideProduct(rate, amount);
    ErasedIff(average, supply, amount, rate);
    if rest < 0 {
      HeavierRoundsHeavier(average, supply, amount, rate);
    }
    hide RayMul, ContractRayMul;
    var weight: nat := first - second;
    WadOrRayQuotient(weight, n);
    RayDivMatches(weight, WadToRay(n));
    DivBounds(weight * WAD + n / 2, n);
    DivBounds(rest, n);
    assert AverageStableRate(average, supply, -(amount as int), rate) == rest / n by {
      assert rate * -(amount as int) == -(rate * amount);
    }
    hide RayDiv, ContractRayDiv, AverageStableRate;
    CloseQuotients(rest, weight * WAD, n, rest / n, ContractWadDiv(weight, n));
  }

  lemma WideProduct(a: nat, b: nat)
    ensures 2 * (a * b) - WAD <= 2 * WAD * RayMul(a, WadToRay(b)) <= 2 * (a * b) + WAD
  {
    assert a * WadToRay(b) == (a * b) * WAD_RAY_RATIO;
    MulMono(0, a, b);
    RayMulRounds(a, WadToRay(b));
  }

  /** A debt without a rate is forgiven by any repayment: the contract erases all of it, where the
      scenarios expect the rest to be owed still. */
  lemma BurnForgivesFreeDebt(supply: nat, amount: nat)
    requires amount < supply
    ensures ContractBurn(0, supply, amount, 0) == (0, 0)
    ensures AfterStableRepay(supply, 0, amount, 0) == (supply - amount, 0)
  {
  }
}
