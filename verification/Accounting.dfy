/** Records of a reserve and of a user in it, and how their balances accrue between actions. */
module Accounting {
  import opened RayMath
  import opened Interest

  datatype RateMode = Stable | Variable

  /** The state of one reserve as the scenarios read it. */
  datatype Reserve = Reserve(
    totalLiquidity: int,
    availableLiquidity: int,
    totalStableDebt: int,
    totalVariableDebt: int,
    principalStableDebt: int,
    scaledVariableDebt: int,
    averageStableBorrowRate: int,
    variableBorrowRate: int,
    stableBorrowRate: int,
    utilizationRate: int,
    liquidityIndex: int,
    variableBorrowIndex: int,
    liquidityRate: int,
    marketStableRate: int,
    lastUpdateTimestamp: int,
    totalStableDebtLastUpdated: int)

  /** The position of one user in one reserve. */
  datatype User = User(
    scaledDepositBalance: int,
    currentDepositBalance: int,
    currentStableDebt: int,
    currentVariableDebt: int,
    principalStableDebt: int,
    scaledVariableDebt: int,
    liquidityRate: int,
    stableBorrowRate: int,
    stableRateLastUpdated: int,
    usageAsCollateralEnabled: bool,
    walletBalance: int)

  // ---------- Indexes and normalized values ----------

  function NormalizedIncome(r: Reserve, now: int): int {
    if r.liquidityRate == 0 then r.liquidityIndex
    else RayMul(LinearInterest(r.liquidityRate, now, r.lastUpdateTimestamp), r.liquidityIndex)
  }

  function NormalizedDebt(rate: int, index: int, last: int, now: int): int {
    if rate == 0 then index
    else RayMul(CompoundedInterest(rate, now, last), index)
  }

  /** The next liquidity index: it takes its short cut on the utilization, not on the rate. */
  function LiquidityIndexAt(r: Reserve, now: int): int {
    if r.utilizationRate == 0 then r.liquidityIndex
    else RayMul(LinearInterest(r.liquidityRate, now, r.lastUpdateTimestamp), r.liquidityIndex)
  }

  /** The next borrow index: it takes its short cut on the debt, not on the rate. */
  function VariableBorrowIndexAt(r: Reserve, now: int): int {
    if r.totalVariableDebt == 0 then r.variableBorrowIndex
    else RayMul(CompoundedInterest(r.variableBorrowRate, now, r.lastUpdateTimestamp), r.variableBorrowIndex)
  }

  // ---------- Balances ----------

  function DepositBalance(r: Reserve, scaled: int, now: int): int {
    RayMul(scaled, NormalizedIncome(r, now))
  }

  function VariableDebtBalance(r: Reserve, scaled: int, now: int): int {
    RayMul(scaled, NormalizedDebt(r.variableBorrowRate, r.variableBorrowIndex, r.lastUpdateTimestamp, now))
  }

  /** A stable debt with its short cuts, as it is computed for users. */
  function StableDebtBalance(principal: int, rate: int, last: int, now: int): int {
    if rate == 0 || now == last || last == 0 then principal
    else RayMul(principal, CompoundedInterest(rate, now, last))
  }

  /** A stable debt without short cuts, as it is computed for the reserve. */
  function TotalStableDebtAt(principal: int, rate: int, last: int, now: int): int {
    RayMul(CompoundedInterest(rate, now, last), principal)
  }

  function ScaledDeposit(scaled: int, index: int, added: int, taken: int): int {
    scaled + RayDiv(added, index) - RayDiv(taken, index)
  }

  // ---------- Average rates ----------

  function AverageStableRate(average: int, total: int, change: int, rate: int): int {
    if total + change == 0 then 0
    else TruncDiv(average * total + rate * change, total + change)
  }

  /** The average as the rebalance computes it: the change is widened to a ray, the total is not. */
  function RebalancedRate(average: int, total: int, change: int, rate: int): int {
    var borrowed := total + WadToRay(change);
    if borrowed == 0 then 0
    else RayDiv(RayMul(average, total) + RayMul(rate, WadToRay(change)), borrowed)
  }

  function UserStableRate(balance: int, rate: int, amount: int, rateNew: int): int {
    TruncDiv(balance * rate + amount * rateNew, balance + amount)
  }

  // ---------- The short cuts agree ----------

  /** Depositors are shown the income that the next action books, at every later time, exactly when
      the reserve is utilized or pays no rate. */
  lemma IncomeIsNextIndex(r: Reserve)
    requires r.liquidityRate >= 0 && r.liquidityIndex >= RAY
    ensures (forall now :: now >= r.lastUpdateTimestamp ==> NormalizedIncome(r, now) == LiquidityIndexAt(r, now))
            <==> r.utilizationRate != 0 || r.liquidityRate == 0
  {
    if r.utilizationRate != 0 || r.liquidityRate == 0 {
      forall now | now >= r.lastUpdateTimestamp
        ensures NormalizedIncome(r, now) == LiquidityIndexAt(r, now)
      {
        LinearBounds(r.liquidityRate, now, r.lastUpdateTimestamp);
        RayMulUnit(r.liquidityIndex);
      }
    } else {
      var now := r.lastUpdateTimestamp + ONE_YEAR;
      OneYearLinear(r.liquidityRate, r.lastUpdateTimestamp);
      StrictlyGrows(r.liquidityIndex, RAY + r.liquidityRate);
      assert NormalizedIncome(r, now) != LiquidityIndexAt(r, now) by { hide RayMul, LinearInterest; }
    }
  }

  lemma OneYearLinear(rate: nat, last: int)
    ensures LinearInterest(rate, last + ONE_YEAR, last) == RAY + rate
  {
  }

  /** A factor of more than one ray strictly grows a value of at least one ray. */
  lemma StrictlyGrows(x: int, factor: int)
    requires x >= RAY && factor > RAY
    ensures RayMul(factor, x) > x
  {
  }

  /** A user's debt is the same whether the rate or the total debt decides the short cut. */
  lemma DebtIsNextIndex(r: Reserve, scaled: nat, now: int)
    requires r.variableBorrowRate >= 0 && r.variableBorrowIndex >= RAY && now >= r.lastUpdateTimestamp
    requires r.totalVariableDebt == 0 ==> scaled == 0
    ensures VariableDebtBalance(r, scaled, now) == RayMul(scaled, VariableBorrowIndexAt(r, now))
  {
    CompoundedUnit(0, now, r.lastUpdateTimestamp);
    assert Power1(0) == 0;
    RayMulUnit(r.variableBorrowIndex);
    RayMulZero(NormalizedDebt(r.variableBorrowRate, r.variableBorrowIndex, r.lastUpdateTimestamp, now));
    RayMulZero(VariableBorrowIndexAt(r, now));
    hide RayMul, CompoundedInterest;
  }

  /** The fast stable balance is the total-stable formula, for every principal, exactly when the
      loan has a recorded date, no time has passed since the epoch, or the rate rounds to nothing. */
  lemma StableFastPathIff(rate: nat, last: nat, now: nat)
    requires last <= now
    ensures (forall principal: nat :: StableDebtBalance(principal, rate, last, now) == TotalStableDebtAt(principal, rate, last, now))
            <==> last != 0 || now == 0 || Power1(rate) == 0
  {
    hide RayMul, CompoundedInterest, Power1;
    if last != 0 || now == 0 || Power1(rate) == 0 {
      forall principal: nat
        ensures StableDebtBalance(principal, rate, last, now) == TotalStableDebtAt(principal, rate, last, now)
      {
        StableFastPath(principal, rate, last, now);
      }
    } else {
      CompoundedUnit(rate, now, last);
      CompoundedAtLeastSimple(rate, now, last);
      assert 0 <= Power1(rate) * (now - last) by { PowerBounds(rate); MulMono(0, now - last, Power1(rate)); }
      StrictlyGrows(RAY, CompoundedInterest(rate, now, last));
      assert StableDebtBalance(RAY, rate, last, now) != TotalStableDebtAt(RAY, rate, last, now);
    }
  }

  lemma StableFastPath(principal: nat, rate: nat, last: nat, now: nat)
    requires last <= now
    requires last != 0 || now == 0 || Power1(rate) == 0
    ensures StableDebtBalance(principal, rate, last, now) == TotalStableDebtAt(principal, rate, last, now)
  {
    hide RayMul, CompoundedInterest;
    CompoundedUnit(rate, now, last);
    RayMulUnit(principal);
    RayMulCommutes(principal, CompoundedInterest(rate, now, last));
  }

  // ---------- Accrual only grows ----------

  lemma IndexesGrow(r: Reserve, now: int)
    requires r.liquidityRate >= 0 && r.variableBorrowRate >= 0 && now >= r.lastUpdateTimestamp
    requires r.liquidityIndex >= RAY && r.variableBorrowIndex >= RAY
    ensures LiquidityIndexAt(r, now) >= r.liquidityIndex
    ensures VariableBorrowIndexAt(r, now) >= r.variableBorrowIndex
  {
    LinearBounds(r.liquidityRate, now, r.lastUpdateTimestamp);
    CompoundedAtLeastSimple(r.variableBorrowRate, now, r.lastUpdateTimestamp);
    RayMulGrows(r.liquidityIndex, LinearInterest(r.liquidityRate, now, r.lastUpdateTimestamp));
    RayMulGrows(r.variableBorrowIndex, CompoundedInterest(r.variableBorrowRate, now, r.lastUpdateTimestamp));
    hide RayMul, CompoundedInterest, LinearInterest;
  }

  /** A factor that grows by enough to move x by some units does move the scaled value by them. */
  lemma GrownFactor(x: nat, factor: nat, more: nat, units: nat)
    requires more * x >= units * RAY
    ensures RayMul(factor + more, x) >= RayMul(factor, x) + units
    ensures RayMul(x, factor + more) >= RayMul(x, factor) + units
  {
    assert (factor + more) * x == factor * x + more * x;
    assert x * (factor + more) == (factor + more) * x && x * factor == factor * x;
    MulMono(0, factor, x);
    DivMono(HALF_RAY + factor * x + units * RAY, HALF_RAY + (factor + more) * x, RAY);
    assert (HALF_RAY + factor * x + units * RAY) / RAY == (HALF_RAY + factor * x) / RAY + units;
  }

  /** While variable debt is recorded, every elapsed second raises the borrow index at least by the
      per-second rate. */
  lemma BorrowIndexGains(r: Reserve, now: int)
    requires r.variableBorrowRate >= 0 && r.variableBorrowIndex >= RAY && now >= r.lastUpdateTimestamp
    requires r.totalVariableDebt != 0
    ensures VariableBorrowIndexAt(r, now)
            >= r.variableBorrowIndex + Power1(r.variableBorrowRate) * (now - r.lastUpdateTimestamp)
  {
    hide RayMul, CompoundedInterest, Power1;
    var gained := Power1(r.variableBorrowRate) * (now - r.lastUpdateTimestamp);
    PowerBounds(r.variableBorrowRate);
    MulMono(0, Power1(r.variableBorrowRate), now - r.lastUpdateTimestamp);
    CompoundedAtLeastSimple(r.variableBorrowRate, now, r.lastUpdateTimestamp);
    MulMono(RAY, r.variableBorrowIndex, gained);
    GrownFactor(r.variableBorrowIndex, RAY, gained, gained);
    RayMulUnit(r.variableBorrowIndex);
    RayMulMono(RAY + gained, CompoundedInterest(r.variableBorrowRate, now, r.lastUpdateTimestamp),
               r.variableBorrowIndex, r.variableBorrowIndex);
  }

  /** A stable debt gains whole units once simple interest on its principal comes to them. */
  lemma StableDebtGains(principal: nat, rate: nat, last: int, now: int, later: int, units: nat)
    requires last <= now <= later
    requires (Power1(rate) * (later - now)) * principal >= units * RAY
    ensures TotalStableDebtAt(principal, rate, last, later) >= TotalStableDebtAt(principal, rate, last, now) + units
  {
    hide RayMul, CompoundedInterest, Power1, BinomialSum;
    var gained := Power1(rate) * (later - now);
    PowerBounds(rate);
    MulMono(0, Power1(rate), later - now);
    CompoundedIsBinomial(rate, now, last);
    CompoundedIsBinomial(rate, later, last);
    BinomialGains(rate, now - last, later - last);
    CompoundedAtLeastSimple(rate, now, last);
    MulMono(0, Power1(rate), now - last);
    GrownFactor(principal, CompoundedInterest(rate, now, last), gained, units);
    RayMulMono(CompoundedInterest(rate, now, last) + gained, CompoundedInterest(rate, later, last), principal, principal);
  }

  lemma NormalizedDebtGrows(rate: nat, index: int, last: int, now: int)
    requires index >= RAY && now >= last
    ensures NormalizedDebt(rate, index, last, now) >= index
    ensures now == last ==> NormalizedDebt(rate, index, last, now) == index
  {
    CompoundedAtLeastSimple(rate, now, last);
    RayMulGrows(index, CompoundedInterest(rate, now, last));
    CompoundedUnit(rate, now, last);
    RayMulUnit(index);
    hide RayMul, CompoundedInterest;
  }

  lemma StableDebtGrows(principal: nat, rate: nat, last: int, now: int)
    requires now >= last
    ensures principal <= StableDebtBalance(principal, rate, last, now) <= TotalStableDebtAt(principal, rate, last, now)
    ensures principal == 0 ==> TotalStableDebtAt(principal, rate, last, now) == 0
  {
    CompoundedAtLeastSimple(rate, now, last);
    RayMulGrows(principal, CompoundedInterest(rate, now, last));
    RayMulCommutes(principal, CompoundedInterest(rate, now, last));
    RayMulZero(CompoundedInterest(rate, now, last));
    hide RayMul, CompoundedInterest;
  }

  lemma TotalStableDebtMono(principal: nat, rate: nat, last: int, now: int, later: int)
    requires last <= now <= later
    ensures TotalStableDebtAt(principal, rate, last, now) <= TotalStableDebtAt(principal, rate, last, later)
  {
    CompoundedAtLeastSimple(rate, now, last);
    CompoundedMono(rate, rate, now, later, last);
    RayMulMono(CompoundedInterest(rate, now, last), CompoundedInterest(rate, later, last), principal, principal);
  }
}
