/** What whole exits, round trips and swaps leave behind, and what a deposit's un-accrued total does to
    the books: the exact conditions under which it keeps them. */
module Exits {
  import opened RayMath
  import opened Interest
  import opened Accounting
  import opened Transitions
  import opened Soundness
  import RateModel
  import Pool

  // ---------- Full exits ----------

  /** Withdrawing everything leaves exactly nothing, scaled or shown, and stops the collateral use. */
  lemma MaxWithdrawEmpties(c: Strategy, r: Reserve, u: User, tx: int)
    requires Sound(r) && r.lastUpdateTimestamp <= tx && Fits(r, u, tx)
    ensures
      var after := ReserveAfterWithdraw(c, MAX_UINT_AMOUNT, r, u, tx);
      var left := UserAfterWithdraw(MAX_UINT_AMOUNT, r, after, u, tx);
      && left.scaledDepositBalance == 0 && left.currentDepositBalance == 0
      && (left.usageAsCollateralEnabled <==> u.currentDepositBalance == 0)
      && left.walletBalance == u.walletBalance + DepositBalance(r, u.scaledDepositBalance, tx)
  {
    hide RayMul, RayDiv, LiquidityIndexAt, VariableBorrowIndexAt, NormalizedIncome, ScaledDeposit,
         RateModel.InterestRates, RateModel.UtilizationRate;
    Pool.WithdrawnNonNegative(r, u, MAX_UINT_AMOUNT, tx);
    Pool.WithdrawnShareFits(r, u.scaledDepositBalance, DepositBalance(r, u.scaledDepositBalance, tx), tx);
  }

  /** Repaying all variable debt never leaves any behind; observed when it is mined, it burns exactly
      the user's share on both sides. */
  lemma MaxVariableRepayEmpties(c: Strategy, r: Reserve, u: User, pays: bool, tx: int, now: int)
    requires Sound(r) && r.lastUpdateTimestamp <= tx <= now && Fits(r, u, tx)
    ensures
      var after := ReserveAfterRepay(c, MAX_UINT_AMOUNT, Variable, r, u, tx);
      var left := UserAfterRepay(MAX_UINT_AMOUNT, Variable, r, after, u, pays, tx, now);
      && left.scaledVariableDebt <= 0
      && (tx == now ==> left.scaledVariableDebt == 0 && left.currentVariableDebt == 0)
      && after.scaledVariableDebt == r.scaledVariableDebt - u.scaledVariableDebt
  {
    hide RayMul, RayDiv, LiquidityIndexAt, VariableBorrowIndexAt, NormalizedIncome, NormalizedDebt, StableDebtBalance,
         RateModel.InterestRates, RateModel.UtilizationRate;
    var index := VariableBorrowIndexAt(r, tx);
    UserDebtsAt(r, u, tx);
    DebtsAt(r, u.scaledVariableDebt, tx);
    RayMulZero(index);
    LaterDebtCovers(r, u.scaledVariableDebt, tx, now);
    RayDivMono(VariableDebtBalance(r, u.scaledVariableDebt, tx), VariableDebtBalance(r, u.scaledVariableDebt, now), index);
  }

  lemma LaterDebtCovers(r: Reserve, scaled: nat, tx: int, now: int)
    requires Sound(r) && r.lastUpdateTimestamp <= tx <= now
    ensures 0 <= VariableDebtBalance(r, scaled, tx) <= VariableDebtBalance(r, scaled, now)
  {
    hide RayMul, CompoundedInterest;
    var rate, index, last := r.variableBorrowRate, r.variableBorrowIndex, r.lastUpdateTimestamp;
    CompoundedMono(rate, rate, tx, now, last);
    CompoundedAtLeastSimple(rate, tx, last);
    RayMulMono(CompoundedInterest(rate, tx, last), CompoundedInterest(rate, now, last), index, index);
    NormalizedDebtGrows(rate, index, last, tx);
    RayMulMono(scaled, scaled, NormalizedDebt(rate, index, last, tx), NormalizedDebt(rate, index, last, now));
    RayMulGrows(scaled, NormalizedDebt(rate, index, last, tx));
  }

  // ---------- Deposit and leave ----------

  /** Two balances at one index add up to one unit plus what the second lost when it was scaled. */
  lemma JoinedBalance(scaled: nat, amount: nat, index: int)
    requires index > 0
    ensures
      var joined := RayMul(scaled + RayDiv(amount, index), index);
      && -(index + 2 * RAY) <= 2 * RAY * (joined - (RayMul(scaled, index) + amount)) <= index + 2 * RAY
      && (scaled == 0 ==> -(index + RAY) <= 2 * RAY * (joined - amount) <= index + RAY)
  {
    var d := RayDiv(amount, index);
    RayDivRounds(amount, index);
    MulMono(0, scaled, index);
    MulMono(0, d, index);
    RayMulRounds(scaled, index);
    assert (scaled + d) * index == scaled * index + d * index;
    assert index * d == d * index;
    RayMulRounds(scaled + d, index);
    RayMulOfRayDiv(amount, index);
    hide RayMul, RayDiv;
  }

  /** Depositing and withdrawing everything at one tick returns what was there plus the amount, off
      by at most half an index plus one ray over a ray; for a new depositor, plus half a ray. */
  lemma DepositThenMaxWithdraw(c: Strategy, r: Reserve, u: User, amount: nat, tx: int)
    requires RateModel.ValidStrategy(c) && Sound(r) && r.lastUpdateTimestamp <= tx && Fits(r, u, tx)
    ensures
      var r1 := ReserveAfterDeposit(c, amount, r, tx);
      var u1 := UserAfterDeposit(amount, r, r1, u, tx);
      var error := 2 * RAY * (AmountWithdrawn(MAX_UINT_AMOUNT, r1, u1, tx) - u1.currentDepositBalance);
      && -(r1.liquidityIndex + 2 * RAY) <= error <= r1.liquidityIndex + 2 * RAY
      && (u.scaledDepositBalance == 0 ==>
            u1.currentDepositBalance == amount && -(r1.liquidityIndex + RAY) <= error <= r1.liquidityIndex + RAY)
  {
    hide RayMul, RayDiv, LiquidityIndexAt, VariableBorrowIndexAt, NormalizedIncome, ScaledDeposit, LinearInterest,
         RateModel.InterestRates, RateModel.UtilizationRate;
    var r1 := ReserveAfterDeposit(c, amount, r, tx);
    var index := LiquidityIndexAt(r, tx);
    IndexesGrow(r, tx);
    IncomeIsNextIndex(r);
    assert NormalizedIncome(r, tx) == index;
    DepositSound(c, r, amount, tx);
    IncomeAtOnce(r1);
    Pool.DepositedShare(u.scaledDepositBalance, index, amount);
    JoinedBalance(u.scaledDepositBalance, amount, index);
    RayMulZero(index);
  }

  lemma IncomeAtOnce(r: Reserve)
    requires Sound(r)
    ensures NormalizedIncome(r, r.lastUpdateTimestamp) == r.liquidityIndex
  {
  }

  // ---------- Swaps ----------

  function DebtsBefore(r: Reserve, tx: int): int {
    StableDebtAt(r, tx) + VariableDebtAt(r, r.scaledVariableDebt, tx)
  }

  /** Swapping to a variable rate leaves the available liquidity alone and moves the total debt by at
      most half an index plus one ray, over one ray. */
  lemma SwapToVariableConserves(c: Strategy, r: Reserve, u: User, tx: int)
    requires Sound(r) && r.lastUpdateTimestamp <= tx && Fits(r, u, tx)
    ensures
      var after := ReserveAfterSwapRateMode(c, r, u, Stable, tx);
      var index := after.variableBorrowIndex;
      && after.availableLiquidity == r.availableLiquidity
      && -(index + 2 * RAY)
         <= 2 * RAY * (after.totalStableDebt + after.totalVariableDebt - DebtsBefore(r, tx)) <= index + 2 * RAY
  {
    hide RayMul, RayDiv, LiquidityIndexAt, VariableBorrowIndexAt, TotalStableDebtAt, StableDebtBalance,
         AverageStableRate, RateModel.InterestRates, RateModel.UtilizationRate;
    UserDebtsAt(r, u, tx);
    IndexesGrow(r, tx);
    JoinedBalance(r.scaledVariableDebt, UserStableDebtAt(u, tx), VariableBorrowIndexAt(r, tx));
  }

  /** Swapping to a stable rate releases exactly the user's scaled share and moves the total debt by
      at most one unit. */
  lemma SwapToStableConserves(c: Strategy, r: Reserve, u: User, tx: int)
    requires Sound(r) && r.lastUpdateTimestamp <= tx && Fits(r, u, tx)
    ensures
      var after := ReserveAfterSwapRateMode(c, r, u, Variable, tx);
      && after.availableLiquidity == r.availableLiquidity
      && after.scaledVariableDebt == r.scaledVariableDebt - u.scaledVariableDebt
      && -1 <= after.totalStableDebt + after.totalVariableDebt - DebtsBefore(r, tx) <= 1
  {
    hide RayMul, RayDiv, LiquidityIndexAt, VariableBorrowIndexAt, TotalStableDebtAt, StableDebtBalance,
         VariableDebtBalance, AverageStableRate, RateModel.InterestRates, RateModel.UtilizationRate;
    UserDebtsAt(r, u, tx);
    IndexesGrow(r, tx);
    SplitBalance(r.scaledVariableDebt - u.scaledVariableDebt, u.scaledVariableDebt, VariableBorrowIndexAt(r, tx));
  }

  /** Rounding two shares apart costs at most one unit. */
  lemma SplitBalance(a: nat, b: nat, index: nat)
    ensures -1 <= RayMul(a, index) + RayMul(b, index) - RayMul(a + b, index) <= 1
  {
    MulMono(0, a, index);
    MulMono(0, b, index);
    assert (a + b) * index == a * index + b * index;
    RayMulRounds(a, index);
    RayMulRounds(b, index);
    RayMulRounds(a + b, index);
    hide RayMul;
  }

  // ---------- Where the books can break ----------

  /** What the books are short of: assets that the recorded total does not count. */
  function Gap(r: Reserve): int {
    r.availableLiquidity + r.totalStableDebt + r.totalVariableDebt - r.totalLiquidity
  }

  /** The recorded debts are those of the last update. */
  ghost predicate UpToDate(r: Reserve) {
    DebtsBefore(r, r.lastUpdateTimestamp) == r.totalStableDebt + r.totalVariableDebt
  }

  /** No debt that is owed bears one unit of interest per second and ray. */
  ghost predicate Dormant(r: Reserve) {
    && (r.scaledVariableDebt == 0 || Power1(r.variableBorrowRate) == 0)
    && (r.principalStableDebt == 0 || Power1(r.averageStableBorrowRate) == 0)
  }

  /** Every action leaves its debts up to date, except that a variable repayment does so exactly when
      the stable debt it copies was up to date itself; a borrow is up to date as it is mined. */
  lemma StepUpToDateIff(c: Strategy, r: Reserve, u: User, s: Step)
    requires RateModel.ValidStrategy(c) && Sound(r) && Timely(r, s) && Fits(r, u, s.tx) && Allowed(r, u, s)
    requires !s.action.SetUseAsCollateral? && s.now == s.tx
    ensures UpToDate(ReserveAfter(c, r, u, s)) <==>
            (s.action.Repay? && s.action.mode == Variable ==> r.totalStableDebt == StableDebtAt(r, s.tx))
  {
    var e := ReserveAfter(c, r, u, s);
    StepSound(c, r, u, s);
    StepRecords(c, r, u, s);
    CompoundedUnit(e.averageStableBorrowRate, s.tx, s.tx);
    CompoundedUnit(e.variableBorrowRate, s.tx, s.tx);
    RayMulUnit(e.variableBorrowIndex);
    hide ReserveAfter, RayMul, CompoundedInterest, Fits, Allowed;
    assert VariableBorrowIndexAt(e, s.tx) == e.variableBorrowIndex;
    if e.totalStableDebtLastUpdated == s.tx { RayMulUnit(e.principalStableDebt); }
  }

  /** What a step records of its debts: the variable debt on the new index, and the stable debt as a
      new principal dated now, or as the old principal accrued until now, or not accrued at all. */
  lemma StepRecords(c: Strategy, r: Reserve, u: User, s: Step)
    requires Sound(r) && !s.action.SetUseAsCollateral? && r.lastUpdateTimestamp <= s.tx == s.now
    ensures
      var e := ReserveAfter(c, r, u, s);
      && e.lastUpdateTimestamp == s.tx
      && (e.totalVariableDebt == RayMul(e.scaledVariableDebt, e.variableBorrowIndex)
          || e.totalVariableDebt == VariableDebtBalance(e, e.scaledVariableDebt, s.tx))
      && if s.action.Repay? && s.action.mode == Variable then
           e.totalStableDebt == r.totalStableDebt && StableDebtAt(e, s.tx) == StableDebtAt(r, s.tx)
         else
           || e.totalStableDebt == StableDebtAt(e, s.tx)
           || (e.totalStableDebt == e.principalStableDebt && e.totalStableDebtLastUpdated == s.tx)
  {
    hide RayMul, RayDiv, VariableBorrowIndexAt, LiquidityIndexAt, NormalizedDebt, StableDebtBalance, TotalStableDebtAt,
         AverageStableRate, RebalancedRate, AfterStableRepay, RateModel.InterestRates, RateModel.UtilizationRate;
  }

  /** A deposit leaves the gap wider by exactly the interest accrued since the record. */
  lemma DepositGap(c: Strategy, r: Reserve, amount: nat, tx: int)
    ensures Gap(ReserveAfterDeposit(c, amount, r, tx))
            == Gap(r) + DebtsBefore(r, tx) - (r.totalStableDebt + r.totalVariableDebt)
  {
  }

  /** The interest accrued since the record: none at once or while dormant, never negative, and whole
      units of it once simple interest on the variable or on the stable debt comes to them. */
  lemma AccruedSince(r: Reserve, tx: int, units: nat)
    requires Sound(r) && UpToDate(r) && r.lastUpdateTimestamp <= tx
    ensures
      var accrued := DebtsBefore(r, tx) - (r.totalStableDebt + r.totalVariableDebt);
      var elapsed := tx - r.lastUpdateTimestamp;
      && 0 <= accrued
      && (elapsed == 0 || Dormant(r) ==> accrued == 0)
      && ((Power1(r.variableBorrowRate) * elapsed) * r.scaledVariableDebt >= units * RAY ==> accrued >= units)
      && ((Power1(r.averageStableBorrowRate) * elapsed) * r.principalStableDebt >= units * RAY ==> accrued >= units)
  {
    hide RayMul, VariableBorrowIndexAt, TotalStableDebtAt, Power1;
    var last, elapsed := r.lastUpdateTimestamp, tx - r.lastUpdateTimestamp;
    var p, q, date := r.principalStableDebt, r.averageStableBorrowRate, r.totalStableDebtLastUpdated;
    StableSince(p, q, date, last, tx, units);
    IndexSince(r, tx);
    PowerBounds(r.variableBorrowRate);
    MulMono(0, Power1(r.variableBorrowRate), elapsed);
    if r.totalVariableDebt != 0 { BorrowIndexGains(r, tx); }
    ScaledSince(r.scaledVariableDebt, r.variableBorrowIndex, Power1(r.variableBorrowRate) * elapsed,
                VariableBorrowIndexAt(r, tx), units);
  }

  lemma StableSince(principal: nat, rate: nat, date: int, last: int, tx: int, units: nat)
    requires date <= last <= tx
    ensures TotalStableDebtAt(principal, rate, date, last) <= TotalStableDebtAt(principal, rate, date, tx)
    ensures principal == 0 || Power1(rate) == 0 ==>
              TotalStableDebtAt(principal, rate, date, last) == TotalStableDebtAt(principal, rate, date, tx)
    ensures (Power1(rate) * (tx - last)) * principal >= units * RAY ==>
              TotalStableDebtAt(principal, rate, date, tx) >= TotalStableDebtAt(principal, rate, date, last) + units
  {
    TotalStableDebtMono(principal, rate, date, last, tx);
    StableDebtGrows(principal, rate, date, last);
    StableDebtGrows(principal, rate, date, tx);
    CompoundedUnit(rate, last, date);
    CompoundedUnit(rate, tx, date);
    hide RayMul, CompoundedInterest, Power1;
    if (Power1(rate) * (tx - last)) * principal >= units * RAY {
      StableDebtGains(principal, rate, date, last, tx, units);
    }
  }

  /** A scaled debt on an index that has gained: more by whole units once the gain comes to them. */
  lemma ScaledSince(scaled: nat, index: nat, gained: nat, later: nat, units: nat)
    requires index <= later
    ensures RayMul(scaled, index) <= RayMul(scaled, later)
    ensures scaled == 0 ==> RayMul(scaled, index) == RayMul(scaled, later)
    ensures index + gained <= later && gained * scaled >= units * RAY ==>
              RayMul(scaled, later) >= RayMul(scaled, index) + units
  {
    hide RayMul;
    RayMulMono(scaled, scaled, index, later);
    RayMulZero(index);
    RayMulZero(later);
    if index + gained <= later && gained * scaled >= units * RAY {
      GrownFactor(scaled, index, gained, units);
      RayMulMono(scaled, scaled, index + gained, later);
    }
  }

  lemma IndexSince(r: Reserve, tx: int)
    requires Sound(r) && r.lastUpdateTimestamp <= tx
    ensures VariableBorrowIndexAt(r, r.lastUpdateTimestamp) == r.variableBorrowIndex <= VariableBorrowIndexAt(r, tx)
    ensures tx == r.lastUpdateTimestamp || Power1(r.variableBorrowRate) == 0 ==>
              VariableBorrowIndexAt(r, tx) == r.variableBorrowIndex
  {
    IndexesGrow(r, tx);
    CompoundedUnit(r.variableBorrowRate, r.lastUpdateTimestamp, r.lastUpdateTimestamp);
    CompoundedUnit(r.variableBorrowRate, tx, r.lastUpdateTimestamp);
    RayMulUnit(r.variableBorrowIndex);
    hide CompoundedInterest, RayMul, Power1;
  }

  /** Deposits at all later times keep a balanced sheet balanced exactly when its debts are those of
      the last update and none of them bears interest: the recorded total is not re-accrued. */
  lemma DepositBalanceIff(c: Strategy, r: Reserve)
    requires Sound(r) && BalanceSheet(r)
    ensures (forall amount: nat, tx: nat :: r.lastUpdateTimestamp <= tx ==>
               BalanceSheet(ReserveAfterDeposit(c, amount, r, tx)))
            <==> UpToDate(r) && Dormant(r)
  {
    hide ReserveAfterDeposit, DebtsBefore, Power1;
    var last := r.lastUpdateTimestamp;
    if UpToDate(r) && Dormant(r) {
      forall amount: nat, tx: nat | last <= tx
        ensures BalanceSheet(ReserveAfterDeposit(c, amount, r, tx))
      {
        DepositGap(c, r, amount, tx);
        AccruedSince(r, tx, 0);
      }
    } else if UpToDate(r) {
      var tx := last + RAY;
      DepositGap(c, r, 0, tx);
      PowerBounds(r.variableBorrowRate);
      PowerBounds(r.averageStableBorrowRate);
      if r.scaledVariableDebt != 0 && Power1(r.variableBorrowRate) != 0 {
        OneRayOfInterest(Power1(r.variableBorrowRate), r.scaledVariableDebt);
      } else {
        OneRayOfInterest(Power1(r.averageStableBorrowRate), r.principalStableDebt);
      }
      AccruedSince(r, tx, 1);
      assert !BalanceSheet(ReserveAfterDeposit(c, 0, r, tx));
    } else {
      DepositGap(c, r, 0, last);
      assert !BalanceSheet(ReserveAfterDeposit(c, 0, r, last));
    }
  }

  lemma OneRayOfInterest(p: int, debt: int)
    requires p >= 1 && debt >= 1
    ensures (p * RAY) * debt >= 1 * RAY
  {
    MulMono(1, p, RAY);
    MulMono(1, debt, p * RAY);
  }

  /** After a deposit the reserve is utilized at most to 100% exactly when its debts exceed the
      un-accrued total by less than the rounding hides: up to two rays of liquidity, by nothing. */
  lemma DepositUtilizationIff(c: Strategy, r: Reserve, amount: nat, tx: int)
    requires Sound(r) && r.lastUpdateTimestamp <= tx && DebtsBefore(r, tx) > 0
    ensures
      var total, debt := r.totalLiquidity + amount, DebtsBefore(r, tx);
      var after := ReserveAfterDeposit(c, amount, r, tx);
      && (after.utilizationRate <= RAY <==> (debt - total) * RAY < total - total / 2)
      && (total <= 2 * RAY ==> (after.utilizationRate <= RAY <==> debt <= total))
  {
    hide TotalStableDebtAt, VariableDebtAt, RayDiv, LiquidityIndexAt, VariableBorrowIndexAt, RateModel.InterestRates;
    DebtsAt(r, r.scaledVariableDebt, tx);
    FullyUtilizedIff(DebtsBefore(r, tx), r.totalLiquidity + amount);
  }

  lemma FullyUtilizedIff(debt: nat, total: nat)
    requires total > 0
    ensures RayDiv(debt, total) <= RAY <==> (debt - total) * RAY < total - total / 2
    ensures total <= 2 * RAY ==> (RayDiv(debt, total) <= RAY <==> debt <= total)
  {
    var x := total / 2 + debt * RAY;
    DivBounds(x, total);
    var q := x / total;
    assert total * (RAY + 1) == total * RAY + total;
    if q <= RAY {
      MulMono(q, RAY, total);
    } else {
      MulMono(RAY + 1, q, total);
    }
    assert (debt - total) * RAY == debt * RAY - total * RAY;
    if debt > total { MulMono(1, debt - total, RAY); } else { MulMono(debt - total, 0, RAY); }
  }

  /** A swap that the expected records allow and cannot book: a deposit books the user's variable debt
      as stable principal, and swapping that to variable takes more stable debt than there is. */
  lemma SwapCanUnderflow(c: Strategy, r: Reserve, u: User, amount: nat, tx: nat, later: nat)
    requires RateModel.ValidStrategy(c) && Sound(r) && r.lastUpdateTimestamp <= tx <= later && Fits(r, u, tx)
    requires r.principalStableDebt == 0 && u.scaledVariableDebt > 0
    ensures
      var r1 := ReserveAfterDeposit(c, amount, r, tx);
      var u1 := UserAfterDeposit(amount, r, r1, u, tx);
      Sound(r1) && Fits(r1, u1, later) && ReserveAfterSwapRateMode(c, r1, u1, Stable, later).totalStableDebt < 0
  {
    hide RayMul, RayDiv, LiquidityIndexAt, VariableBorrowIndexAt, NormalizedIncome, VariableDebtBalance, ScaledDeposit,
         TotalStableDebtAt, StableDebtBalance, AverageStableRate, RateModel.InterestRates, RateModel.UtilizationRate;
    DepositSound(c, r, amount, tx);
    UserDebtsAt(r, u, tx);
    Pool.UserStaysInOrderIff(c, r, u, Step(Deposit(amount), tx, tx));
    var r1 := ReserveAfterDeposit(c, amount, r, tx);
    UserDebtsAt(r1, UserAfterDeposit(amount, r, r1, u, tx), later);
    DebtsAt(r1, 0, later);
  }

  /** No admissible step divides by zero, so the value that stands for Infinity or NaN is never used. */
  lemma DivisorsNeverZero(c: Strategy, r: Reserve, u: User, s: Step)
    requires RateModel.ValidStrategy(c) && Sound(r) && Timely(r, s) && Fits(r, u, s.tx) && Allowed(r, u, s)
    ensures c.optimalUtilizationRate != 0 && RAY - c.optimalUtilizationRate != 0
    ensures LiquidityIndexAt(r, s.tx) != 0 && VariableBorrowIndexAt(r, s.tx) != 0
    ensures Divisible(SettledAfter(c, r, u, s)) && Divisible(ReserveAfter(c, r, u, s))
    ensures s.action.Borrow? ==> UserStableDebtAt(u, s.tx) + s.action.amount != 0
    ensures s.action == SwapRateMode(Variable) ==>
              UserStableDebtAt(u, s.tx) + VariableDebtBalance(r, u.scaledVariableDebt, s.tx) != 0
  {
    hide ReserveAfter, SettledAfter, LiquidityIndexAt, VariableBorrowIndexAt, VariableDebtBalance, UserStableDebtAt,
         StableDebtAt, SwapFits, RebalanceFits;
    StepSound(c, r, u, s);
    SettledStepSound(c, r, u, s);
    IndexesGrow(r, s.tx);
    UserDebtsAt(r, u, s.tx);
  }

  /** Where there is debt, its utilization and its overall rate have something to be divided by. */
  ghost predicate Divisible(r: Reserve) {
    r.totalStableDebt != 0 || r.totalVariableDebt != 0 ==>
      r.totalLiquidity != 0 && r.totalStableDebt + r.totalVariableDebt != 0
  }
}
