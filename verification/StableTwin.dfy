/** The only stable borrower of a reserve: the reserve's aggregates and the user's own loan are
    computed by different formulas, and stay one and the same loan. */
module StableTwin {
  import opened RayMath
  import opened Interest
  import opened Accounting
  import opened Transitions
  import opened Soundness
  import RateModel
  import Ledgers
  import Pool

  /** The reserve's stable debt is the user's loan: amount, rate and, unless repaid, its date. */
  ghost predicate Twin(r: Reserve, u: User) {
    && r.principalStableDebt == u.principalStableDebt
    && r.averageStableBorrowRate == u.stableBorrowRate
    && (r.principalStableDebt > 0 ==> r.totalStableDebtLastUpdated == u.stableRateLastUpdated > 0)
  }

  /** The steps that leave the loan a loan. A deposit books the user's variable debt as the stable
      principal; a stable repayment beyond the debt leaves the user less than nothing; a variable one
      books the accrued stable debt as the principal; a swap to stable starts the
      user's principal from the recorded debt, and the reserve's average from the recorded total. */
  ghost predicate KeepsLoan(r: Reserve, u: User, s: Step) {
    match s.action
    case Deposit(_) => VariableDebtBalance(r, u.scaledVariableDebt, s.tx) == u.principalStableDebt
    case Repay(amount, Stable, _) => AmountRepaid(amount, Stable, r, u, s.tx) <= UserStableDebtAt(u, s.tx)
    case Repay(_, Variable, _) => UserStableDebtAt(u, s.tx) == u.principalStableDebt
    case SwapRateMode(Variable) =>
      var accrued, moved := StableDebtAt(r, s.tx), VariableDebtBalance(r, u.scaledVariableDebt, s.tx);
      && u.currentStableDebt == accrued
      && AverageStableRate(r.averageStableBorrowRate, r.totalStableDebt, moved, r.stableBorrowRate)
         == AverageStableRate(r.averageStableBorrowRate, accrued, moved, r.stableBorrowRate)
    case _ => true
  }

  lemma TwinDebts(r: Reserve, u: User, tx: nat)
    requires Sound(r) && r.lastUpdateTimestamp <= tx && Twin(r, u)
    ensures UserStableDebtAt(u, tx) == StableDebtAt(r, tx) >= r.principalStableDebt
  {
    hide RayMul, CompoundedInterest;
    var p, q, t := r.principalStableDebt, r.averageStableBorrowRate, r.totalStableDebtLastUpdated;
    StableDebtGrows(p, q, t, tx);
    if p > 0 {
      StableFastPath(p, q, t, tx);
    } else {
      RayMulZero(CompoundedInterest(q, tx, u.stableRateLastUpdated));
    }
  }

  /** The two averages weigh alike. */
  lemma SameAverage(balance: nat, rate: nat, amount: nat, rateNew: nat)
    requires balance + amount > 0
    ensures AverageStableRate(rate, balance, amount, rateNew) == UserStableRate(balance, rate, amount, rateNew)
  {
  }

  /** The repayment clamps never fire: the debt drops by what is paid and the average stays. */
  lemma RepayNeverClamped(total: nat, average: nat, repaid: nat)
    requires repaid <= total
    ensures AfterStableRepay(total, average, repaid, average)
            == (total - repaid, if repaid == total then 0 else average)
  {
    if repaid < total {
      Ledgers.RemovingAtAverageIsExact(average, total, repaid);
    }
    hide AverageStableRate;
    assert AverageStableRate(average, total, -(total as int), average) == 0 by { NothingLeft(average, total, average); }
  }

  lemma RepaidTooMuch(total: nat, average: nat, repaid: nat)
    requires repaid > total
    ensures AfterStableRepay(total, average, repaid, average) == (0, 0)
  {
  }

  lemma NothingLeft(average: int, total: int, rate: int)
    ensures AverageStableRate(average, total, -total, rate) == 0
  {
  }

  /** Rebalancing the only loan adopts every rate of the reserve exactly if and only if the loan is at
      least one whole token of 18 decimals: below, the average has too few digits to hold the rate. */
  lemma RebalanceAdoptsRateIff(without: int, own: nat)
    ensures (forall rate: nat :: RebalancedRate(without, 0, own, rate) == rate) <==> WadToRay(own) >= RAY
  {
    var wide := WadToRay(own);
    forall rate: nat
      ensures wide >= RAY ==> RebalancedRate(without, 0, own, rate) == rate
      ensures own > 0 ==> RebalancedRate(without, 0, own, rate) == RayDiv(RayMul(rate, wide), wide)
    {
      RayMulZero(without);
      if wide >= RAY { RayDivOfRayMul(rate, wide); }
    }
    hide RebalancedRate, RayMul, RayDiv;
    if wide < RAY && forall rate: nat :: RebalancedRate(without, 0, own, rate) == rate {
      RebalancedRateOfNothing(without);
      assert own > 0;
      NothingIsLost(wide, RAY);
      RayMulUnit(wide);
      assert false;
    }
  }

  /** A smaller loan still adopts it within one token over the loan, and half a unit. */
  lemma RebalanceAdoptsAbout(without: int, own: nat, rate: nat)
    requires own > 0
    ensures -(2 * RAY + WadToRay(own)) <= 2 * ((RebalancedRate(without, 0, own, rate) - rate) * WadToRay(own))
            <= 2 * RAY + WadToRay(own)
  {
    var wide := WadToRay(own);
    OldAverageIrrelevant(without, own, rate);
    RebalanceMixesUnits(0, 0, own, rate);
    var q := RebalancedRate(without, 0, own, rate);
    assert (q - rate) * wide == q * wide - rate * wide;
    hide RebalancedRate;
  }

  lemma OldAverageIrrelevant(without: int, own: nat, rate: nat)
    ensures RebalancedRate(without, 0, own, rate) == RebalancedRate(0, 0, own, rate)
  {
    RayMulZero(without);
    RayMulZero(0);
    hide RayMul, RayDiv;
  }

  lemma RebalancedRateOfNothing(without: int)
    ensures RebalancedRate(without, 0, 0, 1) == 0
  {
  }

  /** If every rate survives the two roundings, scaling is injective, so it cannot shrink anything. */
  lemma {:induction false} NothingIsLost(wide: nat, rate: nat)
    requires wide > 0 && forall k: nat :: RayDiv(RayMul(k, wide), wide) == k
    ensures RayMul(rate, wide) >= rate
  {
    hide RayMul, RayDiv;
    if rate > 0 {
      NothingIsLost(wide, rate - 1);
      assert RayDiv(RayMul(rate, wide), wide) == rate && RayDiv(RayMul(rate - 1, wide), wide) == rate - 1;
      MulMono(0, rate - 1, wide);
      RayMulRounds(rate - 1, wide);
      RayMulMono(rate - 1, rate, wide, wide);
    } else {
      RayMulZero(wide);
    }
  }

  /** What the rebalance averages, for loans put in and taken out: the recorded rate over the total as
      it is, and the other rate over the change counted a billion times. */
  lemma RebalanceMixesUnits(average: nat, total: nat, change: int, rate: nat)
    ensures
      var borrowed := total + WadToRay(change);
      var weighed := average * total + rate * WadToRay(change);
      var q := RebalancedRate(average, total, change, rate);
      && (borrowed == 0 ==> q == 0)
      && (borrowed > 0 && change >= 0 ==>
            -(2 * RAY + borrowed) <= 2 * (q * borrowed - weighed) <= 2 * RAY + borrowed)
      && (borrowed > 0 ==> -(4 * RAY + 3 * borrowed) <= 2 * (q * borrowed - weighed) <= 4 * RAY + 3 * borrowed)
      && (borrowed < 0 ==> -(4 * RAY - 3 * borrowed) <= 2 * (q * borrowed - weighed) <= 4 * RAY - 3 * borrowed)
  {
    var wide := WadToRay(change);
    var borrowed := total + wide;
    var sum := RayMul(average, total) + RayMul(rate, wide);
    WeightsRound(average, total, change, rate);
    hide RayMul;
    QuotientRounds(sum, borrowed);
    hide RayDiv;
    if borrowed > 0 && change >= 0 { RayDivRounds(sum, borrowed); }
    var q := RebalancedRate(average, total, change, rate);
    assert borrowed * q == q * borrowed;
  }

  /** Both weights are rounded: two half units, and one more unit if the change is negative. */
  lemma WeightsRound(average: nat, total: nat, change: int, rate: nat)
    ensures
      var sum := RayMul(average, total) + RayMul(rate, WadToRay(change));
      var weighed := average * total + rate * WadToRay(change);
      && -(4 * RAY) <= 2 * (sum * RAY) - 2 * weighed <= 4 * RAY
      && (change >= 0 ==> sum >= 0 && -(2 * RAY) <= 2 * (sum * RAY) - 2 * weighed <= 2 * RAY)
  {
    var wide := WadToRay(change);
    MulMono(0, average, total);
    RayMulRounds(average, total);
    TruncDivBounds(HALF_RAY + rate * wide, RAY);
    if change >= 0 { MulMono(0, rate, wide); RayMulRounds(rate, wide); }
  }

  /** The same for any signs, as the second of the rebalance's averages may find them. */
  lemma MixedAverageRounds(average: int, total: int, change: int, rate: int)
    ensures
      var borrowed := total + WadToRay(change);
      var weighed := average * total + rate * WadToRay(change);
      var q := RebalancedRate(average, total, change, rate);
      && (borrowed == 0 ==> q == 0)
      && (borrowed > 0 ==> -(6 * RAY + 3 * borrowed) <= 2 * (q * borrowed - weighed) <= 6 * RAY + 3 * borrowed)
      && (borrowed < 0 ==> -(6 * RAY - 3 * borrowed) <= 2 * (q * borrowed - weighed) <= 6 * RAY - 3 * borrowed)
  {
    var wide := WadToRay(change);
    var borrowed := total + wide;
    var sum := RayMul(average, total) + RayMul(rate, wide);
    TruncDivBounds(HALF_RAY + average * total, RAY);
    TruncDivBounds(HALF_RAY + rate * wide, RAY);
    assert -(6 * RAY) <= 2 * (sum * RAY) - 2 * (average * total + rate * wide) <= 6 * RAY;
    hide RayMul;
    QuotientRounds(sum, borrowed);
    hide RayDiv;
    var q := RebalancedRate(average, total, change, rate);
    assert borrowed * q == q * borrowed;
  }

  /** A ray division is off by at most one and a half units, on either side of zero. */
  lemma QuotientRounds(x: int, a: int)
    ensures a > 0 ==> -(3 * a) <= 2 * (a * RayDiv(x, a)) - 2 * (x * RAY) <= 3 * a
    ensures a < 0 ==> 3 * a <= 2 * (a * RayDiv(x, a)) - 2 * (x * RAY) <= -(3 * a)
  {
    if a > 0 {
      TruncDivBounds(a / 2 + x * RAY, a);
    } else if a < 0 {
      NegativeDivisor(x, a);
      TruncDivBounds((-a) / 2 - x * RAY, -a);
    }
    hide RayDiv, TruncDiv;
  }

  lemma NegativeDivisor(x: int, a: int)
    requires a < 0
    ensures RayDiv(x, a) == TruncDiv((-a) / 2 - x * RAY, -a)
    ensures a * RayDiv(x, a) == -((-a) * TruncDiv((-a) / 2 - x * RAY, -a))
  {
  }

  /** A step keeps the only stable borrower's loan the reserve's whole stable debt exactly when it is
      one of those that leave the loan a loan; a repayment then lowers both by what is paid. */
  lemma TwinStepIff(c: Strategy, r: Reserve, u: User, s: Step)
    requires RateModel.ValidStrategy(c) && Sound(r) && Timely(r, s) && Fits(r, u, s.tx) && Allowed(r, u, s)
    requires Twin(r, u) && s.tx > 0
    ensures Twin(ReserveAfter(c, r, u, s), UserAfter(c, r, u, s)) <==> KeepsLoan(r, u, s)
    ensures s.action.Repay? && s.action.mode == Stable && KeepsLoan(r, u, s) ==>
              ReserveAfter(c, r, u, s).totalStableDebt
              == StableDebtAt(r, s.tx) - AmountRepaid(s.action.amount, Stable, r, u, s.tx) >= 0
  {
    hide RayMul, RayDiv, VariableBorrowIndexAt, LiquidityIndexAt, NormalizedDebt, NormalizedIncome, StableDebtBalance,
         TotalStableDebtAt, AverageStableRate, RebalancedRate, UserStableRate, ScaledDeposit,
         RateModel.InterestRates, RateModel.UtilizationRate, AfterStableRepay, SwapFits, RebalanceFits;
    TwinDebts(r, u, s.tx);
    UserDebtsAt(r, u, s.tx);
    var debt := UserStableDebtAt(u, s.tx);
    match s.action
    case Borrow(amount, _) => SameAverage(debt, u.stableBorrowRate, amount, r.stableBorrowRate);
    case Repay(amount, Stable, _) =>
      if KeepsLoan(r, u, s) {
        RepayNeverClamped(debt, u.stableBorrowRate, AmountRepaid(amount, Stable, r, u, s.tx));
      } else {
        RepaidTooMuch(debt, u.stableBorrowRate, AmountRepaid(amount, Stable, r, u, s.tx));
      }
    case SwapRateMode(Stable) => NothingLeft(u.stableBorrowRate, debt, u.stableBorrowRate);
    case SwapRateMode(Variable) =>
      SameAverage(debt, u.stableBorrowRate, VariableDebtBalance(r, u.scaledVariableDebt, s.tx), r.stableBorrowRate);
    case _ =>
  }

  /** Two families of steps that do not keep it: a deposit by someone with more variable debt than
      stable principal, and a variable repayment once one unit of stable interest has accrued. */
  lemma LoanLost(r: Reserve, u: User, amount: nat, paysOwn: bool, tx: nat)
    requires Sound(r) && r.lastUpdateTimestamp <= tx && Fits(r, u, tx)
    ensures u.scaledVariableDebt > u.principalStableDebt ==> !KeepsLoan(r, u, Step(Deposit(amount), tx, tx))
    ensures u.stableRateLastUpdated > 0
            && (Power1(u.stableBorrowRate) * (tx - u.stableRateLastUpdated)) * u.principalStableDebt >= RAY
            ==> !KeepsLoan(r, u, Step(Repay(amount, Variable, paysOwn), tx, tx))
  {
    hide RayMul, CompoundedInterest, VariableBorrowIndexAt, VariableDebtBalance, Power1;
    UserDebtsAt(r, u, tx);
    var p, q, t := u.principalStableDebt, u.stableBorrowRate, u.stableRateLastUpdated;
    if t > 0 && (Power1(q) * (tx - t)) * p >= 1 * RAY {
      StableFastPath(p, q, t, tx);
      StableDebtGains(p, q, t, t, tx, 1);
      StableDebtGrows(p, q, t, t);
    }
  }

  /** Whether a swap to stable leaves both sides the same rate, when the reserve's average starts from
      the recorded total and the user's from the accrued one: it does if the two are equal or the loan
      joins at the average, and does not once the exact means are a whole unit apart. */
  lemma SwapAverages(average: nat, recorded: nat, accrued: nat, moved: nat, rate: nat)
    requires moved > 0
    ensures
      var same := AverageStableRate(average, recorded, moved, rate) == AverageStableRate(average, accrued, moved, rate);
      var apart := moved * ((average - rate) * (recorded - accrued));
      && (recorded == accrued || average == rate ==> same)
      && (apart >= (recorded + moved) * (accrued + moved) || -apart >= (recorded + moved) * (accrued + moved) ==> !same)
  {
    hide AverageStableRate;
    if average == rate {
      Ledgers.AddingLoanKeepsAverage(average, recorded, moved, rate);
      Ledgers.AddingLoanKeepsAverage(average, accrued, moved, rate);
    }
    AverageIsQuotient(average, recorded, moved, rate);
    AverageIsQuotient(average, accrued, moved, rate);
    MeansApart(average, recorded, accrued, moved, rate);
    DifferentMeans(average * recorded + rate * moved, recorded + moved, average * accrued + rate * moved, accrued + moved,
                   moved * ((average - rate) * (recorded - accrued)));
  }

  /** So a swap to stable keeps the loan when the user's recorded debt has not accrued and either the
      reserve's has not, or the loan joins at the average rate; and it does not when the user's has, or
      the reserve's has by enough to part the means. */
  lemma SwapKeepsLoan(r: Reserve, u: User, tx: nat)
    requires Sound(r) && r.lastUpdateTimestamp <= tx && Fits(r, u, tx) && u.scaledVariableDebt > 0
    ensures
      var recorded, accrued := r.totalStableDebt, StableDebtAt(r, tx);
      var moved := VariableDebtBalance(r, u.scaledVariableDebt, tx);
      var apart := moved * ((r.averageStableBorrowRate - r.stableBorrowRate) * (recorded - accrued));
      var whole := (recorded + moved) * (accrued + moved);
      var keeps := KeepsLoan(r, u, Step(SwapRateMode(Variable), tx, tx));
      && (u.currentStableDebt == accrued && (recorded == accrued || r.averageStableBorrowRate == r.stableBorrowRate)
          ==> keeps)
      && (u.currentStableDebt != accrued || apart >= whole || -apart >= whole ==> !keeps)
  {
    UserDebtsAt(r, u, tx);
    DebtsAt(r, 0, tx);
    hide VariableDebtBalance, VariableDebtAt, TotalStableDebtAt, AverageStableRate;
    SwapAverages(r.averageStableBorrowRate, r.totalStableDebt, StableDebtAt(r, tx),
                 VariableDebtBalance(r, u.scaledVariableDebt, tx), r.stableBorrowRate);
  }

  lemma DifferentMeans(x: nat, n: nat, y: nat, k: nat, apart: int)
    requires n > 0 && k > 0 && x * k - y * n == apart
    ensures apart >= n * k || -apart >= n * k ==> x / n != y / k
  {
    DivBounds(x, n);
    DivBounds(y, k);
    if x / n == y / k {
      CloseMeans(x, n, y, k, x / n);
    }
  }

  lemma AverageIsQuotient(average: nat, total: nat, moved: nat, rate: nat)
    requires moved > 0
    ensures average * total + rate * moved >= 0
    ensures AverageStableRate(average, total, moved, rate) == (average * total + rate * moved) / (total + moved)
  {
    MulMono(0, average, total);
    MulMono(0, rate, moved);
  }

  lemma MeansApart(average: int, recorded: int, accrued: int, moved: int, rate: int)
    ensures (average * recorded + rate * moved) * (accrued + moved) - (average * accrued + rate * moved) * (recorded + moved)
            == moved * ((average - rate) * (recorded - accrued))
  {
  }

  /** Two fractions with one integer part are less than a unit apart. */
  lemma CloseMeans(x: int, n: nat, y: int, k: nat, q: int)
    requires n * q <= x < n * q + n && k * q <= y < k * q + k
    ensures -(n * k) < x * k - y * n < n * k
  {
    var d, e := x - n * q, y - k * q;
    CommonPart(n, k, q, d, e);
    MulMono(0, d, k);
    MulMono(d, n - 1, k);
    MulMono(0, e, n);
    MulMono(e, k - 1, n);
  }

  lemma CommonPart(n: int, k: int, q: int, d: int, e: int)
    ensures (n * q + d) * k - (k * q + e) * n == d * k - e * n
    ensures (n - 1) * k == n * k - k && (k - 1) * n == n * k - n
  {
  }

  // ---------- Any run ----------

  /** The loan after this and every further turn of the only user. */
  ghost predicate TwinThroughout(c: Strategy, p: Pool.State, turns: seq<Pool.Turn>)
    requires Pool.SolePlayable(c, p, turns)
    decreases |turns|
  {
    |p.users| > 0 && Twin(p.reserve, p.users[0])
    && (turns != [] ==> TwinThroughout(c, Pool.Next(c, p, turns[0]), turns[1..]))
  }

  ghost predicate KeepLoan(c: Strategy, p: Pool.State, turns: seq<Pool.Turn>)
    requires Pool.SolePlayable(c, p, turns)
    decreases |turns|
  {
    turns != [] ==>
      && KeepsLoan(p.reserve, p.users[0], turns[0].step)
      && KeepLoan(c, Pool.Next(c, p, turns[0]), turns[1..])
  }

  /** Over every run of the only user, whatever is done in it, the loan stays the reserve's whole
      stable debt throughout if and only if every turn leaves it a loan. */
  lemma {:induction false} TwinRunIff(c: Strategy, p: Pool.State, turns: seq<Pool.Turn>)
    requires RateModel.ValidStrategy(c) && Pool.Consistent(p) && |p.users| == 1
    requires Twin(p.reserve, p.users[0]) && Pool.SolePlayable(c, p, turns)
    requires forall i :: 0 <= i < |turns| ==> turns[i].step.tx > 0
    ensures TwinThroughout(c, p, turns) <==> KeepLoan(c, p, turns)
    decreases |turns|
  {
    hide ReserveAfter, UserAfter, Sound, Allowed, KeepsLoan, Twin;
    if turns != [] {
      var t := turns[0];
      Pool.SoleBorrowerMirrorsReserve(c, p, t);
      Pool.EveryoneFits(p, 0, t.step.tx);
      TwinStepIff(c, p.reserve, p.users[0], t.step);
      Pool.TurnKeepsConsistent(c, p, t);
      var next := Pool.Next(c, p, t);
      if Twin(next.reserve, next.users[0]) {
        TwinRunIff(c, next, turns[1..]);
      }
    }
  }
}
