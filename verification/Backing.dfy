/** What stands behind the depositors' claims: what the reserve holds and what it is owed. Actions leave
    it as it is, up to rounding and to what the clamps of a stable repayment forgive; only time moves it. */
module Backing {
  import opened RayMath
  import opened Accounting
  import opened Transitions
  import opened Soundness
  import Exits
  import Interest
  import Pool
  import RateModel

  function Assets(r: Reserve, now: int): int {
    r.availableLiquidity + Exits.DebtsBefore(r, now)
  }

  function Claim(u: User, index: int): int {
    RayMul(u.scaledDepositBalance, index)
  }

  /** What a clamped stable repayment erases beyond the amount repaid. */
  function Forgiven(r: Reserve, u: User, s: Step): int {
    match s.action
    case Repay(amount, Stable, _) =>
      var total, repaid := StableDebtAt(r, s.tx), AmountRepaid(amount, Stable, r, u, s.tx);
      total - repaid - AfterStableRepay(total, r.averageStableBorrowRate, repaid, u.stableBorrowRate).0
    case _ => 0
  }

  /** What the roundings of one step can cost, in units of two rays. */
  function Slack(r: Reserve, s: Step): int {
    LiquidityIndexAt(r, s.tx) + VariableBorrowIndexAt(r, s.tx) + 4 * RAY
  }

  // ---------- One step ----------

  /** Right after a step the indexes stand where it has left them, and those are the accrued ones. */
  lemma IndexesAtOnce(c: Strategy, r: Reserve, u: User, s: Step)
    requires RateModel.ValidStrategy(c) && Sound(r) && Timely(r, s) && Fits(r, u, s.tx) && Allowed(r, u, s)
    requires !s.action.SetUseAsCollateral?
    ensures
      var e := ReserveAfter(c, r, u, s);
      LiquidityIndexAt(e, s.tx) == LiquidityIndexAt(r, s.tx) && VariableBorrowIndexAt(e, s.tx) == VariableBorrowIndexAt(r, s.tx)
  {
    var e := ReserveAfter(c, r, u, s);
    StepSound(c, r, u, s);
    StepIndexes(c, r, u, s);
    Exits.IncomeAtOnce(e);
    IncomeIsNextIndex(e);
    assert NormalizedIncome(e, s.tx) == LiquidityIndexAt(e, s.tx) by { hide ReserveAfter, RayMul, NormalizedIncome; }
    Interest.CompoundedUnit(e.variableBorrowRate, s.tx, s.tx);
    RayMulUnit(e.variableBorrowIndex);
    hide ReserveAfter, RayMul, LiquidityIndexAt, NormalizedIncome;
  }

  lemma StepIndexes(c: Strategy, r: Reserve, u: User, s: Step)
    requires !s.action.SetUseAsCollateral?
    ensures
      var e := ReserveAfter(c, r, u, s);
      && e.liquidityIndex == LiquidityIndexAt(r, s.tx) && e.variableBorrowIndex == VariableBorrowIndexAt(r, s.tx)
      && e.lastUpdateTimestamp == s.tx
  {
    hide RayMul, RayDiv, AverageStableRate, RateModel.InterestRates, RateModel.UtilizationRate, LiquidityIndexAt,
         VariableBorrowIndexAt, TotalStableDebtAt, RebalancedRate, AfterStableRepay;
  }

  ghost predicate SameLoan(e: Reserve, r: Reserve) {
    && e.principalStableDebt == r.principalStableDebt && e.averageStableBorrowRate == r.averageStableBorrowRate
    && e.totalStableDebtLastUpdated == r.totalStableDebtLastUpdated
  }

  /** The stable debt right after a step: its new principal, or the old loan accrued until then. */
  lemma StableAtOnce(e: Reserve, r: Reserve, tx: int)
    requires Sound(e)
    ensures e.totalStableDebtLastUpdated == tx ==> StableDebtAt(e, tx) == e.principalStableDebt
    ensures SameLoan(e, r) ==> StableDebtAt(e, tx) == StableDebtAt(r, tx)
  {
    Interest.CompoundedUnit(e.averageStableBorrowRate, tx, tx);
    RayMulUnit(e.principalStableDebt);
    hide RayMul, Interest.CompoundedInterest;
  }

  /** Taking a share out again is putting it in, backwards. */
  lemma TakenShare(scaled: int, amount: nat, index: int)
    requires index > 0 && RayDiv(amount, index) <= scaled
    ensures -(index + 2 * RAY) <= 2 * RAY * (RayMul(scaled, index) - (RayMul(scaled - RayDiv(amount, index), index) + amount))
            <= index + 2 * RAY
  {
    Exits.JoinedBalance(scaled - RayDiv(amount, index), amount, index);
    hide RayMul, RayDiv;
  }

  ghost predicate Backed(c: Strategy, r: Reserve, u: User, s: Step) {
    var e, u' := ReserveAfter(c, r, u, s), UserAfter(c, r, u, s);
    var index := LiquidityIndexAt(r, s.tx);
    var moved := Assets(e, s.tx) - Claim(u', index) - (Assets(r, s.tx) - Claim(u, index));
    -Slack(r, s) <= 2 * RAY * (moved + Forgiven(r, u, s)) <= Slack(r, s)
  }

  /** What every action finds: its indexes, and the stable debt as it leaves it. */
  ghost predicate AtOnce(c: Strategy, r: Reserve, u: User, s: Step) {
    var e := ReserveAfter(c, r, u, s);
    && LiquidityIndexAt(r, s.tx) >= RAY && VariableBorrowIndexAt(r, s.tx) >= RAY
    && e.liquidityIndex == LiquidityIndexAt(r, s.tx) && e.variableBorrowIndex == VariableBorrowIndexAt(r, s.tx)
    && VariableBorrowIndexAt(e, s.tx) == VariableBorrowIndexAt(r, s.tx)
    && (e.totalStableDebtLastUpdated == s.tx ==> StableDebtAt(e, s.tx) == e.principalStableDebt)
    && (SameLoan(e, r) ==> StableDebtAt(e, s.tx) == StableDebtAt(r, s.tx))
  }

  lemma DepositBacked(c: Strategy, r: Reserve, u: User, s: Step)
    requires AtOnce(c, r, u, s) && s.action.Deposit? && u.scaledDepositBalance >= 0
    ensures Backed(c, r, u, s)
  {
    var amount := s.action.amount;
    RayDivZero(LiquidityIndexAt(r, s.tx));
    DepositAmounts(c, r, u, s);
    hide RayMul, RayDiv, LiquidityIndexAt, VariableBorrowIndexAt, ReserveAfter, UserAfter, StableDebtAt;
    Exits.JoinedBalance(u.scaledDepositBalance, amount, LiquidityIndexAt(r, s.tx));
  }

  /** What a deposit brings and books. */
  lemma DepositAmounts(c: Strategy, r: Reserve, u: User, s: Step)
    requires s.action.Deposit?
    ensures
      var e := ReserveAfter(c, r, u, s);
      && e.availableLiquidity == r.availableLiquidity + s.action.amount
      && e.scaledVariableDebt == r.scaledVariableDebt && SameLoan(e, r)
      && UserAfter(c, r, u, s).scaledDepositBalance
         == ScaledDeposit(u.scaledDepositBalance, e.liquidityIndex, s.action.amount, 0)
  {
    hide RayMul, RayDiv, NormalizedDebt, NormalizedIncome, StableDebtBalance, TotalStableDebtAt, RateModel.InterestRates,
         RateModel.UtilizationRate, LiquidityIndexAt, VariableBorrowIndexAt, VariableDebtBalance, ScaledDeposit;
  }

  lemma WithdrawBacked(c: Strategy, r: Reserve, u: User, s: Step, withdrawn: nat)
    requires AtOnce(c, r, u, s) && s.action.Withdraw? && u.scaledDepositBalance >= 0
    requires withdrawn == AmountWithdrawn(s.action.amount, r, u, s.tx)
    requires ScaledDeposit(u.scaledDepositBalance, LiquidityIndexAt(r, s.tx), 0, withdrawn) >= 0
    ensures Backed(c, r, u, s)
  {
    RayDivZero(LiquidityIndexAt(r, s.tx));
    hide RayMul, RayDiv, NormalizedDebt, NormalizedIncome, StableDebtBalance, TotalStableDebtAt, RateModel.InterestRates,
         RateModel.UtilizationRate, LiquidityIndexAt, VariableBorrowIndexAt, VariableDebtBalance, AmountWithdrawn;
    TakenShare(u.scaledDepositBalance, withdrawn, LiquidityIndexAt(r, s.tx));
  }

  lemma BorrowBacked(c: Strategy, r: Reserve, u: User, s: Step)
    requires AtOnce(c, r, u, s) && s.action.Borrow? && r.scaledVariableDebt >= 0
    ensures Backed(c, r, u, s)
  {
    hide RayMul, RayDiv, LiquidityIndexAt, VariableBorrowIndexAt, ReserveAfter, UserAfter, StableDebtAt;
    BorrowAmounts(c, r, u, s);
    if s.action.mode == Variable {
      Exits.JoinedBalance(r.scaledVariableDebt, s.action.amount, VariableBorrowIndexAt(r, s.tx));
    }
  }

  /** What a borrow takes and books. */
  lemma BorrowAmounts(c: Strategy, r: Reserve, u: User, s: Step)
    requires s.action.Borrow?
    ensures
      var e, amount := ReserveAfter(c, r, u, s), s.action.amount;
      && e.availableLiquidity == r.availableLiquidity - amount
      && UserAfter(c, r, u, s).scaledDepositBalance == u.scaledDepositBalance
      && match s.action.mode
         case Stable => e.scaledVariableDebt == r.scaledVariableDebt && e.totalStableDebtLastUpdated == s.tx
                        && e.principalStableDebt == StableDebtAt(r, s.tx) + amount
         case Variable => SameLoan(e, r)
                          && e.scaledVariableDebt == r.scaledVariableDebt + RayDiv(amount, VariableBorrowIndexAt(r, s.tx))
  {
    hide RayMul, RayDiv, NormalizedDebt, NormalizedIncome, StableDebtBalance, TotalStableDebtAt, RateModel.InterestRates,
         RateModel.UtilizationRate, LiquidityIndexAt, VariableBorrowIndexAt, AverageStableRate, UserStableRate;
  }

  lemma RepayBacked(c: Strategy, r: Reserve, u: User, s: Step, repaid: nat)
    requires AtOnce(c, r, u, s) && s.action.Repay? && repaid == AmountRepaid(s.action.amount, s.action.mode, r, u, s.tx)
    requires s.action.mode == Variable ==> RayDiv(repaid, VariableBorrowIndexAt(r, s.tx)) <= r.scaledVariableDebt
    ensures Backed(c, r, u, s)
  {
    hide RayMul, RayDiv, NormalizedDebt, NormalizedIncome, StableDebtBalance, TotalStableDebtAt, RateModel.InterestRates,
         RateModel.UtilizationRate, LiquidityIndexAt, VariableBorrowIndexAt, VariableDebtBalance, AfterStableRepay,
         AmountRepaid;
    if s.action.mode == Variable {
      TakenShare(r.scaledVariableDebt, repaid, VariableBorrowIndexAt(r, s.tx));
    }
  }

  lemma SwapBacked(c: Strategy, r: Reserve, u: User, s: Step)
    requires AtOnce(c, r, u, s) && s.action.SwapRateMode? && UserStableDebtAt(u, s.tx) >= 0
    requires 0 <= u.scaledVariableDebt <= r.scaledVariableDebt
    requires VariableDebtBalance(r, u.scaledVariableDebt, s.tx) == VariableDebtAt(r, u.scaledVariableDebt, s.tx)
    requires RayDiv(VariableDebtAt(r, u.scaledVariableDebt, s.tx), VariableBorrowIndexAt(r, s.tx)) == u.scaledVariableDebt
    ensures Backed(c, r, u, s)
  {
    hide RayMul, RayDiv, NormalizedDebt, NormalizedIncome, StableDebtBalance, TotalStableDebtAt, RateModel.InterestRates,
         RateModel.UtilizationRate, LiquidityIndexAt, VariableBorrowIndexAt, VariableDebtBalance, AverageStableRate,
         UserStableRate;
    var index := VariableBorrowIndexAt(r, s.tx);
    if s.action.mode == Stable {
      Exits.JoinedBalance(r.scaledVariableDebt, UserStableDebtAt(u, s.tx), index);
    } else {
      Exits.SplitBalance(r.scaledVariableDebt - u.scaledVariableDebt, u.scaledVariableDebt, index);
    }
  }

  lemma RebalanceBacked(c: Strategy, r: Reserve, u: User, s: Step)
    requires AtOnce(c, r, u, s) && s.action.RebalanceStableRate?
    ensures Backed(c, r, u, s)
  {
    hide RayMul, RayDiv, NormalizedDebt, NormalizedIncome, StableDebtBalance, TotalStableDebtAt, RateModel.InterestRates,
         RateModel.UtilizationRate, LiquidityIndexAt, VariableBorrowIndexAt, VariableDebtBalance, RebalancedRate;
  }

  /** A step moves the assets and the acting user's claim alike. */
  lemma StepBacked(c: Strategy, r: Reserve, u: User, s: Step)
    requires RateModel.ValidStrategy(c) && Sound(r) && Timely(r, s) && Fits(r, u, s.tx) && Allowed(r, u, s)
    requires !s.action.SetUseAsCollateral?
    ensures Backed(c, r, u, s)
  {
    hide ReserveAfter, UserAfter, Backed, SwapFits, RebalanceFits, Sound;
    StepSound(c, r, u, s);
    StepIndexes(c, r, u, s);
    IndexesAtOnce(c, r, u, s);
    StableAtOnce(ReserveAfter(c, r, u, s), r, s.tx);
    UserDebtsAt(r, u, s.tx);
    IndexesAtLeastOne(r, s.tx);
    hide StableDebtAt, UserStableDebtAt, VariableDebtBalance, VariableDebtAt, RayDiv, DepositBalance, LiquidityIndexAt,
         VariableBorrowIndexAt;
    match s.action
    case Deposit(_) => DepositBacked(c, r, u, s);
    case Withdraw(amount) =>
      Pool.WithdrawnNonNegative(r, u, amount, s.tx);
      var withdrawn := AmountWithdrawn(amount, r, u, s.tx);
      Pool.WithdrawnShareFits(r, u.scaledDepositBalance, withdrawn, s.tx);
      WithdrawBacked(c, r, u, s, withdrawn);
    case Borrow(_, _) => BorrowBacked(c, r, u, s);
    case Repay(amount, mode, _) => RepayBacked(c, r, u, s, AmountRepaid(amount, mode, r, u, s.tx));
    case SwapRateMode(_) => SwapBacked(c, r, u, s);
    case RebalanceStableRate => RebalanceBacked(c, r, u, s);
  }

  lemma IndexesAtLeastOne(r: Reserve, tx: int)
    requires Sound(r) && r.lastUpdateTimestamp <= tx
    ensures LiquidityIndexAt(r, tx) >= RAY && VariableBorrowIndexAt(r, tx) >= RAY && r.scaledVariableDebt >= 0
  {
    IndexesGrow(r, tx);
    hide LiquidityIndexAt, VariableBorrowIndexAt;
  }

  // ---------- All depositors, any run ----------

  function ClaimAt(index: int): User -> int {
    u => Claim(u, index)
  }

  /** What the reserve holds and is owed beyond what all depositors may claim. */
  function BackingAt(p: Pool.State, now: int): int {
    Assets(p.reserve, now) - Pool.Total(p.users, ClaimAt(LiquidityIndexAt(p.reserve, now)))
  }

  /** When a turn leaves the reserve's clock: switching the collateral flag does not move it. */
  function ClockAfter(r: Reserve, s: Step): int {
    if s.action.SetUseAsCollateral? then r.lastUpdateTimestamp else s.tx
  }

  lemma TurnBacked(c: Strategy, p: Pool.State, t: Pool.Turn)
    requires RateModel.ValidStrategy(c) && Pool.Consistent(p) && Pool.Ready(p, t)
    ensures
      var clock := ClockAfter(p.reserve, t.step);
      var moved := BackingAt(Pool.Next(c, p, t), clock) - BackingAt(p, clock);
      -Slack(p.reserve, t.step) <= 2 * RAY * (moved + Forgiven(p.reserve, p.users[t.who], t.step))
      <= Slack(p.reserve, t.step)
  {
    hide ReserveAfter, UserAfter, Assets, Sound, Allowed, LiquidityIndexAt, VariableBorrowIndexAt, Forgiven, Claim,
         Pool.PaidByOther, Pool.WithinDebt, Pool.Total;
    var r, u, s := p.reserve, p.users[t.who], t.step;
    var clock := ClockAfter(r, s);
    Pool.EveryoneFits(p, t.who, s.tx);
    TurnClaims(c, p, t, LiquidityIndexAt(r, clock));
    if s.action.SetUseAsCollateral? {
      Pool.StepClock(c, r, u, s);
      SameClaim(u, s.action.use, LiquidityIndexAt(r, clock));
      NothingForgiven(r, u, s);
      IndexesAtLeastOne(r, s.tx);
    } else {
      IndexesAtOnce(c, r, u, s);
      StepBacked(c, r, u, s);
    }
  }

  lemma SameClaim(u: User, use: bool, index: int)
    ensures Claim(u.(usageAsCollateralEnabled := use), index) == Claim(u, index)
  {
  }

  lemma NothingForgiven(r: Reserve, u: User, s: Step)
    requires !s.action.Repay?
    ensures Forgiven(r, u, s) == 0
  {
  }

  /** Only the acting user's claim changes. */
  lemma TurnClaims(c: Strategy, p: Pool.State, t: Pool.Turn, index: int)
    requires Pool.Seated(p, t)
    ensures Pool.Total(Pool.Next(c, p, t).users, ClaimAt(index))
            == Pool.Total(p.users, ClaimAt(index)) - Claim(p.users[t.who], index)
               + Claim(UserAfter(c, p.reserve, p.users[t.who], t.step), index)
  {
    hide ReserveAfter, UserAfter, Pool.PaidByOther, Pool.Total;
    var u' := UserAfter(c, p.reserve, p.users[t.who], t.step);
    var moved := p.users[t.who := u'];
    var paid := Pool.PaidByOther(p.reserve, p.users[t.who], t.step);
    Pool.TotalUpdate(p.users, t.who, u', ClaimAt(index));
    Pool.TotalUpdate(moved, t.payer, Pool.Pay(moved[t.payer], paid), ClaimAt(index));
  }

  /** What time has added to the backing, between the turns of a run. */
  ghost function Accruals(c: Strategy, p: Pool.State, turns: seq<Pool.Turn>): int
    requires Pool.Playable(c, p, turns)
    decreases |turns|
  {
    if turns == [] then 0
    else BackingAt(p, ClockAfter(p.reserve, turns[0].step)) - BackingAt(p, p.reserve.lastUpdateTimestamp)
         + Accruals(c, Pool.Next(c, p, turns[0]), turns[1..])
  }

  ghost function AllForgiven(c: Strategy, p: Pool.State, turns: seq<Pool.Turn>): int
    requires Pool.Playable(c, p, turns)
    decreases |turns|
  {
    if turns == [] then 0
    else Forgiven(p.reserve, p.users[turns[0].who], turns[0].step) + AllForgiven(c, Pool.Next(c, p, turns[0]), turns[1..])
  }

  ghost function AllSlack(c: Strategy, p: Pool.State, turns: seq<Pool.Turn>): int
    requires Pool.Playable(c, p, turns)
    decreases |turns|
  {
    if turns == [] then 0
    else Slack(p.reserve, turns[0].step) + AllSlack(c, Pool.Next(c, p, turns[0]), turns[1..])
  }

  /** Over every playable run, by any number of depositors and borrowers, the backing of the claims ends
      where it was, moved by what time added between the turns, less what was forgiven, up to the
      roundings of the turns. */
  lemma {:induction false} RunBacked(c: Strategy, p: Pool.State, turns: seq<Pool.Turn>)
    requires RateModel.ValidStrategy(c) && Pool.Consistent(p) && Pool.Playable(c, p, turns)
    ensures
      var q := Pool.Play(c, p, turns);
      var moved := BackingAt(q, q.reserve.lastUpdateTimestamp) - BackingAt(p, p.reserve.lastUpdateTimestamp);
      -AllSlack(c, p, turns) <= 2 * RAY * (moved - Accruals(c, p, turns) + AllForgiven(c, p, turns)) <= AllSlack(c, p, turns)
    decreases |turns|
  {
    hide Pool.Next, Pool.Consistent, BackingAt, Slack, Forgiven, Timely, Allowed, Pool.OnLedger;
    if turns != [] {
      var t := turns[0];
      TurnBacked(c, p, t);
      Pool.TurnKeepsConsistent(c, p, t);
      ClockOfNext(c, p, t);
      RunBacked(c, Pool.Next(c, p, t), turns[1..]);
    }
  }

  lemma ClockOfNext(c: Strategy, p: Pool.State, t: Pool.Turn)
    requires Pool.Seated(p, t)
    ensures Pool.Next(c, p, t).reserve.lastUpdateTimestamp == ClockAfter(p.reserve, t.step)
  {
    hide ReserveAfter, UserAfter, Pool.PaidByOther;
    Pool.StepClock(c, p.reserve, p.users[t.who], t.step);
  }
}
