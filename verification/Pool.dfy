/** A reserve together with all of its users. The reserve's and the users' records are computed by
    separate definitions; here they are shown to move together over every run. */
module Pool {
  import opened RayMath
  import opened Accounting
  import opened Transitions
  import opened Soundness
  import RateModel
  import Ledgers

  // ---------- One step, both sides ----------

  /** A variable borrow is booked to the user on top of the reserve's scaled debt, so it is only a
      loan to that user when the user owes all of it. */
  ghost predicate OwesAllOnVariableBorrow(r: Reserve, u: User, s: Step) {
    s.action.Borrow? && s.action.mode == Variable ==> u.scaledVariableDebt == r.scaledVariableDebt
  }

  /** The index at which debts are shown after a step. */
  function ShownIndex(after: Reserve, s: Step): int {
    if s.action.Borrow? then NormalizedDebt(after.variableBorrowRate, after.variableBorrowIndex, s.tx, s.now)
    else after.variableBorrowIndex
  }

  ghost predicate SameScaledChange(r: Reserve, after: Reserve, u: User, u': User) {
    u'.scaledVariableDebt - u.scaledVariableDebt == after.scaledVariableDebt - r.scaledVariableDebt
  }

  /** What somebody else pays in a repayment on the user's behalf. */
  function PaidByOther(r: Reserve, u: User, s: Step): int {
    match s.action
    case Repay(amount, mode, false) => AmountRepaid(amount, mode, r, u, s.tx)
    case _ => 0
  }

  /** Every unit that reaches the reserve has left the user's wallet or another's. */
  ghost predicate MoneyMoves(r: Reserve, after: Reserve, u: User, u': User, paidByOther: int) {
    u.walletBalance - u'.walletBalance + paidByOther == after.availableLiquidity - r.availableLiquidity
  }

  ghost predicate ShownAlike(after: Reserve, u': User, s: Step) {
    && u'.currentVariableDebt == RayMul(u'.scaledVariableDebt, ShownIndex(after, s))
    && after.totalVariableDebt == RayMul(after.scaledVariableDebt, ShownIndex(after, s))
  }

  ghost predicate MovesTogether(r: Reserve, after: Reserve, u: User, u': User, s: Step) {
    && SameScaledChange(r, after, u, u')
    && MoneyMoves(r, after, u, u', PaidByOther(r, u, s))
    && (!s.action.SetUseAsCollateral? ==> ShownAlike(after, u', s))
  }

  /** The separately written halves of a step agree: the same scaled debt is added or burned, every
      unit between the reserve and the wallet is accounted for, but for what somebody else pays, and
      both debts are shown at one index. */
  lemma StepMovesTogether(c: Strategy, r: Reserve, u: User, s: Step)
    requires Sound(r) && Timely(r, s) && Fits(r, u, s.tx)
    requires OwesAllOnVariableBorrow(r, u, s)
    ensures MovesTogether(r, ReserveAfter(c, r, u, s), u, UserAfter(c, r, u, s), s)
  {
    hide ReserveAfter, UserAfter, MovesTogether, Sound, Fits;
    UserDebtsAt(r, u, s.tx);
    match s.action
    case Deposit(_) => PassiveMovesTogether(c, r, u, s);
    case Withdraw(_) => PassiveMovesTogether(c, r, u, s);
    case Borrow(_, _) => BorrowMovesTogether(c, r, u, s);
    case Repay(_, _, _) => RepayMovesTogether(c, r, u, s);
    case SwapRateMode(_) => SwapMovesTogether(c, r, u, s);
    case RebalanceStableRate => PassiveMovesTogether(c, r, u, s);
    case SetUseAsCollateral(_) => PassiveMovesTogether(c, r, u, s);
  }

  /** Both ways of computing the user's variable debt agree, and it scales back to the user's share. */
  ghost predicate Agreed(r: Reserve, u: User, tx: int) {
    && VariableDebtBalance(r, u.scaledVariableDebt, tx) == VariableDebtAt(r, u.scaledVariableDebt, tx)
    && RayDiv(VariableDebtAt(r, u.scaledVariableDebt, tx), VariableBorrowIndexAt(r, tx)) == u.scaledVariableDebt
  }

  /** Actions that leave the variable debt as it is. */
  lemma PassiveMovesTogether(c: Strategy, r: Reserve, u: User, s: Step)
    requires s.action.Deposit? || s.action.Withdraw? || s.action.RebalanceStableRate? || s.action.SetUseAsCollateral?
    requires Agreed(r, u, s.tx)
    ensures MovesTogether(r, ReserveAfter(c, r, u, s), u, UserAfter(c, r, u, s), s)
  {
    hide RayMul, RayDiv, VariableBorrowIndexAt, LiquidityIndexAt, NormalizedDebt, NormalizedIncome, StableDebtBalance,
         TotalStableDebtAt, AverageStableRate, RebalancedRate, ScaledDeposit, VariableDebtBalance,
         RateModel.InterestRates, RateModel.UtilizationRate;
  }

  lemma BorrowMovesTogether(c: Strategy, r: Reserve, u: User, s: Step)
    requires s.action.Borrow? && OwesAllOnVariableBorrow(r, u, s)
    ensures MovesTogether(r, ReserveAfter(c, r, u, s), u, UserAfter(c, r, u, s), s)
  {
    hide RayMul, RayDiv, VariableBorrowIndexAt, LiquidityIndexAt, NormalizedDebt, NormalizedIncome, StableDebtBalance,
         TotalStableDebtAt, AverageStableRate, UserStableRate, RateModel.InterestRates, RateModel.UtilizationRate;
  }

  lemma RepayMovesTogether(c: Strategy, r: Reserve, u: User, s: Step)
    requires s.action.Repay? && Agreed(r, u, s.tx) && s.tx == s.now
    ensures MovesTogether(r, ReserveAfter(c, r, u, s), u, UserAfter(c, r, u, s), s)
  {
    hide RayMul, RayDiv, VariableBorrowIndexAt, LiquidityIndexAt, NormalizedDebt, NormalizedIncome, StableDebtBalance,
         TotalStableDebtAt, AfterStableRepay, VariableDebtBalance, RateModel.InterestRates, RateModel.UtilizationRate;
  }

  lemma SwapMovesTogether(c: Strategy, r: Reserve, u: User, s: Step)
    requires s.action.SwapRateMode? && Agreed(r, u, s.tx)
    ensures MovesTogether(r, ReserveAfter(c, r, u, s), u, UserAfter(c, r, u, s), s)
  {
    hide RayMul, RayDiv, VariableBorrowIndexAt, LiquidityIndexAt, NormalizedDebt, NormalizedIncome, StableDebtBalance,
         TotalStableDebtAt, AverageStableRate, UserStableRate, VariableDebtBalance,
         RateModel.InterestRates, RateModel.UtilizationRate;
    RayMulZero(VariableBorrowIndexAt(r, s.tx));
  }

  /** A variable borrow adds one share to the reserve's debt, and books that and all of the reserve's
      debt to the user. */
  lemma BorrowBooksReserve(c: Strategy, r: Reserve, u: User, amount: nat, tx: nat, now: nat)
    ensures
      var s := Step(Borrow(amount, Variable), tx, now);
      UserAfter(c, r, u, s).scaledVariableDebt == ReserveAfter(c, r, u, s).scaledVariableDebt
  {
    hide RayMul, RayDiv, VariableBorrowIndexAt, LiquidityIndexAt, NormalizedDebt, NormalizedIncome, StableDebtBalance,
         TotalStableDebtAt, RateModel.InterestRates, RateModel.UtilizationRate;
  }

  /** Booking a variable borrow moves both sides alike exactly when the user owes all of the debt. */
  lemma VariableBorrowLedgerIff(c: Strategy, r: Reserve, u: User, amount: nat, tx: nat, now: nat)
    ensures
      var s := Step(Borrow(amount, Variable), tx, now);
      SameScaledChange(r, ReserveAfter(c, r, u, s), u, UserAfter(c, r, u, s))
      <==> u.scaledVariableDebt == r.scaledVariableDebt
  {
    hide RayMul, RayDiv, VariableBorrowIndexAt, LiquidityIndexAt, NormalizedDebt, NormalizedIncome, StableDebtBalance,
         TotalStableDebtAt, RateModel.InterestRates, RateModel.UtilizationRate;
  }

  /** A repayment within what the user owes: the user's own record is not capped either. */
  ghost predicate WithinDebt(r: Reserve, u: User, s: Step) {
    match s.action
    case Repay(amount, Stable, _) => AmountRepaid(amount, Stable, r, u, s.tx) <= UserStableDebtAt(u, s.tx)
    case Repay(amount, Variable, _) => BurnedShare(amount, r, u, s.tx) <= u.scaledVariableDebt
    case _ => true
  }

  /** What the users' records need to stay the reserve's ledger. */
  ghost predicate OnLedger(r: Reserve, u: User, s: Step) {
    OwesAllOnVariableBorrow(r, u, s) && WithinDebt(r, u, s)
  }

  // ---------- The user's record stays in order ----------

  /** Fits, without the comparison to the reserve. */
  ghost predicate InOrder(u: User, tx: int) {
    && 0 <= u.scaledVariableDebt
    && 0 <= u.scaledDepositBalance
    && 0 <= u.principalStableDebt && 0 <= u.currentStableDebt
    && 0 <= u.stableBorrowRate
    && 0 <= u.stableRateLastUpdated <= tx
  }

  lemma WeightedRateNonNegative(balance: nat, rate: nat, amount: nat, rateNew: nat)
    ensures UserStableRate(balance, rate, amount, rateNew) >= 0
  {
  }

  /** A withdrawal takes no more scaled deposit than the user holds. */
  lemma WithdrawnShareFits(r: Reserve, scaled: nat, withdrawn: nat, tx: int)
    requires Sound(r) && r.lastUpdateTimestamp <= tx
    requires withdrawn <= DepositBalance(r, scaled, tx)
    ensures ScaledDeposit(scaled, LiquidityIndexAt(r, tx), 0, withdrawn) >= 0
    ensures withdrawn == DepositBalance(r, scaled, tx) ==> ScaledDeposit(scaled, LiquidityIndexAt(r, tx), 0, withdrawn) == 0
  {
    hide RayMul, RayDiv, LiquidityIndexAt, NormalizedIncome;
    IncomeIsNextIndex(r);
    assert NormalizedIncome(r, tx) == LiquidityIndexAt(r, tx);
    IndexesGrow(r, tx);
    var index := LiquidityIndexAt(r, tx);
    RayMulGrows(scaled, index);
    RayDivMono(withdrawn, RayMul(scaled, index), index);
    RayDivOfRayMul(scaled, index);
    RayDivZero(index);
  }

  /** Of the steps allowed, exactly a repayment beyond the user's debt leaves a negative part or a future
      date in the user's record. */
  lemma UserStaysInOrderIff(c: Strategy, r: Reserve, u: User, s: Step)
    requires RateModel.ValidStrategy(c) && Sound(r) && Timely(r, s) && Fits(r, u, s.tx) && Allowed(r, u, s)
    ensures InOrder(UserAfter(c, r, u, s), s.tx) <==> WithinDebt(r, u, s)
  {
    hide RayMul, RayDiv, VariableBorrowIndexAt, LiquidityIndexAt, NormalizedDebt, NormalizedIncome, StableDebtBalance,
         TotalStableDebtAt, AverageStableRate, RebalancedRate, UserStableRate, ScaledDeposit,
         RateModel.InterestRates, RateModel.UtilizationRate;
    UserDebtsAt(r, u, s.tx);
    DebtsAt(r, u.scaledVariableDebt, s.tx);
    IndexesGrow(r, s.tx);
    match s.action
    case Deposit(amount) => DepositedShare(u.scaledDepositBalance, LiquidityIndexAt(r, s.tx), amount);
    case Withdraw(amount) =>
      WithdrawnNonNegative(r, u, amount, s.tx);
      WithdrawnShareFits(r, u.scaledDepositBalance, AmountWithdrawn(amount, r, u, s.tx), s.tx);
    case Borrow(amount, mode) =>
      WeightedRateNonNegative(UserStableDebtAt(u, s.tx), u.stableBorrowRate, amount, r.stableBorrowRate);
      RayDivRounds(amount, VariableBorrowIndexAt(r, s.tx));
      var before := UserStableDebtAt(u, s.tx);
      StableDebtGrows(u.principalStableDebt, u.stableBorrowRate, u.stableRateLastUpdated, s.now);
      StableDebtGrows(before + amount, UserStableRate(before, u.stableBorrowRate, amount, r.stableBorrowRate), s.tx, s.now);
    case Repay(_, _, _) =>
    case SwapRateMode(Stable) => RayDivRounds(UserStableDebtAt(u, s.tx), VariableBorrowIndexAt(r, s.tx));
    case SwapRateMode(Variable) =>
      WeightedRateNonNegative(UserStableDebtAt(u, s.tx), u.stableBorrowRate,
                              VariableDebtBalance(r, u.scaledVariableDebt, s.tx), r.stableBorrowRate);
    case RebalanceStableRate => StepSound(c, r, u, s);
    case SetUseAsCollateral(_) =>
  }

  lemma DepositedShare(scaled: nat, index: int, amount: nat)
    requires index > 0
    ensures ScaledDeposit(scaled, index, amount, 0) == scaled + RayDiv(amount, index)
    ensures RayDiv(amount, index) >= 0
  {
  }

  lemma WithdrawnNonNegative(r: Reserve, u: User, amount: nat, tx: int)
    requires Sound(r) && r.lastUpdateTimestamp <= tx && Fits(r, u, tx)
    ensures AmountWithdrawn(amount, r, u, tx) >= 0
  {
    hide RayMul, LiquidityIndexAt, NormalizedIncome;
    IncomeIsNextIndex(r);
    assert NormalizedIncome(r, tx) == LiquidityIndexAt(r, tx);
    IndexesGrow(r, tx);
    RayMulGrows(u.scaledDepositBalance, LiquidityIndexAt(r, tx));
  }

  // ---------- All users, any run ----------

  function ScaledDebt(u: User): int { u.scaledVariableDebt }
  function Wallet(u: User): int { u.walletBalance }

  function Total(users: seq<User>, part: User -> int): int {
    if users == [] then 0 else part(users[0]) + Total(users[1..], part)
  }

  lemma {:induction false} TotalUpdate(users: seq<User>, who: nat, u: User, part: User -> int)
    requires who < |users|
    ensures Total(users[who := u], part) == Total(users, part) - part(users[who]) + part(u)
  {
    if who == 0 {
      assert users[0 := u][1..] == users[1..];
    } else {
      assert users[who := u][1..] == users[1..][who - 1 := u];
      TotalUpdate(users[1..], who - 1, u, part);
    }
  }

  /** No user holds more than the users hold together. */
  lemma {:induction false} PartOfTotal(users: seq<User>, who: nat, part: User -> int)
    requires who < |users|
    requires forall i :: 0 <= i < |users| ==> part(users[i]) >= 0
    ensures 0 <= part(users[who]) <= Total(users, part)
  {
    if who == 0 {
      TotalNonNegative(users[1..], part);
    } else {
      PartOfTotal(users[1..], who - 1, part);
    }
  }

  lemma {:induction false} TotalNonNegative(users: seq<User>, part: User -> int)
    requires forall i :: 0 <= i < |users| ==> part(users[i]) >= 0
    ensures Total(users, part) >= 0
  {
    if users != [] {
      TotalNonNegative(users[1..], part);
    }
  }

  datatype State = State(reserve: Reserve, users: seq<User>)

  /** A step of user number who; a repayment is paid for by user number payer. */
  datatype Turn = Turn(who: nat, payer: nat, step: Step)

  ghost predicate Seated(p: State, t: Turn) {
    t.who < |p.users| && t.payer < |p.users|
    && (t.step.action.Repay? ==> (t.step.action.paysOwn <==> t.payer == t.who))
  }

  /** The reserve is sound, every user record is in order, and the users' scaled variable debts add
      up to the reserve's. */
  ghost predicate Consistent(p: State) {
    && Sound(p.reserve)
    && (forall i :: 0 <= i < |p.users| ==> InOrder(p.users[i], p.reserve.lastUpdateTimestamp))
    && Total(p.users, ScaledDebt) == p.reserve.scaledVariableDebt
  }

  ghost predicate Ready(p: State, t: Turn) {
    && Seated(p, t)
    && Timely(p.reserve, t.step)
    && Allowed(p.reserve, p.users[t.who], t.step)
    && OnLedger(p.reserve, p.users[t.who], t.step)
  }

  function Pay(u: User, amount: int): User {
    u.(walletBalance := u.walletBalance - amount)
  }

  /** The records after a turn. What another user pays is missing in no expected record, because the
      payer's is not read back; here it leaves the payer's wallet. */
  function Next(c: Strategy, p: State, t: Turn): State
    requires t.who < |p.users| && t.payer < |p.users|
  {
    var u := p.users[t.who];
    var moved := p.users[t.who := UserAfter(c, p.reserve, u, t.step)];
    State(ReserveAfter(c, p.reserve, u, t.step),
          moved[t.payer := Pay(moved[t.payer], PaidByOther(p.reserve, u, t.step))])
  }

  ghost predicate Playable(c: Strategy, p: State, turns: seq<Turn>)
    decreases |turns|
  {
    turns == [] || (Ready(p, turns[0]) && Playable(c, Next(c, p, turns[0]), turns[1..]))
  }

  ghost function Play(c: Strategy, p: State, turns: seq<Turn>): State
    requires Playable(c, p, turns)
    decreases |turns|
  {
    if turns == [] then p else Play(c, Next(c, p, turns[0]), turns[1..])
  }

  /** In a consistent pool every user fits the reserve: nothing about the user needs assuming. */
  lemma EveryoneFits(p: State, who: nat, tx: int)
    requires Consistent(p) && who < |p.users| && p.reserve.lastUpdateTimestamp <= tx
    ensures Fits(p.reserve, p.users[who], tx)
  {
    hide Sound;
    PartOfTotal(p.users, who, ScaledDebt);
  }

  /** The users' totals after a turn. */
  lemma TurnTotals(c: Strategy, p: State, t: Turn)
    requires Seated(p, t)
    ensures
      var u, u' := p.users[t.who], UserAfter(c, p.reserve, p.users[t.who], t.step);
      && Total(Next(c, p, t).users, ScaledDebt)
         == Total(p.users, ScaledDebt) - u.scaledVariableDebt + u'.scaledVariableDebt
      && Total(Next(c, p, t).users, Wallet)
         == Total(p.users, Wallet) - u.walletBalance + u'.walletBalance - PaidByOther(p.reserve, u, t.step)
  {
    hide ReserveAfter, UserAfter, Total, PaidByOther;
    var u := p.users[t.who];
    var u' := UserAfter(c, p.reserve, u, t.step);
    var moved := p.users[t.who := u'];
    var paid := PaidByOther(p.reserve, u, t.step);
    TotalUpdate(p.users, t.who, u', ScaledDebt);
    TotalUpdate(p.users, t.who, u', Wallet);
    TotalUpdate(moved, t.payer, Pay(moved[t.payer], paid), ScaledDebt);
    TotalUpdate(moved, t.payer, Pay(moved[t.payer], paid), Wallet);
  }

  /** The clock and the order of everybody's record after a turn that leaves the acting user's in order. */
  lemma TurnInOrder(c: Strategy, p: State, t: Turn)
    requires Consistent(p) && Seated(p, t) && Timely(p.reserve, t.step)
    requires InOrder(UserAfter(c, p.reserve, p.users[t.who], t.step), t.step.tx)
    ensures
      var q := Next(c, p, t);
      forall i :: 0 <= i < |q.users| ==> InOrder(q.users[i], q.reserve.lastUpdateTimestamp)
  {
    hide ReserveAfter, UserAfter, Sound, Total, PaidByOther;
    StepClock(c, p.reserve, p.users[t.who], t.step);
  }

  lemma TurnKeepsConsistent(c: Strategy, p: State, t: Turn)
    requires RateModel.ValidStrategy(c) && Consistent(p) && Ready(p, t)
    ensures Consistent(Next(c, p, t)) && NoEarlier(p.reserve, Next(c, p, t).reserve)
    ensures Next(c, p, t).reserve.availableLiquidity + Total(Next(c, p, t).users, Wallet)
            == p.reserve.availableLiquidity + Total(p.users, Wallet)
  {
    hide ReserveAfter, UserAfter, Sound, Allowed, Total, PaidByOther, WithinDebt;
    var r, u, s := p.reserve, p.users[t.who], t.step;
    EveryoneFits(p, t.who, s.tx);
    StepSound(c, r, u, s);
    StepMovesTogether(c, r, u, s);
    UserStaysInOrderIff(c, r, u, s);
    TurnTotals(c, p, t);
    TurnInOrder(c, p, t);
  }

  /** Of the turns that the pool demands nothing more of, exactly these keep it consistent: those whose
      step can be booked, whose variable borrow is by someone who owes all of the debt, and whose
      repayment is within the debt. */
  lemma TurnConsistentIff(c: Strategy, p: State, t: Turn)
    requires RateModel.ValidStrategy(c) && Consistent(p) && Seated(p, t)
    requires Timely(p.reserve, t.step) && Demanded(p.reserve, p.users[t.who], t.step)
    ensures Consistent(Next(c, p, t))
            <==> Bookable(p.reserve, p.users[t.who], t.step) && OnLedger(p.reserve, p.users[t.who], t.step)
  {
    hide ReserveAfter, UserAfter, Sound, Demanded, Bookable, Total, PaidByOther, BurnedShare, AmountRepaid;
    var r, u, s := p.reserve, p.users[t.who], t.step;
    EveryoneFits(p, t.who, s.tx);
    StepSoundIff(c, r, u, s);
    if Bookable(r, u, s) {
      UserStaysInOrderIff(c, r, u, s);
      if OnLedger(r, u, s) {
        TurnKeepsConsistent(c, p, t);
      } else if !OwesAllOnVariableBorrow(r, u, s) {
        BorrowBooksReserve(c, r, u, s.action.amount, s.tx, s.now);
        TurnTotals(c, p, t);
      } else {
        RepaidOutOfOrder(c, p, t);
      }
    }
  }

  /** A record out of order stays so: paying for a repayment touches the wallet alone. */
  lemma RepaidOutOfOrder(c: Strategy, p: State, t: Turn)
    requires Seated(p, t) && t.step.action.Repay?
    requires !InOrder(UserAfter(c, p.reserve, p.users[t.who], t.step), t.step.tx)
    ensures !Consistent(Next(c, p, t))
  {
    hide ReserveAfter, UserAfter, Sound, Total, PaidByOther;
    StepClock(c, p.reserve, p.users[t.who], t.step);
    assert !InOrder(Next(c, p, t).users[t.who], t.step.tx);
  }

  /** The clock after a step: only switching the collateral flag leaves it alone, and all else. */
  lemma StepClock(c: Strategy, r: Reserve, u: User, s: Step)
    ensures ReserveAfter(c, r, u, s).lastUpdateTimestamp
            == if s.action.SetUseAsCollateral? then r.lastUpdateTimestamp else s.tx
    ensures s.action.SetUseAsCollateral? ==>
              ReserveAfter(c, r, u, s) == r && UserAfter(c, r, u, s) == u.(usageAsCollateralEnabled := s.action.use)
  {
    hide RayMul, RayDiv, AverageStableRate, RateModel.InterestRates, RateModel.UtilizationRate, LiquidityIndexAt,
         VariableBorrowIndexAt, TotalStableDebtAt, RebalancedRate, AfterStableRepay;
  }

  /** Over every playable run the pool stays consistent, and no money appears or vanishes: what the
      reserve holds plus all the wallets is constant. */
  lemma {:induction false} PlayKeepsConsistent(c: Strategy, p: State, turns: seq<Turn>)
    requires RateModel.ValidStrategy(c) && Consistent(p) && Playable(c, p, turns)
    ensures Consistent(Play(c, p, turns)) && NoEarlier(p.reserve, Play(c, p, turns).reserve)
    ensures Play(c, p, turns).reserve.availableLiquidity + Total(Play(c, p, turns).users, Wallet)
            == p.reserve.availableLiquidity + Total(p.users, Wallet)
    decreases |turns|
  {
    hide Consistent, Next, Timely, Allowed, OnLedger, Total;
    if turns != [] {
      TurnKeepsConsistent(c, p, turns[0]);
      PlayKeepsConsistent(c, Next(c, p, turns[0]), turns[1..]);
    }
  }

  /** Turns that the pool executes: in their time, and with what it demands. */
  ghost predicate Executed(c: Strategy, p: State, turns: seq<Turn>)
    decreases |turns|
  {
    turns == [] ||
    (&& Seated(p, turns[0]) && Timely(p.reserve, turns[0].step)
     && Demanded(p.reserve, p.users[turns[0].who], turns[0].step)
     && Executed(c, Next(c, p, turns[0]), turns[1..]))
  }

  ghost predicate ConsistentThroughout(c: Strategy, p: State, turns: seq<Turn>)
    requires Executed(c, p, turns)
    decreases |turns|
  {
    Consistent(p) && (turns != [] ==> ConsistentThroughout(c, Next(c, p, turns[0]), turns[1..]))
  }

  /** Over every run that the pool executes, the records stay consistent throughout if and only if the
      run is playable. */
  lemma {:induction false} PlayConsistentIff(c: Strategy, p: State, turns: seq<Turn>)
    requires RateModel.ValidStrategy(c) && Consistent(p) && Executed(c, p, turns)
    ensures ConsistentThroughout(c, p, turns) <==> Playable(c, p, turns)
    decreases |turns|
  {
    hide Consistent, Next, Timely, Demanded, Bookable, OnLedger;
    if turns != [] {
      TurnConsistentIff(c, p, turns[0]);
      if Consistent(Next(c, p, turns[0])) {
        PlayConsistentIff(c, Next(c, p, turns[0]), turns[1..]);
      }
    }
  }

  // ---------- Consequences ----------

  /** A pool of n users before any action. */
  function Genesis(n: nat, market: nat): State {
    var r := Reserve(0, 0, 0, 0, 0, 0, 0, 0, 0, 0, RAY, RAY, 0, market, 0, 0);
    State(r, seq(n, _ => User(0, 0, 0, 0, 0, 0, 0, 0, 0, false, 0)))
  }

  lemma GenesisConsistent(n: nat, market: nat)
    ensures Consistent(Genesis(n, market))
  {
    NothingOwed(Genesis(n, market).users);
  }

  lemma {:induction false} NothingOwed(users: seq<User>)
    requires forall i :: 0 <= i < |users| ==> users[i].scaledVariableDebt == 0
    ensures Total(users, ScaledDebt) == 0
  {
    if users != [] { NothingOwed(users[1..]); }
  }

  /** The user owes the reserve's whole scaled debt and is shown its whole variable debt. */
  ghost predicate Mirrors(u: User, r: Reserve) {
    u.scaledVariableDebt == r.scaledVariableDebt && u.currentVariableDebt == r.totalVariableDebt
  }

  /** A pool of one user needs no restriction on who borrows, and mirrors the reserve. */
  lemma SoleBorrowerMirrorsReserve(c: Strategy, p: State, t: Turn)
    requires RateModel.ValidStrategy(c) && Consistent(p) && |p.users| == 1 && Seated(p, t)
    requires Timely(p.reserve, t.step) && Allowed(p.reserve, p.users[0], t.step) && WithinDebt(p.reserve, p.users[0], t.step)
    ensures Ready(p, t)
    ensures Next(c, p, t).users[0].scaledVariableDebt == Next(c, p, t).reserve.scaledVariableDebt
    ensures !t.step.action.SetUseAsCollateral? || Mirrors(p.users[0], p.reserve) ==>
              Mirrors(Next(c, p, t).users[0], Next(c, p, t).reserve)
  {
    hide ReserveAfter, UserAfter, Sound, Allowed;
    var r, u := p.reserve, p.users[0];
    assert p.users == [u] && Total([u], ScaledDebt) == ScaledDebt(u);
    EveryoneFits(p, 0, t.step.tx);
    StepMovesTogether(c, r, u, t.step);
    StepClock(c, r, u, t.step);
  }

  /** Turns of the only user, each in its time and within the pool's demands: no word on who owes
      what. */
  ghost predicate SolePlayable(c: Strategy, p: State, turns: seq<Turn>)
    decreases |turns|
  {
    turns == [] ||
    (&& Seated(p, turns[0]) && turns[0].who == 0
     && Timely(p.reserve, turns[0].step) && Allowed(p.reserve, p.users[0], turns[0].step)
     && WithinDebt(p.reserve, p.users[0], turns[0].step)
     && SolePlayable(c, Next(c, p, turns[0]), turns[1..]))
  }

  /** Over every run of borrows, repayments, swaps and the rest by the only user, the two separately
      written records owe the same scaled debt and show the same debt. */
  lemma {:induction false} SoleBorrowerRun(c: Strategy, p: State, turns: seq<Turn>)
    requires RateModel.ValidStrategy(c) && Consistent(p) && |p.users| == 1
    requires Mirrors(p.users[0], p.reserve) && SolePlayable(c, p, turns)
    ensures Playable(c, p, turns)
    ensures
      var q := Play(c, p, turns);
      Consistent(q) && |q.users| == 1 && Mirrors(q.users[0], q.reserve)
    decreases |turns|
  {
    hide ReserveAfter, UserAfter, Consistent, Timely, Allowed, Mirrors, OwesAllOnVariableBorrow, WithinDebt;
    if turns != [] {
      SoleBorrowerMirrorsReserve(c, p, turns[0]);
      TurnKeepsConsistent(c, p, turns[0]);
      SoleBorrowerRun(c, Next(c, p, turns[0]), turns[1..]);
    }
  }

  /** For every sound reserve and every user in it, however either came about, the short cuts that
      decide differently agree: depositors are shown the index the next action books, users the debt it
      books, and a dated stable debt is the same with and without its short cuts. */
  lemma ShortCutsAgree(r: Reserve, u: User, now: nat)
    requires Sound(r) && r.lastUpdateTimestamp <= now && Fits(r, u, now)
    ensures NormalizedIncome(r, now) == LiquidityIndexAt(r, now)
    ensures VariableDebtBalance(r, u.scaledVariableDebt, now) == VariableDebtAt(r, u.scaledVariableDebt, now)
    ensures r.totalStableDebtLastUpdated != 0 ==>
              StableDebtBalance(r.principalStableDebt, r.averageStableBorrowRate, r.totalStableDebtLastUpdated, now)
              == StableDebtAt(r, now)
  {
    hide LiquidityIndexAt, VariableBorrowIndexAt, VariableDebtBalance, StableDebtBalance, TotalStableDebtAt,
         NormalizedIncome, RayMul, RayDiv;
    IncomeIsNextIndex(r);
    UserDebtsAt(r, u, now);
    if r.totalStableDebtLastUpdated != 0 {
      StableFastPath(r.principalStableDebt, r.averageStableBorrowRate, r.totalStableDebtLastUpdated, now);
    }
  }

  /** The users' scaled debts as plain numbers. */
  ghost function Shares(users: seq<User>): (shares: seq<nat>)
    requires forall i :: 0 <= i < |users| ==> users[i].scaledVariableDebt >= 0
    ensures |shares| == |users|
    ensures forall i :: 0 <= i < |users| ==> shares[i] == users[i].scaledVariableDebt
  {
    seq(|users|, i requires 0 <= i < |users| => users[i].scaledVariableDebt)
  }

  lemma {:induction false} SharesAddUp(users: seq<User>)
    requires forall i :: 0 <= i < |users| ==> users[i].scaledVariableDebt >= 0
    ensures Ledgers.Sum(Shares(users)) == Total(users, ScaledDebt)
  {
    if users != [] {
      assert Shares(users)[1..] == Shares(users[1..]);
      SharesAddUp(users[1..]);
    }
  }

  /** In every reachable pool, at any index, the users' debts together are the reserve's debt up to
      half a unit per user and half a unit for the reserve. */
  lemma DebtsAddUp(p: State, index: nat)
    requires Consistent(p)
    ensures
      var owed := Ledgers.SumOfDebts(Shares(p.users), index);
      -(|p.users| + 1) <= 2 * (owed - RayMul(p.reserve.scaledVariableDebt, index)) <= |p.users| + 1
  {
    hide RayMul;
    SharesAddUp(p.users);
    Ledgers.SumOfParts(Shares(p.users), index);
  }
}
