/** A whole life of a pool at one tick: for all amounts, the demands of every step are met, and the
    last step leaves nothing behind. */
module LifeCycle {
  import opened RayMath
  import opened Interest
  import opened Accounting
  import opened Transitions
  import opened Soundness
  import RateModel
  import Pool

  /** A reserve that has not accrued anything by t and owes only variable debt. */
  ghost predicate Young(r: Reserve, available: nat, scaled: nat, t: nat) {
    && Sound(r)
    && r.liquidityIndex == RAY && r.variableBorrowIndex == RAY
    && r.availableLiquidity == available && r.scaledVariableDebt == scaled
    && r.principalStableDebt == 0 && r.averageStableBorrowRate == 0
    && r.totalLiquidity == available + scaled
    && r.lastUpdateTimestamp <= t
    && (r.lastUpdateTimestamp == t || (r.utilizationRate == 0 && r.totalVariableDebt == 0))
  }

  /** Until then its indexes stay at one ray, for every short cut. */
  lemma YoungIndexes(r: Reserve, available: nat, scaled: nat, t: nat, x: nat)
    requires Young(r, available, scaled, t)
    ensures LiquidityIndexAt(r, t) == RAY && VariableBorrowIndexAt(r, t) == RAY
    ensures DepositBalance(r, x, t) == x
    ensures StableDebtAt(r, t) == 0
    ensures r.lastUpdateTimestamp == t ==> VariableDebtBalance(r, x, t) == x
  {
    hide RayMul, LinearInterest, CompoundedInterest;
    var last := r.lastUpdateTimestamp;
    LinearBounds(r.liquidityRate, t, last);
    CompoundedUnit(r.variableBorrowRate, t, last);
    RayMulUnit(RAY);
    RayMulUnit(x);
    IncomeIsNextIndex(r);
    assert NormalizedIncome(r, t) == LiquidityIndexAt(r, t);
    StableDebtGrows(0, 0, r.totalStableDebtLastUpdated, t);
  }

  lemma ScaledAtOneRay(x: nat)
    ensures RayDiv(x, RAY) == x && RayMul(x, RAY) == x
  {
    RayMulUnit(x);
    RayDivOfRayMul(x, RAY);
  }

  lemma YoungDeposit(c: Strategy, r: Reserve, amount: nat, t: nat)
    requires RateModel.ValidStrategy(c) && Young(r, 0, 0, t)
    ensures Young(ReserveAfterDeposit(c, amount, r, t), amount, 0, t)
    ensures ReserveAfterDeposit(c, amount, r, t).lastUpdateTimestamp == t
  {
    hide RayMul, RayDiv, RateModel.InterestRates, RateModel.UtilizationRate, TotalStableDebtAt, LiquidityIndexAt,
         VariableBorrowIndexAt;
    YoungIndexes(r, 0, 0, t, 0);
    DepositSound(c, r, amount, t);
  }

  lemma YoungBorrow(c: Strategy, r: Reserve, deposited: nat, amount: nat, t: nat)
    requires RateModel.ValidStrategy(c) && Young(r, deposited, 0, t) && r.lastUpdateTimestamp == t
    requires 0 < amount <= deposited
    ensures Young(ReserveAfterBorrow(c, amount, Variable, r, t, t), deposited - amount, amount, t)
    ensures ReserveAfterBorrow(c, amount, Variable, r, t, t).lastUpdateTimestamp == t
  {
    hide RayMul, RayDiv, RateModel.InterestRates, RateModel.UtilizationRate, TotalStableDebtAt, LiquidityIndexAt,
         VariableBorrowIndexAt, NormalizedDebt, StableDebtBalance;
    YoungIndexes(r, deposited, 0, t, amount);
    ScaledAtOneRay(amount);
    BorrowVariableSound(c, r, amount, t, t);
    StableDebtGrows(0, 0, r.totalStableDebtLastUpdated, t);
    var after := ReserveAfterBorrow(c, amount, Variable, r, t, t);
    NormalizedDebtGrows(after.variableBorrowRate, RAY, t, t);
  }

  lemma YoungRepay(c: Strategy, r: Reserve, u: User, available: nat, t: nat)
    requires RateModel.ValidStrategy(c) && u.scaledVariableDebt >= 0
    requires Young(r, available, u.scaledVariableDebt, t) && r.lastUpdateTimestamp == t
    requires Fits(r, u, t)
    ensures Young(ReserveAfterRepay(c, MAX_UINT_AMOUNT, Variable, r, u, t), available + u.scaledVariableDebt, 0, t)
  {
    hide RayMul, RayDiv, RateModel.InterestRates, RateModel.UtilizationRate, TotalStableDebtAt, LiquidityIndexAt,
         VariableBorrowIndexAt, NormalizedDebt;
    YoungIndexes(r, available, u.scaledVariableDebt, t, u.scaledVariableDebt);
    ScaledAtOneRay(u.scaledVariableDebt);
    ScaledAtOneRay(0);
    RepayVariableSound(c, r, u, MAX_UINT_AMOUNT, t);
  }

  lemma YoungWithdraw(c: Strategy, r: Reserve, u: User, t: nat)
    requires RateModel.ValidStrategy(c) && u.scaledDepositBalance >= 0 && Young(r, u.scaledDepositBalance, 0, t)
    ensures
      var after := ReserveAfterWithdraw(c, MAX_UINT_AMOUNT, r, u, t);
      after.liquidityIndex == RAY && after.availableLiquidity == 0 && after.scaledVariableDebt == 0 && after.totalLiquidity == 0
  {
    hide RayMul, RayDiv, RateModel.InterestRates, RateModel.UtilizationRate, TotalStableDebtAt, LiquidityIndexAt,
         VariableBorrowIndexAt, NormalizedIncome;
    YoungIndexes(r, u.scaledDepositBalance, 0, t, u.scaledDepositBalance);
    RayMulZero(RAY);
    WithdrawSound(c, r, u, MAX_UINT_AMOUNT, t);
  }

  // ---------- A pool of one user ----------

  /** The pool between steps: what the reserve holds, what the user deposited and owes. */
  ghost predicate Stage(p: Pool.State, available: nat, deposited: nat, owed: nat, t: nat) {
    && Pool.Consistent(p) && |p.users| == 1
    && Young(p.reserve, available, owed, t)
    && p.users[0].scaledDepositBalance == deposited && p.users[0].scaledVariableDebt == owed
    && available + p.users[0].walletBalance == 0
  }

  function Turn(action: Action, t: nat): Pool.Turn {
    Pool.Turn(0, 0, Step(action, t, t))
  }

  /** What a ready turn of the only user keeps, whatever it does. */
  lemma OnlyTurn(c: Strategy, p: Pool.State, action: Action, t: nat)
    requires RateModel.ValidStrategy(c) && Pool.Consistent(p) && |p.users| == 1
    requires p.reserve.lastUpdateTimestamp <= t && Allowed(p.reserve, p.users[0], Step(action, t, t))
    requires Pool.WithinDebt(p.reserve, p.users[0], Step(action, t, t)) && (action.Repay? ==> action.paysOwn)
    ensures Pool.Ready(p, Turn(action, t))
    ensures
      var q := Pool.Next(c, p, Turn(action, t));
      && Pool.Consistent(q) && |q.users| == 1
      && q.users[0].scaledVariableDebt == q.reserve.scaledVariableDebt
      && q.reserve.availableLiquidity + q.users[0].walletBalance
         == p.reserve.availableLiquidity + p.users[0].walletBalance
  {
    hide ReserveAfter, UserAfter, Sound, Allowed;
    var q := Pool.Next(c, p, Turn(action, t));
    Pool.SoleBorrowerMirrorsReserve(c, p, Turn(action, t));
    Pool.TurnKeepsConsistent(c, p, Turn(action, t));
    assert p.users == [p.users[0]] && q.users == [q.users[0]];
    assert Pool.Total([p.users[0]], Pool.Wallet) == Pool.Wallet(p.users[0]);
    assert Pool.Total([q.users[0]], Pool.Wallet) == Pool.Wallet(q.users[0]);
  }

  lemma DepositTurn(c: Strategy, p: Pool.State, amount: nat, t: nat)
    requires RateModel.ValidStrategy(c) && Stage(p, 0, 0, 0, t)
    ensures Pool.Ready(p, Turn(Deposit(amount), t))
    ensures
      var q := Pool.Next(c, p, Turn(Deposit(amount), t));
      Stage(q, amount, amount, 0, t) && q.reserve.lastUpdateTimestamp == t
  {
    hide ReserveAfterDeposit, RayMul, RayDiv, Sound, VariableDebtBalance, DepositBalance, StableDebtBalance;
    var r, u := p.reserve, p.users[0];
    OnlyTurn(c, p, Deposit(amount), t);
    YoungDeposit(c, r, amount, t);
    ScaledAtOneRay(amount);
    Pool.DepositedShare(0, RAY, amount);
  }

  lemma BorrowTurn(c: Strategy, p: Pool.State, deposited: nat, amount: nat, t: nat)
    requires RateModel.ValidStrategy(c) && Stage(p, deposited, deposited, 0, t) && p.reserve.lastUpdateTimestamp == t
    requires 0 < amount <= deposited
    ensures Pool.Ready(p, Turn(Borrow(amount, Variable), t))
    ensures
      var q := Pool.Next(c, p, Turn(Borrow(amount, Variable), t));
      Stage(q, deposited - amount, deposited, amount, t) && q.reserve.lastUpdateTimestamp == t
  {
    hide ReserveAfterBorrow, RayMul, RayDiv, Sound, VariableDebtBalance, DepositBalance, StableDebtBalance;
    OnlyTurn(c, p, Borrow(amount, Variable), t);
    YoungBorrow(c, p.reserve, deposited, amount, t);
  }

  lemma RepayTurn(c: Strategy, p: Pool.State, available: nat, deposited: nat, owed: nat, t: nat)
    requires RateModel.ValidStrategy(c) && Stage(p, available, deposited, owed, t) && p.reserve.lastUpdateTimestamp == t
    ensures Pool.Ready(p, Turn(Repay(MAX_UINT_AMOUNT, Variable, true), t))
    ensures Stage(Pool.Next(c, p, Turn(Repay(MAX_UINT_AMOUNT, Variable, true), t)), available + owed, deposited, 0, t)
  {
    hide ReserveAfterRepay, RayMul, RayDiv, Sound, VariableDebtBalance, DepositBalance, StableDebtBalance;
    Pool.EveryoneFits(p, 0, t);
    UserDebtsAt(p.reserve, p.users[0], t);
    OnlyTurn(c, p, Repay(MAX_UINT_AMOUNT, Variable, true), t);
    YoungRepay(c, p.reserve, p.users[0], available, t);
  }

  lemma WithdrawTurn(c: Strategy, p: Pool.State, deposited: nat, t: nat)
    requires RateModel.ValidStrategy(c) && Stage(p, deposited, deposited, 0, t)
    ensures Pool.Ready(p, Turn(Withdraw(MAX_UINT_AMOUNT), t))
    ensures Emptied(Pool.Next(c, p, Turn(Withdraw(MAX_UINT_AMOUNT), t)))
  {
    hide ReserveAfterWithdraw, RayMul, RayDiv, Sound, VariableDebtBalance, NormalizedIncome, StableDebtBalance,
         LiquidityIndexAt;
    var r, u := p.reserve, p.users[0];
    YoungIndexes(r, deposited, 0, t, deposited);
    Pool.EveryoneFits(p, 0, t);
    OnlyTurn(c, p, Withdraw(MAX_UINT_AMOUNT), t);
    YoungWithdraw(c, r, u, t);
    ScaledAtOneRay(deposited);
    RayDivZero(RAY);
  }

  /** Nothing held, nothing owed, no position, and the wallet as in the beginning. */
  ghost predicate Emptied(p: Pool.State) {
    && Pool.Consistent(p) && |p.users| == 1
    && p.reserve.availableLiquidity == 0 && p.reserve.totalLiquidity == 0 && p.reserve.scaledVariableDebt == 0
    && p.users[0].walletBalance == 0
    && p.users[0].scaledDepositBalance == 0 && p.users[0].scaledVariableDebt == 0
  }

  function Turns(deposited: nat, borrowed: nat, t: nat): seq<Pool.Turn> {
    [Turn(Deposit(deposited), t), Turn(Borrow(borrowed, Variable), t),
     Turn(Repay(MAX_UINT_AMOUNT, Variable, true), t), Turn(Withdraw(MAX_UINT_AMOUNT), t)]
  }

  /** Deposit, borrow some of it at a variable rate, repay everything, withdraw everything: for all
      amounts a fresh pool can play it, and is empty in the end. */
  lemma WholeLife(c: Strategy, market: nat, deposited: nat, borrowed: nat, t: nat)
    requires RateModel.ValidStrategy(c) && 0 < borrowed <= deposited
    ensures Pool.Playable(c, Pool.Genesis(1, market), Turns(deposited, borrowed, t))
    ensures Emptied(Pool.Play(c, Pool.Genesis(1, market), Turns(deposited, borrowed, t)))
  {
    hide ReserveAfter, UserAfter, Young, Sound, Timely, Allowed, Pool.Consistent, Pool.OwesAllOnVariableBorrow, Emptied,
         Pool.Playable, Pool.Play, Pool.Genesis;
    var p0, turns := Pool.Genesis(1, market), Turns(deposited, borrowed, t);
    BirthStage(market, t);
    DepositTurn(c, p0, deposited, t);
    var p1 := Pool.Next(c, p0, turns[0]);
    BorrowTurn(c, p1, deposited, borrowed, t);
    var p2 := Pool.Next(c, p1, turns[1]);
    RepayTurn(c, p2, deposited - borrowed, deposited, borrowed, t);
    var p3 := Pool.Next(c, p2, turns[2]);
    WithdrawTurn(c, p3, deposited, t);
    FourTurns(c, p0, p1, p2, p3, turns);
  }

  lemma FourTurns(c: Strategy, p: Pool.State, p1: Pool.State, p2: Pool.State, p3: Pool.State, turns: seq<Pool.Turn>)
    requires |turns| == 4
    requires Pool.Ready(p, turns[0]) && p1 == Pool.Next(c, p, turns[0])
    requires Pool.Ready(p1, turns[1]) && p2 == Pool.Next(c, p1, turns[1])
    requires Pool.Ready(p2, turns[2]) && p3 == Pool.Next(c, p2, turns[2])
    requires Pool.Ready(p3, turns[3])
    ensures Pool.Playable(c, p, turns)
    ensures Pool.Play(c, p, turns) == Pool.Next(c, p3, turns[3])
  {
    hide Timely, Allowed, ReserveAfter, UserAfter, Pool.OwesAllOnVariableBorrow, Pool.Next;
    var p4 := Pool.Next(c, p3, turns[3]);
    assert turns[4..] == [];
    assert Pool.Playable(c, p4, turns[4..]) && Pool.Play(c, p4, turns[4..]) == p4;
    hide Pool.Playable, Pool.Play;
    PlayStep(c, p3, turns, 3);
    PlayStep(c, p2, turns, 2);
    PlayStep(c, p1, turns, 1);
    PlayStep(c, p, turns, 0);
    assert turns[0..] == turns;
  }

  lemma PlayStep(c: Strategy, p: Pool.State, turns: seq<Pool.Turn>, i: nat)
    requires i < |turns| && Pool.Ready(p, turns[i])
    requires Pool.Playable(c, Pool.Next(c, p, turns[i]), turns[i + 1..])
    ensures Pool.Playable(c, p, turns[i..])
    ensures Pool.Play(c, p, turns[i..]) == Pool.Play(c, Pool.Next(c, p, turns[i]), turns[i + 1..])
  {
    hide Timely, Allowed, ReserveAfter, UserAfter;
    assert turns[i..][0] == turns[i] && turns[i..][1..] == turns[i + 1..];
  }

  lemma BirthStage(market: nat, t: nat)
    ensures Stage(Pool.Genesis(1, market), 0, 0, 0, t)
  {
    Pool.GenesisConsistent(1, market);
  }
}
