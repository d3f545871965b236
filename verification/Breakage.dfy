/** Pools that a fresh market reaches in two turns, and that the expected records then get wrong: one
    user deposits and borrows, and the next turn, or the next second, shows each quirk at work. */
module Breakage {
  import opened RayMath
  import opened Interest
  import opened Accounting
  import opened Transitions
  import opened Soundness
  import opened LifeCycle
  import ContractMatch
  import Exits
  import RateModel
  import Pool
  import StableTwin

  function LendTurns(deposited: nat, borrowed: nat, t: nat): seq<Pool.Turn> {
    [Turn(Deposit(deposited), t), Turn(Borrow(borrowed, Variable), t)]
  }

  function AfterDeposit(c: Strategy, market: nat, n: nat, deposited: nat, t: nat): Pool.State
    requires n > 0
  {
    Pool.Next(c, Pool.Genesis(n, market), Turn(Deposit(deposited), t))
  }

  /** A fresh pool of n users, of whom the first has deposited and borrowed some of it. */
  function Lent(c: Strategy, market: nat, n: nat, deposited: nat, borrowed: nat, t: nat): Pool.State
    requires n > 0
  {
    Pool.Next(c, AfterDeposit(c, market, n, deposited, t), Turn(Borrow(borrowed, Variable), t))
  }

  /** What the reserve and its users look like then. */
  ghost predicate LentOut(c: Strategy, p: Pool.State, n: nat, deposited: nat, borrowed: nat, t: nat) {
    && borrowed <= deposited
    && Pool.Consistent(p) && |p.users| == n > 0
    && Young(p.reserve, deposited - borrowed, borrowed, t) && p.reserve.lastUpdateTimestamp == t
    && BalanceSheet(p.reserve) && Exits.UpToDate(p.reserve)
    && p.users[0].scaledVariableDebt == borrowed && p.users[0].principalStableDebt == 0
    && (forall i :: 0 < i < n ==> p.users[i].scaledVariableDebt == 0)
    && p.reserve.variableBorrowRate >= c.baseVariableBorrowRate
    && (c.reserveFactor == PERCENTAGE_FACTOR ==> p.reserve.liquidityRate == 0)
  }

  lemma Reached(c: Strategy, market: nat, n: nat, deposited: nat, borrowed: nat, t: nat)
    requires RateModel.ValidStrategy(c) && 0 < borrowed <= deposited && n > 0
    ensures Pool.Playable(c, Pool.Genesis(n, market), LendTurns(deposited, borrowed, t))
    ensures Pool.Play(c, Pool.Genesis(n, market), LendTurns(deposited, borrowed, t))
            == Lent(c, market, n, deposited, borrowed, t)
    ensures LentOut(c, Lent(c, market, n, deposited, borrowed, t), n, deposited, borrowed, t)
  {
    hide ReserveAfter, UserAfter, Young, Sound, LentOut, Timely, Allowed;
    var p0, turns := Pool.Genesis(n, market), LendTurns(deposited, borrowed, t);
    var p1 := AfterDeposit(c, market, n, deposited, t);
    var p2 := Lent(c, market, n, deposited, borrowed, t);
    Pool.GenesisConsistent(n, market);
    FirstDeposit(c, market, n, deposited, t);
    Pool.TurnKeepsConsistent(c, p0, turns[0]);
    FirstBorrow(c, p1, n, deposited, borrowed, t);
    Pool.TurnKeepsConsistent(c, p1, turns[1]);
    assert turns[1..][1..] == [] && turns[1..][0] == turns[1];
    assert Pool.Playable(c, p2, []) && Pool.Play(c, p2, []) == p2;
    assert Pool.Playable(c, p1, turns[1..]);
  }

  /** After the first deposit nobody owes anything. */
  ghost predicate Funded(p: Pool.State, n: nat, deposited: nat, t: nat) {
    && |p.users| == n > 0
    && Young(p.reserve, deposited, 0, t) && p.reserve.lastUpdateTimestamp == t
    && (forall i :: 0 <= i < n ==> p.users[i].scaledVariableDebt == 0 && p.users[i].principalStableDebt == 0)
  }

  lemma FirstDeposit(c: Strategy, market: nat, n: nat, deposited: nat, t: nat)
    requires RateModel.ValidStrategy(c) && n > 0
    ensures Pool.Ready(Pool.Genesis(n, market), Turn(Deposit(deposited), t))
    ensures Funded(AfterDeposit(c, market, n, deposited, t), n, deposited, t)
  {
    var p := Pool.Genesis(n, market);
    var r, u := p.reserve, p.users[0];
    assert Sound(r);
    YoungDeposit(c, r, deposited, t);
    RayMulZero(NormalizedDebt(0, RAY, 0, t));
    hide ReserveAfterDeposit, RayMul, RayDiv, Sound, Young, NormalizedDebt;
  }

  lemma FirstBorrow(c: Strategy, p: Pool.State, n: nat, deposited: nat, borrowed: nat, t: nat)
    requires RateModel.ValidStrategy(c) && Pool.Consistent(p) && Funded(p, n, deposited, t)
    requires 0 < borrowed <= deposited
    ensures Pool.Ready(p, Turn(Borrow(borrowed, Variable), t))
    ensures
      var q := Pool.Next(c, p, Turn(Borrow(borrowed, Variable), t));
      Pool.Consistent(q) ==> LentOut(c, q, n, deposited, borrowed, t)
  {
    var r, u := p.reserve, p.users[0];
    YoungBorrow(c, r, deposited, borrowed, t);
    YoungIndexes(r, deposited, 0, t, borrowed);
    BorrowRates(c, r, deposited, borrowed, t);
    BorrowBalances(c, r, borrowed, t);
    ScaledAtOneRay(borrowed);
    hide ReserveAfterBorrow, RayMul, RayDiv, Sound, Young, Exits.DebtsBefore, VariableDebtBalance, NormalizedDebt,
         StableDebtBalance, DepositBalance, VariableBorrowIndexAt;
  }

  /** The books right after the borrow. */
  lemma BorrowBalances(c: Strategy, r: Reserve, borrowed: nat, t: nat)
    requires RateModel.ValidStrategy(c) && Sound(r) && r.lastUpdateTimestamp <= t
    requires 0 < borrowed <= r.availableLiquidity
    ensures BalanceSheet(ReserveAfterBorrow(c, borrowed, Variable, r, t, t))
    ensures Exits.UpToDate(ReserveAfterBorrow(c, borrowed, Variable, r, t, t))
  {
    BorrowVariableSound(c, r, borrowed, t, t);
    var nobody := User(0, 0, 0, 0, 0, 0, 0, 0, 0, false, 0);
    Exits.StepUpToDateIff(c, r, nobody, Step(Borrow(borrowed, Variable), t, t));
    hide ReserveAfterBorrow, Exits.UpToDate;
  }

  lemma BorrowRates(c: Strategy, r: Reserve, deposited: nat, borrowed: nat, t: nat)
    requires RateModel.ValidStrategy(c) && Young(r, deposited, 0, t) && r.lastUpdateTimestamp == t
    requires 0 < borrowed <= deposited
    ensures
      var after := ReserveAfterBorrow(c, borrowed, Variable, r, t, t);
      && after.variableBorrowRate >= c.baseVariableBorrowRate
      && (c.reserveFactor == PERCENTAGE_FACTOR ==> after.liquidityRate == 0)
  {
    BorrowVariableSound(c, r, borrowed, t, t);
    var e := BorrowSettled(c, borrowed, Variable, r, t);
    assert e.utilizationRate >= 0 && r.marketStableRate >= 0;
    SettledRates(c, r, borrowed, t);
    RateModel.CurveAnchors(c, r.marketStableRate);
    RateModel.CurveMono(c, r.marketStableRate, 0, e.utilizationRate);
    hide RateModel.VariableRate, RateModel.StableRate, BorrowSettled, ReserveAfterBorrow, Sound, Young;
  }

  lemma SettledRates(c: Strategy, r: Reserve, borrowed: nat, t: nat)
    requires RateModel.ValidStrategy(c)
    ensures
      var settled, after := BorrowSettled(c, borrowed, Variable, r, t), ReserveAfterBorrow(c, borrowed, Variable, r, t, t);
      && after.variableBorrowRate == RateModel.VariableRate(c, settled.utilizationRate)
      && (c.reserveFactor == PERCENTAGE_FACTOR ==> after.liquidityRate == 0)
  {
    hide RateModel.VariableRate, RateModel.StableRate, RateModel.OverallBorrowRate, RayMul, RayDiv, VariableBorrowIndexAt,
         LiquidityIndexAt, StableDebtBalance, TotalStableDebtAt, NormalizedDebt, RateModel.UtilizationRate;
  }

  // ---------- What goes wrong next ----------

  /** A deposit made once the borrower's simple interest has come to some units leaves the recorded
      total short of at least those units. */
  lemma DepositUnbalances(c: Strategy, market: nat, deposited: nat, borrowed: nat, t: nat, amount: nat, tx: nat,
                          units: nat)
    requires RateModel.ValidStrategy(c) && c.baseVariableBorrowRate >= ONE_YEAR
    requires 0 < borrowed <= deposited && t <= tx && (tx - t) * borrowed >= units * RAY
    ensures
      var r := Lent(c, market, 1, deposited, borrowed, t).reserve;
      BalanceSheet(r) && Exits.Gap(ReserveAfterDeposit(c, amount, r, tx)) >= units
  {
    hide *;
    var p := Lent(c, market, 1, deposited, borrowed, t);
    var r := p.reserve;
    Reached(c, market, 1, deposited, borrowed, t);
    LentOutReserve(c, p, 1, deposited, borrowed, t);
    SimpleInterest(r.variableBorrowRate, tx - t, borrowed, units);
    Exits.AccruedSince(r, tx, units);
    Exits.DepositGap(c, r, amount, tx);
  }

  lemma LentOutReserve(c: Strategy, p: Pool.State, n: nat, deposited: nat, borrowed: nat, t: nat)
    requires LentOut(c, p, n, deposited, borrowed, t)
    ensures Sound(p.reserve) && Exits.UpToDate(p.reserve) && BalanceSheet(p.reserve)
    ensures Exits.Gap(p.reserve) == 0
    ensures p.reserve.lastUpdateTimestamp == t && p.reserve.scaledVariableDebt == borrowed
    ensures p.reserve.totalLiquidity == deposited && p.reserve.principalStableDebt == 0
    ensures p.reserve.variableBorrowRate >= c.baseVariableBorrowRate
    ensures c.reserveFactor == PERCENTAGE_FACTOR ==> p.reserve.liquidityRate == 0
  {
  }

  lemma OnePerSecond(rate: nat)
    requires rate >= ONE_YEAR
    ensures Power1(rate) >= 1
  {
    DivMono(ONE_YEAR, rate, ONE_YEAR);
  }

  lemma SimpleInterest(rate: nat, elapsed: nat, debt: nat, units: nat)
    requires rate >= ONE_YEAR && elapsed * debt >= units * RAY
    ensures (Power1(rate) * elapsed) * debt >= units * RAY
  {
    OnePerSecond(rate);
    hide Power1;
    MulMono(1, Power1(rate), elapsed);
    MulMono(elapsed, Power1(rate) * elapsed, debt);
  }

  /** If everything was borrowed, and more interest has accrued than is deposited, the deposit shows the
      reserve utilized beyond 100%. */
  lemma DepositOverUtilizes(c: Strategy, market: nat, deposited: nat, t: nat, amount: nat, tx: nat)
    requires RateModel.ValidStrategy(c) && c.baseVariableBorrowRate >= ONE_YEAR
    requires 0 < deposited && deposited + amount <= 2 * RAY && t <= tx && (tx - t) * deposited >= (amount + 1) * RAY
    ensures ReserveAfterDeposit(c, amount, Lent(c, market, 1, deposited, deposited, t).reserve, tx).utilizationRate > RAY
  {
    hide *;
    var p := Lent(c, market, 1, deposited, deposited, t);
    var r := p.reserve;
    Reached(c, market, 1, deposited, deposited, t);
    LentOutReserve(c, p, 1, deposited, deposited, t);
    SimpleInterest(r.variableBorrowRate, tx - t, deposited, amount + 1);
    Exits.AccruedSince(r, tx, amount + 1);
    NothingHeld(c, p, deposited, t);
    Exits.DepositUtilizationIff(c, r, amount, tx);
  }

  lemma NothingHeld(c: Strategy, p: Pool.State, deposited: nat, t: nat)
    requires LentOut(c, p, 1, deposited, deposited, t)
    ensures p.reserve.totalStableDebt + p.reserve.totalVariableDebt == p.reserve.totalLiquidity
  {
  }

  /** The second user's variable borrow is mined as any other, and books the first user's debt to the
      second as well: the users then owe more than the reserve is owed. */
  lemma SecondBorrowerMisbooked(c: Strategy, market: nat, deposited: nat, borrowed: nat, t: nat, amount: nat)
    requires RateModel.ValidStrategy(c) && 0 < borrowed && 0 < amount && borrowed + amount <= deposited
    ensures
      var p := Lent(c, market, 2, deposited, borrowed, t);
      var turn := Pool.Turn(1, 1, Step(Borrow(amount, Variable), t, t));
      var q := Pool.Next(c, p, turn);
      && Timely(p.reserve, turn.step) && Allowed(p.reserve, p.users[1], turn.step)
      && Pool.Total(q.users, Pool.ScaledDebt) == q.reserve.scaledVariableDebt + borrowed
  {
    hide Exits.UpToDate, Exits.DebtsBefore, Lent, Young;
    var p := Lent(c, market, 2, deposited, borrowed, t);
    var s := Step(Borrow(amount, Variable), t, t);
    Reached(c, market, 2, deposited, borrowed, t);
    LentOutReserve(c, p, 2, deposited, borrowed, t);
    LentOutHeld(c, p, 2, deposited, borrowed, t);
    Pool.BorrowBooksReserve(c, p.reserve, p.users[1], amount, t, t);
    Pool.TotalUpdate(p.users, 1, UserAfter(c, p.reserve, p.users[1], s), Pool.ScaledDebt);
    hide ReserveAfter, UserAfter, Sound, Pool.Total;
  }

  lemma LentOutHeld(c: Strategy, p: Pool.State, n: nat, deposited: nat, borrowed: nat, t: nat)
    requires LentOut(c, p, n, deposited, borrowed, t)
    ensures p.reserve.availableLiquidity == deposited - borrowed
  {
  }

  /** A reserve that keeps all of its interest parts from the contract, whose borrow index then stands
      still. */
  lemma AllInterestKept(c: Strategy, market: nat, deposited: nat, borrowed: nat, t: nat)
    requires RateModel.ValidStrategy(c) && c.baseVariableBorrowRate >= ONE_YEAR && c.reserveFactor == PERCENTAGE_FACTOR
    requires 0 < borrowed <= deposited
    ensures
      var r := Lent(c, market, 1, deposited, borrowed, t).reserve;
      Sound(r) && r.lastUpdateTimestamp == t
      && exists now: nat :: now >= t
           && ContractMatch.ContractIndexes(r, now) != (LiquidityIndexAt(r, now), VariableBorrowIndexAt(r, now))
  {
    hide LentOut, Exits.UpToDate, Power1, Lent, ContractMatch.ContractIndexes, LiquidityIndexAt, VariableBorrowIndexAt;
    var p := Lent(c, market, 1, deposited, borrowed, t);
    Reached(c, market, 1, deposited, borrowed, t);
    LentOutReserve(c, p, 1, deposited, borrowed, t);
    OnePerSecond(p.reserve.variableBorrowRate);
    ContractMatch.IndexesMatchIff(p.reserve);
  }

  /** Nobody has a stable loan, so the user's is the reserve's; a deposit by the borrower books one. */
  lemma DepositInventsLoan(c: Strategy, market: nat, deposited: nat, borrowed: nat, t: nat, amount: nat)
    requires RateModel.ValidStrategy(c) && 0 < borrowed <= deposited
    ensures
      var p := Lent(c, market, 1, deposited, borrowed, t);
      var q := Pool.Next(c, p, Turn(Deposit(amount), t));
      && p.users[0].principalStableDebt == p.reserve.principalStableDebt == 0
      && q.reserve.principalStableDebt == 0 < q.users[0].principalStableDebt
      && !StableTwin.Twin(q.reserve, q.users[0])
  {
    hide Exits.UpToDate, Lent, Young;
    var p := Lent(c, market, 1, deposited, borrowed, t);
    Reached(c, market, 1, deposited, borrowed, t);
    LentOutReserve(c, p, 1, deposited, borrowed, t);
    Pool.EveryoneFits(p, 0, t);
    UserDebtsAt(p.reserve, p.users[0], t);
    hide Sound, VariableDebtBalance, VariableDebtAt, RayMul, RayDiv, LiquidityIndexAt, VariableBorrowIndexAt,
         StableDebtBalance, TotalStableDebtAt, RateModel.InterestRates, RateModel.UtilizationRate;
  }

  /** The pool takes a repayment of any amount and caps it at the debt; the expected records do not cap
      it, and then owe the borrower. */
  lemma RepaymentNotCapped(c: Strategy, market: nat, deposited: nat, borrowed: nat, t: nat, amount: nat)
    requires RateModel.ValidStrategy(c) && 0 < borrowed <= deposited && borrowed < amount != MAX_UINT_AMOUNT
    ensures
      var p := Lent(c, market, 1, deposited, borrowed, t);
      var turn := Turn(Repay(amount, Variable, true), t);
      && Pool.Seated(p, turn) && Timely(p.reserve, turn.step) && Demanded(p.reserve, p.users[0], turn.step)
      && Pool.Next(c, p, turn).reserve.scaledVariableDebt == borrowed - amount < 0
      && !Pool.Consistent(Pool.Next(c, p, turn))
  {
    hide Exits.UpToDate, Lent;
    var p := Lent(c, market, 1, deposited, borrowed, t);
    Reached(c, market, 1, deposited, borrowed, t);
    LentOutReserve(c, p, 1, deposited, borrowed, t);
    YoungIndexes(p.reserve, deposited - borrowed, borrowed, t, borrowed);
    ScaledAtOneRay(amount);
    hide Young, RayMul, RayDiv, VariableBorrowIndexAt, LiquidityIndexAt, RateModel.InterestRates, RateModel.UtilizationRate,
         StableDebtBalance;
  }
}
