/** What the stored aggregates say about the loans behind them: the average stable rate and the
    reserve-wide variable debt. */
module Ledgers {
  import opened RayMath
  import opened Accounting
  import opened Bounds

  /** Adding a loan: the average loses less than one unit per unit of debt, and stays between the
      two rates it averages. */
  lemma AddingLoanKeepsAverage(average: nat, total: nat, amount: nat, rate: nat)
    requires total + amount > 0
    ensures
      var q := AverageStableRate(average, total, amount, rate);
      && 0 <= average * total + rate * amount - q * (total + amount) < total + amount
      && Min(average, rate) <= q <= Max(average, rate)
  {
    var sum, n := average * total + rate * amount, total + amount;
    MulMono(0, average, total);
    MulMono(0, rate, amount);
    DivBounds(sum, n);
    var q := sum / n;
    assert n * q == q * n;
    MeanBetween(average, total, amount, rate, q, Min(average, rate), Max(average, rate));
  }

  lemma MeanBetween(average: nat, total: nat, amount: nat, rate: nat, q: int, lo: nat, hi: nat)
    requires lo <= average <= hi && lo <= rate <= hi && total + amount > 0
    requires 0 <= average * total + rate * amount - q * (total + amount) < total + amount
    ensures lo <= q <= hi
  {
    var n := total + amount;
    MulMono(lo, average, total);
    MulMono(lo, rate, amount);
    MulMono(average, hi, total);
    MulMono(rate, hi, amount);
    NotBelow(q, lo, n, average * total + rate * amount);
    NotAbove(q, hi, n, average * total + rate * amount);
  }

  lemma NotBelow(q: int, lo: int, n: int, sum: int)
    requires n > 0 && sum < q * n + n && lo * n <= sum
    ensures lo <= q
  {
    if q < lo { MulMono(q + 1, lo, n); }
  }

  lemma NotAbove(q: int, hi: int, n: int, sum: int)
    requires n > 0 && q * n <= sum <= hi * n
    ensures q <= hi
  {
  }

  /** Taking the same loan out again, with the clamp of a repayment, restores the average up to one
      unit plus one for every time the loan fits in the remaining debt. */
  lemma RemovingLoanRestoresAverage(average: nat, total: nat, amount: int, rate: nat)
    requires total > 0 && amount >= 0
    ensures
      var q := AverageStableRate(average, total, amount, rate);
      var back := Max(0, AverageStableRate(q, total + amount, -amount, rate));
      average - 1 - (amount + total - 1) / total <= back <= average
  {
    AddingLoanKeepsAverage(average, total, amount, rate);
    var q := AverageStableRate(average, total, amount, rate);
    var rest := q * (total + amount) + rate * (-amount);
    var lost := average * total - rest;
    assert rate * (-amount) == -(rate * amount);
    assert 0 <= lost < total + amount;
    var fits := (amount + total - 1) / total;
    DivBounds(amount + total - 1, total);
    assert total * fits >= amount by { assert amount + total - 1 < total * fits + total; }
    assert total + amount + (-amount) == total;
    TruncDivBounds(rest, total);
    RestoredBetween(average, total, rest, lost, fits, TruncDiv(rest, total));
  }

  lemma RestoredBetween(average: nat, total: nat, rest: int, lost: nat, fits: nat, back: int)
    requires total > 0 && rest == average * total - lost && lost < total + total * fits
    requires rest >= 0 ==> 0 <= total * back <= rest < total * back + total
    requires rest < 0 ==> back <= 0
    ensures average - 1 - fits <= Max(0, back) <= average
  {
    if rest >= 0 {
      assert total * back <= average * total;
      if average < back {
        MulMono(average + 1, back, total);
      }
      if back < average - 1 - fits {
        MulMono(back + 1, average - 1 - fits, total);
      }
    } else {
      if 0 < average - 1 - fits {
        MulMono(1, average - 1 - fits, total);
      }
    }
  }

  /** Taking part of the only loan out at its own rate leaves the average exactly where it was. */
  lemma RemovingAtAverageIsExact(average: nat, total: nat, amount: int)
    requires 0 <= amount < total
    ensures AverageStableRate(average, total, -amount, average) == average
  {
    var left := total - amount;
    assert average * total + average * (-amount) == left * average;
    MulMono(0, left, average);
    QuotientUnique(left * average, left, average);
  }

  // ---------- Sum of parts ----------

  function Sum(xs: seq<nat>): nat {
    if xs == [] then 0 else xs[0] + Sum(xs[1..])
  }

  /** The variable debts of users holding the given scaled balances, summed. */
  function SumOfDebts(scaled: seq<nat>, index: nat): int {
    if scaled == [] then 0 else RayMul(scaled[0], index) + SumOfDebts(scaled[1..], index)
  }

  /** Each user's rounding costs at most half a unit, so the users together owe what the reserve
      records up to half a unit per user plus the reserve's own rounding. */
  lemma SumOfParts(scaled: seq<nat>, index: nat)
    ensures -(|scaled| + 1) <= 2 * (SumOfDebts(scaled, index) - RayMul(Sum(scaled), index)) <= |scaled| + 1
  {
    PartsBounds(scaled, index);
    MulMono(0, Sum(scaled), index);
    RayMulRounds(Sum(scaled), index);
  }

  lemma {:induction false} PartsBounds(scaled: seq<nat>, index: nat)
    ensures 2 * (Sum(scaled) * index) - RAY * |scaled| <= 2 * RAY * SumOfDebts(scaled, index)
            <= 2 * (Sum(scaled) * index) + RAY * |scaled|
  {
    if scaled != [] {
      PartsBounds(scaled[1..], index);
      MulMono(0, scaled[0], index);
      RayMulRounds(scaled[0], index);
      OneMorePart(scaled[0], Sum(scaled[1..]), index, RayMul(scaled[0], index), SumOfDebts(scaled[1..], index),
                  |scaled| - 1);
      hide RayMul;
    }
  }

  lemma OneMorePart(head: nat, rest: nat, index: nat, debt: int, debts: int, n: nat)
    requires 2 * (head * index) - RAY < 2 * RAY * debt <= 2 * (head * index) + RAY
    requires 2 * (rest * index) - RAY * n <= 2 * RAY * debts <= 2 * (rest * index) + RAY * n
    ensures 2 * ((head + rest) * index) - RAY * (n + 1) <= 2 * RAY * (debt + debts)
            <= 2 * ((head + rest) * index) + RAY * (n + 1)
  {
  }
}
