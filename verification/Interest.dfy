/** Linear and compounded interest factors, in ray. */
module Interest {
  import opened RayMath

  function LinearInterest(rate: int, now: int, last: int): int {
    TruncDiv(rate * (now - last), ONE_YEAR) + RAY
  }

  /** (1 + rate / year)^n cut after the third binomial term. */
  function CompoundedInterest(rate: int, now: int, last: int): int {
    var n := now - last;
    if n == 0 then RAY else
      var expMinusOne := n - 1;
      var expMinusTwo := if n > 2 then n - 2 else 0;
      var ratePerSecond := TruncDiv(rate, ONE_YEAR);
      var basePowerTwo := RayMul(ratePerSecond, ratePerSecond);
      var basePowerThree := RayMul(basePowerTwo, ratePerSecond);
      var secondTerm := TruncDiv(Times(Times(n, expMinusOne), basePowerTwo), 2);
      var thirdTerm := TruncDiv(Times(Times(Times(n, expMinusOne), expMinusTwo), basePowerThree), 6);
      RAY + Times(ratePerSecond, n) + secondTerm + thirdTerm
  }

  // ---------- Binomial coefficients ----------

  function Choose2(n: nat): nat {
    if n == 0 then 0 else Choose2(n - 1) + (n - 1)
  }

  function Choose3(n: nat): nat {
    if n == 0 then 0 else Choose3(n - 1) + Choose2(n - 1)
  }

  lemma {:induction false} ChooseClosedForms(n: nat)
    ensures n * (n - 1) == 2 * Choose2(n)
    ensures n * (n - 1) * (n - 2) == 6 * Choose3(n)
  {
    if n > 0 {
      ChooseClosedForms(n - 1);
      NextProducts(n);
    }
  }

  lemma NextProducts(n: int)
    ensures n * (n - 1) == (n - 1) * (n - 2) + 2 * (n - 1)
    ensures n * (n - 1) * (n - 2) == (n - 1) * (n - 2) * (n - 3) + 3 * ((n - 1) * (n - 2))
  {
  }

  lemma {:induction false} ChooseMono(m: nat, n: nat)
    requires m <= n
    ensures Choose2(m) <= Choose2(n) && Choose3(m) <= Choose3(n)
  {
    if m < n { ChooseMono(m, n - 1); }
  }

  /** Vandermonde's identity, for the second and third coefficients. */
  lemma {:induction false} ChooseOfSum(m: nat, n: nat)
    ensures Choose2(m + n) == Choose2(m) + Choose2(n) + m * n
    ensures Choose3(m + n) == Choose3(m) + Choose3(n) + m * Choose2(n) + n * Choose2(m)
  {
    if n > 0 {
      ChooseOfSum(m, n - 1);
      assert m + n - 1 == m + (n - 1);
      SumStep(m, n, Choose2(m), Choose3(m), Choose2(n - 1), Choose3(n - 1), Choose2(m + n - 1), Choose3(m + n - 1));
    }
  }

  lemma SumStep(m: int, n: int, m2: int, m3: int, n2: int, n3: int, s2: int, s3: int)
    requires s2 == m2 + n2 + m * (n - 1)
    requires s3 == m3 + n3 + m * n2 + (n - 1) * m2
    ensures s2 + (m + n - 1) == m2 + (n2 + (n - 1)) + m * n
    ensures s3 + s2 == m3 + (n3 + n2) + m * (n2 + (n - 1)) + n * m2
  {
  }

  // ---------- The factor as a polynomial ----------

  /** The powers of the per-second rate, rounded as the factor rounds them. */
  function Power1(rate: int): int { TruncDiv(rate, ONE_YEAR) }
  function Power2(rate: int): int { RayMul(Power1(rate), Power1(rate)) }
  function Power3(rate: int): int { RayMul(Power2(rate), Power1(rate)) }

  /** The reference form: a binomial sum with no division by 2 or 6. */
  function BinomialSum(rate: int, n: nat): int {
    RAY + n * Power1(rate) + Choose2(n) * Power2(rate) + Choose3(n) * Power3(rate)
  }

  lemma PowerBounds(rate: nat)
    ensures 0 <= Power1(rate) && 0 <= Power2(rate) && 0 <= Power3(rate)
    ensures 2 * RAY * Power2(rate) <= 2 * (Power1(rate) * Power1(rate)) + RAY
    ensures 2 * RAY * Power3(rate) <= 2 * (Power2(rate) * Power1(rate)) + RAY
  {
    var p := Power1(rate);
    DivBounds(rate, ONE_YEAR);
    MulMono(0, p, p);
    RayMulRounds(p, p);
    MulMono(0, Power2(rate), p);
    RayMulRounds(Power2(rate), p);
  }

  lemma PowerMono(rate: nat, faster: nat)
    requires rate <= faster
    ensures Power1(rate) <= Power1(faster) && Power2(rate) <= Power2(faster) && Power3(rate) <= Power3(faster)
  {
    PowerBounds(rate);
    DivMono(rate, faster, ONE_YEAR);
    RayMulMono(Power1(rate), Power1(faster), Power1(rate), Power1(faster));
    RayMulMono(Power2(rate), Power2(faster), Power1(rate), Power1(faster));
  }

  /** The divisions by 2 and by 6 are always exact, so the factor is the binomial sum. */
  lemma CompoundedIsBinomial(rate: nat, now: int, last: int)
    requires last <= now
    ensures CompoundedInterest(rate, now, last) == BinomialSum(rate, now - last)
  {
    var n: nat := now - last;
    PowerBounds(rate);
    var b2, b3 := Power2(rate), Power3(rate);
    SecondTermExact(n, b2);
    ThirdTermExact(n, if n > 2 then n - 2 else 0, b3);
  }

  lemma SecondTermExact(n: nat, b: nat)
    ensures TruncDiv(n * (n - 1) * b, 2) == Choose2(n) * b
  {
    ChooseClosedForms(n);
    ScaledExactly(2, Choose2(n), n * (n - 1), b);
  }

  lemma ThirdTermExact(n: nat, expMinusTwo: nat, b: nat)
    requires expMinusTwo == if n > 2 then n - 2 else 0
    ensures TruncDiv(n * (n - 1) * expMinusTwo * b, 6) == Choose3(n) * b
  {
    ChooseClosedForms(n);
    ScaledExactly(6, Choose3(n), n * (n - 1) * expMinusTwo, b);
  }

  lemma ScaledExactly(k: int, part: nat, whole: int, b: nat)
    requires k == 2 || k == 6
    requires whole == k * part
    ensures whole * b == k * (part * b)
    ensures TruncDiv(whole * b, k) == part * b == whole * b / k
  {
  }

  // ---------- Bounds ----------

  /** Interest is never negative, and at least simple interest at the per-second rate. */
  lemma CompoundedAtLeastSimple(rate: nat, now: int, last: int)
    requires last <= now
    ensures CompoundedInterest(rate, now, last) >= RAY + Power1(rate) * (now - last) >= RAY
  {
    var n: nat := now - last;
    CompoundedIsBinomial(rate, now, last);
    PowerBounds(rate);
    MulMono(0, Choose2(n), Power2(rate));
    MulMono(0, Choose3(n), Power3(rate));
    MulMono(0, n, Power1(rate));
  }

  lemma CompoundedMono(rate: nat, faster: nat, now: int, later: int, last: int)
    requires rate <= faster && last <= now <= later
    ensures CompoundedInterest(rate, now, last) <= CompoundedInterest(faster, later, last)
  {
    var n: nat, m: nat := now - last, later - last;
    CompoundedIsBinomial(rate, now, last);
    CompoundedIsBinomial(faster, later, last);
    PowerBounds(rate);
    PowerMono(rate, faster);
    ChooseMono(n, m);
    ProductMono(n, m, Power1(rate), Power1(faster));
    ProductMono(Choose2(n), Choose2(m), Power2(rate), Power2(faster));
    ProductMono(Choose3(n), Choose3(m), Power3(rate), Power3(faster));
  }

  /** However late it is, each further second adds at least the per-second rate. */
  lemma BinomialGains(rate: nat, n: nat, m: nat)
    requires n <= m
    ensures BinomialSum(rate, m) >= BinomialSum(rate, n) + Power1(rate) * (m - n)
  {
    PowerBounds(rate);
    ChooseMono(n, m);
    ProductMono(Choose2(n), Choose2(m), Power2(rate), Power2(rate));
    ProductMono(Choose3(n), Choose3(m), Power3(rate), Power3(rate));
    assert m * Power1(rate) == n * Power1(rate) + Power1(rate) * (m - n);
  }

  lemma ProductMono(a: nat, b: nat, x: nat, y: nat)
    requires a <= b && x <= y
    ensures a * x <= b * y
  {
  }

  function Pow(x: real, n: nat): real {
    if n == 0 then 1.0 else Scale(x, Pow(x, n - 1))
  }

  /** Real multiplication under a name, so that proofs can keep products closed. */
  function Scale(k: real, a: real): real {
    k * a
  }

  /** The first four terms of (1 + x)^n, for the coefficients n, C(n,2) and C(n,3). */
  function Taylor(x: real, n: real, c2: real, c3: real): real {
    1.0 + Scale(n, x) + Scale(c2, Scale(x, x)) + Scale(c3, Scale(x, Scale(x, x)))
  }

  lemma ScaleMono(k: real, a: real, b: real)
    requires a <= b && k >= 0.0
    ensures Scale(k, a) <= Scale(k, b)
  {
  }

  lemma ScaleSum(k: real, a: real, b: real, c: real)
    ensures Scale(k, 1.0 + a + b + c) == k + Scale(k, a) + Scale(k, b) + Scale(k, c)
  {
  }

  lemma ScaleSplit(j: real, k: real, a: real)
    ensures Scale(j + k, a) == Scale(j, a) + Scale(k, a)
    ensures Scale(1.0, a) == a && Scale(k, 0.0) == 0.0
  {
  }

  lemma ScaleSwap(j: real, k: real, a: real)
    ensures Scale(j, Scale(k, a)) == Scale(k, Scale(j, a))
  {
  }

  lemma NextTaylor(x: real, n: real, c2: real, c3: real)
    requires c3 >= 0.0 && x >= 0.0
    ensures Taylor(x, n + 1.0, c2 + n, c3 + c2) <= Scale(1.0 + x, Taylor(x, n, c2, c3))
  {
    hide Scale;
    var x2 := Scale(x, x);
    var x3 := Scale(x, x2);
    ScaleSplit(1.0, x, Taylor(x, n, c2, c3));
    ScaleSum(x, Scale(n, x), Scale(c2, x2), Scale(c3, x3));
    ScaleSwap(x, n, x);
    ScaleSwap(x, c2, x2);
    ScaleSwap(x, c3, x3);
    ScaleSplit(n, 1.0, x);
    ScaleSplit(1.0, n, x);
    ScaleSplit(c2, n, x2);
    ScaleSplit(c3, c2, x3);
    ScaleSplit(x, x, 0.0);
    ScaleSplit(c3, c3, 0.0);
    ScaleMono(x, 0.0, x);
    ScaleMono(x, 0.0, x2);
    ScaleMono(x, 0.0, x3);
    ScaleMono(c3, 0.0, Scale(x, x3));
  }

  /** The first four binomial terms never exceed the whole power. */
  lemma {:induction false} BinomialBelowPower(x: real, n: nat)
    requires x >= 0.0
    ensures Taylor(x, n as real, Choose2(n) as real, Choose3(n) as real) <= Pow(1.0 + x, n)
  {
    if n > 0 {
      hide Taylor, Scale;
      var m := n - 1;
      BinomialBelowPower(x, m);
      NextTaylor(x, m as real, Choose2(m) as real, Choose3(m) as real);
      ScaleMono(1.0 + x, Taylor(x, m as real, Choose2(m) as real, Choose3(m) as real), Pow(1.0 + x, m));
    }
  }

  /** The factor exceeds the true compound factor only by accumulated half-unit roundings. */
  lemma CompoundedBelowExact(rate: nat, now: int, last: int)
    requires last <= now
    ensures
      var n: nat := now - last;
      var x := Power1(rate) as real / RAY as real;
      CompoundedInterest(rate, now, last) as real
      <= Scale(RAY as real, Pow(1.0 + x, n)) + Scale(Choose2(n) as real, 0.5) + Scale(Choose3(n) as real, x / 2.0 + 0.5)
  {
    hide Taylor, Scale, RayMul;
    var n: nat := now - last;
    var x := Power1(rate) as real / RAY as real;
    CompoundedIsBinomial(rate, now, last);
    PowerBounds(rate);
    BinomialBelowPower(x, n);
    ScaleMono(RAY as real, Taylor(x, n as real, Choose2(n) as real, Choose3(n) as real), Pow(1.0 + x, n));
    SumBelowTaylor(n, Choose2(n), Choose3(n), Power1(rate), Power2(rate), Power3(rate), x);
  }

  lemma SumBelowTaylor(n: nat, c2: nat, c3: nat, p: nat, b2: nat, b3: nat, x: real)
    requires x == p as real / RAY as real
    requires 2 * RAY * b2 <= 2 * (p * p) + RAY
    requires 2 * RAY * b3 <= 2 * (b2 * p) + RAY
    ensures (RAY + n * p + c2 * b2 + c3 * b3) as real
            <= Scale(RAY as real, Taylor(x, n as real, c2 as real, c3 as real))
               + Scale(c2 as real, 0.5) + Scale(c3 as real, x / 2.0 + 0.5)
  {
    RealRounding(p, p, b2, x);
    RealRounding(b2, p, b3, x);
    RealSum(n, c2, c3, p, b2, b3);
    TermsBelowTaylor(RAY as real, x, n as real, p as real, b2 as real, b3 as real, c2 as real, c3 as real);
    hide *;
  }

  lemma TermsBelowTaylor(ray: real, x: real, n: real, p: real, b2: real, b3: real, c2: real, c3: real)
    requires p == Scale(ray, x) && x >= 0.0 && c2 >= 0.0 && c3 >= 0.0
    requires b2 <= Scale(p, x) + 0.5 && b3 <= Scale(b2, x) + 0.5
    ensures ray + Scale(n, p) + Scale(c2, b2) + Scale(c3, b3)
            <= Scale(ray, Taylor(x, n, c2, c3)) + Scale(c2, 0.5) + Scale(c3, x / 2.0 + 0.5)
  {
    hide Scale;
    var x2 := Scale(x, x);
    var x3 := Scale(x, x2);
    PowersBelow(ray, x, p, b2, b3);
    ScaleMono(c2, b2, Scale(ray, x2) + 0.5);
    ScaleMono(c3, b3, Scale(ray, x3) + (x / 2.0 + 0.5));
    ScaleAdd(c2, Scale(ray, x2), 0.5);
    ScaleAdd(c3, Scale(ray, x3), x / 2.0 + 0.5);
    ScaleSwap(n, ray, x);
    ScaleSwap(c2, ray, x2);
    ScaleSwap(c3, ray, x3);
    ScaleSum(ray, Scale(n, x), Scale(c2, x2), Scale(c3, x3));
  }

  lemma ScaleAdd(k: real, a: real, b: real)
    ensures Scale(k, a + b) == Scale(k, a) + Scale(k, b)
  {
  }

  lemma ScaleAssociates(j: real, k: real, a: real)
    ensures Scale(Scale(j, k), a) == Scale(j, Scale(k, a)) && Scale(j, k) == Scale(k, j)
  {
  }

  lemma PowersBelow(ray: real, x: real, p: real, b2: real, b3: real)
    requires p == Scale(ray, x) && x >= 0.0
    requires b2 <= Scale(p, x) + 0.5 && b3 <= Scale(b2, x) + 0.5
    ensures b2 <= Scale(ray, Scale(x, x)) + 0.5
    ensures b3 <= Scale(ray, Scale(x, Scale(x, x))) + (x / 2.0 + 0.5)
  {
    ScaleAssociates(ray, x, x);
    ScaleAssociates(b2, x, x);
    ScaleMono(x, b2, Scale(ray, Scale(x, x)) + 0.5);
    ScaleAdd(x, Scale(ray, Scale(x, x)), 0.5);
    ScaleSwap(x, ray, Scale(x, x));
    assert Scale(x, 0.5) == x / 2.0;
    hide *;
  }

  lemma RealRounding(a: int, p: int, b: int, x: real)
    requires x == p as real / RAY as real
    requires 2 * RAY * b <= 2 * (a * p) + RAY
    ensures p as real == Scale(RAY as real, x)
    ensures b as real <= Scale(a as real, x) + 0.5
  {
  }

  lemma RealSum(n: int, c2: int, c3: int, p: int, b2: int, b3: int)
    ensures (RAY + n * p + c2 * b2 + c3 * b3) as real
            == RAY as real + Scale(n as real, p as real) + Scale(c2 as real, b2 as real) + Scale(c3 as real, b3 as real)
  {
  }

  // ---------- Splitting an accrual interval ----------

  /** Accruing in two steps at an unchanged rate never loses interest beyond rounding. */
  lemma SplitCompounded(rate: nat, last: int, middle: int, now: int)
    requires last <= middle <= now
    ensures
      var m: nat, n: nat := middle - last, now - middle;
      2 * (CompoundedInterest(rate, middle, last) * CompoundedInterest(rate, now, middle))
      + RAY * (m * n + m * Choose2(n) + n * Choose2(m))
      >= 2 * RAY * CompoundedInterest(rate, now, last)
  {
    hide CompoundedInterest, Power1, Power2, Power3;
    CompoundedIsBinomial(rate, middle, last);
    CompoundedIsBinomial(rate, now, middle);
    CompoundedIsBinomial(rate, now, last);
    var m: nat, n: nat := middle - last, now - middle;
    PowerBounds(rate);
    ChooseOfSum(m, n);
    var p, b2, b3 := Power1(rate), Power2(rate), Power3(rate);
    var f, g, h := BinomialSum(rate, m), BinomialSum(rate, n), BinomialSum(rate, m + n);
    assert f == RAY + m * p + Choose2(m) * b2 + Choose3(m) * b3;
    assert g == RAY + n * p + Choose2(n) * b2 + Choose3(n) * b3;
    assert h == RAY + (m + n) * p + Choose2(m + n) * b2 + Choose3(m + n) * b3;
    hide *;
    SplitParts(m, n, Choose2(m), Choose2(n), Choose2(m + n), Choose3(m), Choose3(n), Choose3(m + n), p, b2, b3, f, g, h);
  }

  /** The same with the three sums under names. */
  lemma SplitParts(m: nat, n: nat, m2: nat, n2: nat, s2: nat, m3: nat, n3: nat, s3: nat, p: nat, b2: nat, b3: nat,
                   f: int, g: int, h: int)
    requires 2 * RAY * b2 <= 2 * (p * p) + RAY
    requires 2 * RAY * b3 <= 2 * (b2 * p) + RAY
    requires s2 == m2 + n2 + m * n && s3 == m3 + n3 + m * n2 + n * m2
    requires f == RAY + m * p + m2 * b2 + m3 * b3 && g == RAY + n * p + n2 * b2 + n3 * b3
    requires h == RAY + (m + n) * p + s2 * b2 + s3 * b3
    ensures 2 * (f * g) + RAY * (m * n + m * n2 + n * m2) >= 2 * RAY * h
  {
    SplitSum(m, n, m2, n2, m3, n3, p, b2, b3);
  }

  lemma SplitSum(m: nat, n: nat, m2: nat, n2: nat, m3: nat, n3: nat, p: nat, b2: nat, b3: nat)
    requires 2 * RAY * b2 <= 2 * (p * p) + RAY
    requires 2 * RAY * b3 <= 2 * (b2 * p) + RAY
    ensures
      2 * ((RAY + m * p + m2 * b2 + m3 * b3) * (RAY + n * p + n2 * b2 + n3 * b3)) + RAY * (m * n + m * n2 + n * m2)
      >= 2 * RAY * (RAY + (m + n) * p + (m2 + n2 + m * n) * b2 + (m3 + n3 + m * n2 + n * m2) * b3)
  {
    ProductOfSums(m, n, m2, n2, m3, n3, p, b2, b3);
    var k := m * n2 + n * m2;
    RoundingCost(m * n, p * p, b2);
    RoundingCost(k, b2 * p, b3);
    RegroupSum(m, n, m2, n2, m3, n3, m * n, k, p, b2, b3);
    SplitTotals(RAY + m * p + m2 * b2 + m3 * b3, n * p + n2 * b2 + n3 * b3,
                m * n * (p * p), k * (b2 * p), m * n * b2, k * b3, m * n, k,
                (RAY + m * p + m2 * b2 + m3 * b3) * (RAY + n * p + n2 * b2 + n3 * b3));
  }

  lemma SplitTotals(f: int, tail: int, e2: int, e3: int, r2: int, r3: int, k2: int, k3: int, product: int)
    requires product >= RAY * f + RAY * tail + e2 + e3
    requires 2 * RAY * r2 <= 2 * e2 + RAY * k2
    requires 2 * RAY * r3 <= 2 * e3 + RAY * k3
    ensures 2 * product + RAY * (k2 + k3) >= 2 * RAY * (f + tail + r2 + r3)
  {
  }

  /** What rounding a power to a whole unit can cost, k times over. */
  lemma RoundingCost(k: nat, exact: int, rounded: int)
    requires 2 * RAY * rounded <= 2 * exact + RAY
    ensures 2 * RAY * (k * rounded) <= 2 * (k * exact) + RAY * k
  {
  }

  lemma RegroupSum(m: int, n: int, m2: int, n2: int, m3: int, n3: int, mn: int, k: int, p: int, b2: int, b3: int)
    ensures RAY + (m + n) * p + (m2 + n2 + mn) * b2 + (m3 + n3 + k) * b3
            == (RAY + m * p + m2 * b2 + m3 * b3) + (n * p + n2 * b2 + n3 * b3) + mn * b2 + k * b3
  {
  }

  lemma ProductOfSums(m: nat, n: nat, m2: nat, n2: nat, m3: nat, n3: nat, p: nat, b2: nat, b3: nat)
    ensures (RAY + m * p + m2 * b2 + m3 * b3) * (RAY + n * p + n2 * b2 + n3 * b3)
            >= RAY * (RAY + m * p + m2 * b2 + m3 * b3) + RAY * (n * p + n2 * b2 + n3 * b3)
               + m * n * (p * p) + (m * n2 + n * m2) * (b2 * p)
  {
    CrossProducts(m, n, m2, n2, p, b2);
    WholeProduct(m * p, m2 * b2, m3 * b3, n * p, n2 * b2, n3 * b3);
  }

  lemma CrossProducts(m: int, n: int, m2: int, n2: int, p: int, b2: int)
    ensures (m * p) * (n * p) + (m * p) * (n2 * b2) + (m2 * b2) * (n * p)
            == m * n * (p * p) + (m * n2 + n * m2) * (b2 * p)
  {
  }

  lemma WholeProduct(a: nat, b: nat, c: nat, d: nat, e: nat, f: nat)
    ensures (RAY + a + b + c) * (RAY + d + e + f)
            >= RAY * (RAY + a + b + c) + RAY * (d + e + f) + (a * d + a * e + b * d)
  {
  }

  /** The same for linear interest: one unit of rounding per split. */
  lemma SplitLinear(rate: nat, last: int, middle: int, now: int)
    requires last <= middle <= now
    ensures LinearInterest(rate, middle, last) * LinearInterest(rate, now, middle) + RAY
            >= RAY * LinearInterest(rate, now, last)
  {
    var a, b := rate * (middle - last), rate * (now - middle);
    assert rate * (now - last) == a + b;
    MulMono(0, rate, middle - last);
    MulMono(0, rate, now - middle);
    DivBounds(a, ONE_YEAR);
    DivBounds(b, ONE_YEAR);
    DivBounds(a + b, ONE_YEAR);
    SplitFactors(a / ONE_YEAR, b / ONE_YEAR, (a + b) / ONE_YEAR);
  }

  lemma SplitFactors(x: nat, y: nat, z: int)
    requires z <= x + y + 1
    ensures (x + RAY) * (y + RAY) + RAY >= RAY * (z + RAY)
  {
  }

  lemma LinearBounds(rate: nat, now: int, last: int)
    requires last <= now
    ensures LinearInterest(rate, now, last) >= RAY
    ensures rate == 0 || now == last ==> LinearInterest(rate, now, last) == RAY
  {
  }

  /** What the two factors are at the edges where the callers take short cuts. */
  lemma CompoundedUnit(rate: nat, now: int, last: int)
    requires last <= now
    ensures Power1(rate) == 0 || now == last ==> CompoundedInterest(rate, now, last) == RAY
    ensures CompoundedInterest(rate, now, last) == RAY ==> Power1(rate) == 0 || now == last
  {
    CompoundedIsBinomial(rate, now, last);
    if Power1(rate) == 0 {
      RayMulZero(0);
    } else if now > last {
      CompoundedAtLeastSimple(rate, now, last);
      PowerBounds(rate);
      MulMono(1, now - last, Power1(rate));
    }
  }
}
