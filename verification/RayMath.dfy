/** Fixed-point arithmetic of the lending pool: ray (10^27), wad-to-ray and percentage
    operations, each rounding half up by adding half a unit before a truncating division. */
module RayMath {

  const RAY: int := 1_000_000_000_000_000_000_000_000_000
  const HALF_RAY: int := 500_000_000_000_000_000_000_000_000
  const WAD_RAY_RATIO: int := 1_000_000_000
  const PERCENTAGE_FACTOR: int := 10_000
  const HALF_PERCENTAGE: int := 5_000
  const ONE_YEAR: int := 31_536_000
  const MAX_UINT_AMOUNT: int :=
    115_792_089_237_316_195_423_570_985_008_687_907_853_269_984_665_640_564_039_457_584_007_913_129_639_935

  /** Integer division truncating toward zero, as bignumber.js divides with zero decimal places
      and rounding down. A zero divisor (Infinity or NaN there) is given the value 0. */
  function TruncDiv(a: int, b: int): int {
    if b == 0 then 0
    else if b < 0 then (if a <= 0 then (-a) / (-b) else -(a / (-b)))
    else (if a >= 0 then a / b else -((-a) / b))
  }

  /** A product under a name of its own, so that terms of several factors are built one at a time. */
  function Times(x: int, y: int): int {
    x * y
  }

  function RayMul(x: int, y: int): int {
    TruncDiv(HALF_RAY + Times(x, y), RAY)
  }

  function RayDiv(x: int, a: int): int {
    TruncDiv(TruncDiv(a, 2) + x * RAY, a)
  }

  function PercentMul(x: int, y: int): int {
    TruncDiv(HALF_PERCENTAGE + x * y, PERCENTAGE_FACTOR)
  }

  function PercentDiv(x: int, a: int): int {
    TruncDiv(TruncDiv(a, 2) + x * PERCENTAGE_FACTOR, a)
  }

  function WadToRay(x: int): int {
    x * WAD_RAY_RATIO
  }

  function RayToWad(x: int): int {
    TruncDiv(TruncDiv(WAD_RAY_RATIO, 2) + x, WAD_RAY_RATIO)
  }

  // ---------- Integer division ----------

  lemma DivBounds(a: int, b: int)
    requires a >= 0 && b > 0
    ensures 0 <= b * (a / b) <= a < b * (a / b) + b
    ensures a / b >= 0
  {
  }

  /** The quotient is pinned by the interval it must lie in. */
  lemma QuotientUnique(a: int, b: int, q: int)
    requires a >= 0 && b > 0
    requires b * q <= a < b * q + b
    ensures a / b == q
  {
    DivBounds(a, b);
    var d := a / b;
    if d < q {
      MulMono(d + 1, q, b);
    } else if q < d {
      MulMono(q + 1, d, b);
    }
  }

  lemma MulMono(x: int, y: int, k: int)
    requires x <= y && k >= 0
    ensures x * k <= y * k && k * x <= k * y
  {
  }

  lemma DivMono(a: int, c: int, b: int)
    requires 0 <= a <= c && b > 0
    ensures a / b <= c / b
  {
    DivBounds(a, b);
    DivBounds(c, b);
    if c / b < a / b {
      MulMono(c / b + 1, a / b, b);
    }
  }

  // ---------- Rounding ----------

  /** Truncating division by a positive number, on either side of zero. */
  lemma TruncDivBounds(a: int, b: int)
    requires b > 0
    ensures a >= 0 ==> 0 <= b * TruncDiv(a, b) <= a < b * TruncDiv(a, b) + b
    ensures a < 0 ==> b * TruncDiv(a, b) - b < a <= b * TruncDiv(a, b) <= 0
    ensures a >= 0 ==> TruncDiv(a, b) >= 0
    ensures a < 0 ==> TruncDiv(a, b) <= 0
  {
    if a >= 0 {
      DivBounds(a, b);
    } else {
      DivBounds(-a, b);
      assert b * (-((-a) / b)) == -(b * ((-a) / b));
    }
  }

  /** Ray multiplication is within half a unit of the exact product, ties rounded up. */
  lemma RayMulRounds(x: int, y: int)
    requires x * y >= 0
    ensures 2 * (x * y) - RAY < 2 * RAY * RayMul(x, y) <= 2 * (x * y) + RAY
    ensures RayMul(x, y) >= 0
  {
  }

  /** Ray division is within half a unit of the exact quotient. */
  lemma RayDivRounds(x: int, a: int)
    requires x >= 0 && a > 0
    ensures 2 * (x * RAY) - a < 2 * (a * RayDiv(x, a)) <= 2 * (x * RAY) + a
    ensures RayDiv(x, a) >= 0
  {
    TruncDivBounds(a / 2 + x * RAY, a);
  }

  lemma PercentMulRounds(x: int, y: int)
    requires x * y >= 0
    ensures 2 * (x * y) - PERCENTAGE_FACTOR < 2 * PERCENTAGE_FACTOR * PercentMul(x, y)
            <= 2 * (x * y) + PERCENTAGE_FACTOR
    ensures PercentMul(x, y) >= 0
  {
  }

  lemma RayMulCommutes(x: int, y: int)
    ensures RayMul(x, y) == RayMul(y, x)
  {
  }

  lemma RayMulZero(x: int)
    ensures RayMul(0, x) == 0 && RayMul(x, 0) == 0
  {
  }

  lemma RayMulUnit(x: int)
    requires x >= 0
    ensures RayMul(x, RAY) == x && RayMul(RAY, x) == x
  {
  }

  lemma RayDivZero(a: int)
    requires a > 0
    ensures RayDiv(0, a) == 0
  {
  }

  lemma RayDivSelf(a: int)
    requires a > 0
    ensures RayDiv(a, a) == RAY
  {
    QuotientUnique(a / 2 + a * RAY, a, RAY);
  }

  lemma RayMulMono(x: int, y: int, i: int, j: int)
    requires 0 <= x <= y && 0 <= i <= j
    ensures RayMul(x, i) <= RayMul(y, j)
  {
    MulMono(x, y, i);
    MulMono(i, j, y);
    assert 0 <= x * i by { MulMono(0, x, i); }
    DivMono(HALF_RAY + x * i, HALF_RAY + y * j, RAY);
  }

  lemma RayDivMono(x: int, y: int, a: int)
    requires 0 <= x <= y && a > 0
    ensures RayDiv(x, a) <= RayDiv(y, a)
  {
    DivMono(a / 2 + x * RAY, a / 2 + y * RAY, a);
  }

  /** An index of at least one ray never shrinks what it scales. */
  lemma RayMulGrows(x: int, i: int)
    requires x >= 0 && i >= RAY
    ensures RayMul(x, i) >= x && RayMul(i, x) >= x
  {
  }

  // ---------- Round trips ----------

  /** Full exits are exact: scaling up by an index of at least one ray and back loses nothing. */
  lemma RayDivOfRayMul(s: int, i: int)
    requires s >= 0 && i >= RAY
    ensures RayDiv(RayMul(s, i), i) == s
  {
    if i == RAY {
      RayMulUnit(s);
      QuotientUnique(RAY / 2 + s * RAY, RAY, s);
    } else {
      assert s * i >= 0 by { MulMono(0, s, i); }
      RayMulRounds(s, i);
      var m := RayMul(s, i);
      assert i * s == s * i;
      QuotientUnique(i / 2 + m * RAY, i, s);
    }
  }

  /** The converse trip is off by at most half an index plus half a ray, over one ray. */
  lemma RayMulOfRayDiv(a: int, i: int)
    requires a >= 0 && i > 0
    ensures -(i + RAY) <= 2 * RAY * (RayMul(RayDiv(a, i), i) - a) <= i + RAY
  {
    RayDivRounds(a, i);
    var d := RayDiv(a, i);
    assert d * i >= 0 by { MulMono(0, d, i); }
    RayMulRounds(d, i);
    assert i * d == d * i;
  }

  /** Narrowing to wad precision rounds half up as well. */
  lemma RayToWadRounds(x: int)
    requires x >= 0
    ensures 2 * x - WAD_RAY_RATIO < 2 * WAD_RAY_RATIO * RayToWad(x) <= 2 * x + WAD_RAY_RATIO
  {
  }

  /** Widening to ray precision is undone exactly. */
  lemma RayToWadOfWadToRay(x: int)
    requires x >= 0
    ensures RayToWad(WadToRay(x)) == x
  {
  }

  /** Percentages undo each other from the wide side, for factors of at least 100%. */
  lemma PercentDivOfPercentMul(s: int, p: int)
    requires s >= 0 && p >= PERCENTAGE_FACTOR
    ensures PercentDiv(PercentMul(s, p), p) == s
  {
    assert s * p >= 0 by { MulMono(0, s, p); }
    PercentMulRounds(s, p);
    var m := PercentMul(s, p);
    assert p * s == s * p;
    if p == PERCENTAGE_FACTOR {
      QuotientUnique(HALF_PERCENTAGE + s * p, PERCENTAGE_FACTOR, s);
    }
    QuotientUnique(p / 2 + m * PERCENTAGE_FACTOR, p, s);
  }
}
