/** Paired token amounts of a concentrated position, apps/web/lib/liquidityAmounts.ts. */
module LiquidityAmounts {
  import opened Arith
  import opened Results
  import TickMath

  function MulDiv(a: int, b: int, denominator: int): int
    requires denominator > 0
  {
    BigDiv(a * b, denominator)
  }

  function GetLiquidityForAmount0(sqrtA: nat, sqrtB: nat, amount0: int): int
    requires sqrtA != sqrtB
  {
    var (lo, hi) := if sqrtA > sqrtB then (sqrtB, sqrtA) else (sqrtA, sqrtB);
    var intermediate := MulDiv(lo, hi, TickMath.Q96);
    MulDiv(amount0, intermediate, hi - lo)
  }

  function GetLiquidityForAmount1(sqrtA: nat, sqrtB: nat, amount1: int): int
    requires sqrtA != sqrtB
  {
    var (lo, hi) := if sqrtA > sqrtB then (sqrtB, sqrtA) else (sqrtA, sqrtB);
    MulDiv(amount1, TickMath.Q96, hi - lo)
  }

  function GetAmount0ForLiquidity(sqrtA: nat, sqrtB: nat, liquidity: int): int
    requires sqrtA > 0 && sqrtB > 0
  {
    var (lo, hi) := if sqrtA > sqrtB then (sqrtB, sqrtA) else (sqrtA, sqrtB);
    BigDiv(MulDiv(liquidity * TickMath.Q96, hi - lo, hi), lo)
  }

  function GetAmount1ForLiquidity(sqrtA: nat, sqrtB: nat, liquidity: int): int {
    var (lo, hi) := if sqrtA > sqrtB then (sqrtB, sqrtA) else (sqrtA, sqrtB);
    MulDiv(liquidity, hi - lo, TickMath.Q96)
  }

  /** The token1 amount paired with `amount0`; no division here can be by zero. */
  function GetAmount1FromAmount0(sqrtP: nat, sqrtA: nat, sqrtB: nat, amount0: int): int {
    var (a, b) := if sqrtA > sqrtB then (sqrtB, sqrtA) else (sqrtA, sqrtB);
    if sqrtP <= a then 0
    else if sqrtP >= b then 0
    else GetAmount1ForLiquidity(a, sqrtP, GetLiquidityForAmount0(sqrtP, b, amount0))
  }

  function GetAmount0FromAmount1(sqrtP: nat, sqrtA: nat, sqrtB: nat, amount1: int): int {
    var (a, b) := if sqrtA > sqrtB then (sqrtB, sqrtA) else (sqrtA, sqrtB);
    if sqrtP <= a then 0
    else if sqrtP >= b then 0
    else GetAmount0ForLiquidity(sqrtP, b, GetLiquidityForAmount1(a, sqrtP, amount1))
  }

  /** Outside the open range between the bounds there is nothing to pair. */
  lemma NothingOutOfRange(sqrtP: nat, sqrtA: nat, sqrtB: nat, amount: int)
    requires !(sqrtA < sqrtP < sqrtB) && !(sqrtB < sqrtP < sqrtA)
    ensures GetAmount1FromAmount0(sqrtP, sqrtA, sqrtB, amount) == 0
    ensures GetAmount0FromAmount1(sqrtP, sqrtA, sqrtB, amount) == 0
  {
  }

  // ---- Symmetry and monotonicity ----------------------------------------------------------

  /** The order of the two bounds is irrelevant. */
  lemma BoundsCommute(sqrtP: nat, sqrtA: nat, sqrtB: nat, amount: int)
    ensures GetAmount1FromAmount0(sqrtP, sqrtA, sqrtB, amount) == GetAmount1FromAmount0(sqrtP, sqrtB, sqrtA, amount)
    ensures GetAmount0FromAmount1(sqrtP, sqrtA, sqrtB, amount) == GetAmount0FromAmount1(sqrtP, sqrtB, sqrtA, amount)
  {
  }

  lemma BigDivMono(a: int, c: int, b: int)
    requires b > 0 && a <= c
    ensures BigDiv(a, b) <= BigDiv(c, b)
  {
    if a >= 0 {
      FloorDivMono(a, c, b);
    } else if c < 0 {
      FloorDivMono(-c, -a, b);
    } else {
      FloorDivMono(0, c, b);
      FloorDivMono(0, -a, b);
    }
  }

  lemma MulDivMono(a: int, c: int, b: nat, denominator: int)
    requires denominator > 0 && a <= c
    ensures MulDiv(a, b, denominator) <= MulDiv(c, b, denominator)
  {
    MulMono(a, c, b);
    BigDivMono(a * b, c * b, denominator);
  }

  /** More of one token never pairs with less of the other. */
  lemma PairedAmountsMonotone(sqrtP: nat, sqrtA: nat, sqrtB: nat, x: int, y: int)
    requires x <= y
    ensures GetAmount1FromAmount0(sqrtP, sqrtA, sqrtB, x) <= GetAmount1FromAmount0(sqrtP, sqrtA, sqrtB, y)
    ensures GetAmount0FromAmount1(sqrtP, sqrtA, sqrtB, x) <= GetAmount0FromAmount1(sqrtP, sqrtA, sqrtB, y)
  {
    hide MulDiv, BigDiv;
    var (a, b) := if sqrtA > sqrtB then (sqrtB, sqrtA) else (sqrtA, sqrtB);
    if a < sqrtP < b {
      Amount1Mono(a, sqrtP, b, x, y);
      Amount0Mono(a, sqrtP, b, x, y);
    }
  }

  lemma IntermediateNonNegative(p: nat, b: nat)
    ensures 0 <= MulDiv(p, b, TickMath.Q96)
  {
    MulMono(0, p, b);
    FloorDivMono(0, p * b, TickMath.Q96);
  }

  lemma Amount1Mono(a: nat, p: nat, b: nat, x: int, y: int)
    requires a < p < b && x <= y
    ensures GetAmount1FromAmount0(p, a, b, x) <= GetAmount1FromAmount0(p, a, b, y)
  {
    hide MulDiv, BigDiv;
    IntermediateNonNegative(p, b);
    MulDivMono(x, y, MulDiv(p, b, TickMath.Q96), b - p);
    MulDivMono(GetLiquidityForAmount0(p, b, x), GetLiquidityForAmount0(p, b, y), p - a, TickMath.Q96);
  }

  lemma Amount0Mono(a: nat, p: nat, b: nat, x: int, y: int)
    requires a < p < b && x <= y
    ensures GetAmount0FromAmount1(p, a, b, x) <= GetAmount0FromAmount1(p, a, b, y)
  {
    hide MulDiv, BigDiv;
    MulDivMono(x, y, TickMath.Q96, p - a);
    var l, m := GetLiquidityForAmount1(a, p, x), GetLiquidityForAmount1(a, p, y);
    MulDivMono(l * TickMath.Q96, m * TickMath.Q96, b - p, b);
    BigDivMono(MulDiv(l * TickMath.Q96, b - p, b), MulDiv(m * TickMath.Q96, b - p, b), p);
  }

  /** Negating the amount negates the paired amount. */
  lemma PairedAmountsOdd(sqrtP: nat, sqrtA: nat, sqrtB: nat, x: int)
    ensures GetAmount1FromAmount0(sqrtP, sqrtA, sqrtB, -x) == -GetAmount1FromAmount0(sqrtP, sqrtA, sqrtB, x)
    ensures GetAmount0FromAmount1(sqrtP, sqrtA, sqrtB, -x) == -GetAmount0FromAmount1(sqrtP, sqrtA, sqrtB, x)
  {
    hide MulDiv, BigDiv;
    var (a, b) := if sqrtA > sqrtB then (sqrtB, sqrtA) else (sqrtA, sqrtB);
    if a < sqrtP < b {
      MulDivOdd(x, MulDiv(sqrtP, b, TickMath.Q96), b - sqrtP);
      MulDivOdd(GetLiquidityForAmount0(sqrtP, b, x), sqrtP - a, TickMath.Q96);
      MulDivOdd(x, TickMath.Q96, sqrtP - a);
      var l := GetLiquidityForAmount1(a, sqrtP, x);
      MulDivOdd(l * TickMath.Q96, b - sqrtP, b);
      BigDivOdd(MulDiv(l * TickMath.Q96, b - sqrtP, b), sqrtP);
    }
  }

  lemma BigDivOdd(a: int, b: int)
    requires b > 0
    ensures BigDiv(-a, b) == -BigDiv(a, b)
  {
  }

  lemma MulDivOdd(a: int, b: int, denominator: int)
    requires denominator > 0
    ensures MulDiv(-a, b, denominator) == -MulDiv(a, b, denominator)
  {
    assert -a * b == -(a * b);
    BigDivOdd(a * b, denominator);
  }

  // ---- Round trips ------------------------------------------------------------------------

  /** Converting to the other token and back never yields more than the start. */
  lemma RoundTrips(sqrtP: nat, sqrtA: nat, sqrtB: nat, x: int)
    ensures Abs(GetAmount0FromAmount1(sqrtP, sqrtA, sqrtB, GetAmount1FromAmount0(sqrtP, sqrtA, sqrtB, x))) <= Abs(x)
    ensures Abs(GetAmount1FromAmount0(sqrtP, sqrtA, sqrtB, GetAmount0FromAmount1(sqrtP, sqrtA, sqrtB, x))) <= Abs(x)
  {
    hide GetAmount1FromAmount0, GetAmount0FromAmount1;
    if x < 0 {
      PairedAmountsOdd(sqrtP, sqrtA, sqrtB, -x);
      PairedAmountsOdd(sqrtP, sqrtA, sqrtB, GetAmount1FromAmount0(sqrtP, sqrtA, sqrtB, -x));
      PairedAmountsOdd(sqrtP, sqrtA, sqrtB, GetAmount0FromAmount1(sqrtP, sqrtA, sqrtB, -x));
    }
    BoundsOrdered(sqrtP, sqrtA, sqrtB, if x < 0 then -x else x);
  }

  lemma BoundsOrdered(sqrtP: nat, sqrtA: nat, sqrtB: nat, x: nat)
    ensures 0 <= GetAmount0FromAmount1(sqrtP, sqrtA, sqrtB, GetAmount1FromAmount0(sqrtP, sqrtA, sqrtB, x)) <= x
    ensures 0 <= GetAmount1FromAmount0(sqrtP, sqrtA, sqrtB, GetAmount0FromAmount1(sqrtP, sqrtA, sqrtB, x)) <= x
  {
    hide MulDiv, BigDiv;
    var (a, b) := if sqrtA > sqrtB then (sqrtB, sqrtA) else (sqrtA, sqrtB);
    if a < sqrtP < b {
      RoundTrip0(a, sqrtP, b, x);
      RoundTrip1(a, sqrtP, b, x);
    }
  }

  /** A truncated quotient of naturals, as a pair of products. */
  lemma NatQuotient(a: int, b: int, d: int)
    requires 0 <= a && 0 <= b && 0 < d
    ensures 0 <= MulDiv(a, b, d) && MulDiv(a, b, d) * d <= a * b
  {
    MulMono(0, a, b);
    FloorDiv(a * b, d);
    FloorDivMono(0, a * b, d);
  }

  lemma Amount1Products(a: nat, p: nat, b: nat, x: nat)
    requires a < p < b
    ensures var l, r := GetLiquidityForAmount0(p, b, x), GetAmount1FromAmount0(p, a, b, x);
      0 <= l && l * (b - p) * TickMath.Q96 <= x * (p * b) && 0 <= r && r * TickMath.Q96 <= l * (p - a)
  {
    hide MulDiv, BigDiv;
    NatQuotient(p, b, TickMath.Q96);
    var i := MulDiv(p, b, TickMath.Q96);
    NatQuotient(x, i, b - p);
    var l := MulDiv(x, i, b - p);
    NatQuotient(l, p - a, TickMath.Q96);
    MulMono(l * (b - p), x * i, TickMath.Q96);
    MulMono(i * TickMath.Q96, p * b, x);
    Reassociate(x, i, TickMath.Q96);
  }

  lemma Amount0Products(a: nat, p: nat, b: nat, x: nat)
    requires a < p < b
    ensures var l, r := GetLiquidityForAmount1(a, p, x), GetAmount0FromAmount1(p, a, b, x);
      0 <= l && l * (p - a) <= x * TickMath.Q96 && 0 <= r && r * (p * b) <= l * (b - p) * TickMath.Q96
  {
    hide MulDiv, BigDiv;
    NatQuotient(x, TickMath.Q96, p - a);
    var l := MulDiv(x, TickMath.Q96, p - a);
    NatQuotient(l * TickMath.Q96, b - p, b);
    var t := MulDiv(l * TickMath.Q96, b - p, b);
    NatQuotient(t, 1, p);
    MulDivByOne(t, p);
    var r := BigDiv(t, p);
    MulMono(r * p, t, b);
    Reassociate(r, p, b);
    Reassociate(l, TickMath.Q96, b - p);
  }

  lemma MulDivByOne(t: int, p: int)
    requires p > 0
    ensures MulDiv(t, 1, p) == BigDiv(t, p)
  {
  }

  lemma RoundTrip0(a: nat, p: nat, b: nat, x: nat)
    requires a < p < b
    ensures 0 <= GetAmount0FromAmount1(p, a, b, GetAmount1FromAmount0(p, a, b, x)) <= x
  {
    hide GetAmount1FromAmount0, GetAmount0FromAmount1, GetLiquidityForAmount0, GetLiquidityForAmount1;
    var y := GetAmount1FromAmount0(p, a, b, x);
    Amount1Products(a, p, b, x);
    Amount0Products(a, p, b, y);
    var l, m, z := GetLiquidityForAmount0(p, b, x), GetLiquidityForAmount1(a, p, y), GetAmount0FromAmount1(p, a, b, y);
    MulCancel(m, l, p - a);
    Scaled(m, l, b - p, TickMath.Q96);
    MulStrictMono(0, p, b);
    MulCancel(z, x, p * b);
  }

  lemma RoundTrip1(a: nat, p: nat, b: nat, x: nat)
    requires a < p < b
    ensures 0 <= GetAmount1FromAmount0(p, a, b, GetAmount0FromAmount1(p, a, b, x)) <= x
  {
    hide GetAmount1FromAmount0, GetAmount0FromAmount1, GetLiquidityForAmount0, GetLiquidityForAmount1;
    var y := GetAmount0FromAmount1(p, a, b, x);
    Amount0Products(a, p, b, x);
    Amount1Products(a, p, b, y);
    var l, m, z := GetLiquidityForAmount1(a, p, x), GetLiquidityForAmount0(p, b, y), GetAmount1FromAmount0(p, a, b, y);
    MulCancel(m * (b - p), l * (b - p), TickMath.Q96);
    MulCancel(m, l, b - p);
    MulMono(m, l, p - a);
    MulCancel(z, x, TickMath.Q96);
  }

  lemma Scaled(m: int, l: int, d: int, q: int)
    requires m <= l && 0 <= d && 0 <= q
    ensures m * d * q <= l * d * q
  {
    MulMono(m, l, d);
    MulMono(m * d, l * d, q);
  }

  // ---- Accuracy ---------------------------------------------------------------------------

  lemma Permute(a: int, b: int, c: int, d: int)
    ensures a * b * c * d == b * a * c * d == a * c * b * d == a * d * c * b == c * d * a * b
  {
    Reassociate(a, b, c);
    Reassociate(a, c, d);
    Reassociate(a * c, d, b);
    Reassociate(c * d, a, b);
    Reassociate(a * d, c, b);
    Reassociate(a, d, c);
    Reassociate(a * b, c, d);
  }

  /** Three truncated steps, multiplied out: x * pb * w against r * q * q * d. */
  lemma ChainUpper(i: nat, l: nat, r: nat, x: nat, pb: nat, w: nat, d: nat, q: nat)
    requires i * q <= pb && l * d <= x * i && r * q <= l * w
    ensures r * q * q * d <= x * pb * w
  {
    MulMono(r * q, l * w, q);
    MulMono(r * q * q, l * w * q, d);
    Permute(l, w, q, d);
    MulMono(l * d, x * i, q);
    MulMono(l * d * q, x * i * q, w);
    Reassociate(x, i, q);
    MulMono(i * q, pb, x);
    MulMono(x * (i * q), x * pb, w);
  }

  lemma ChainLower(i: nat, l: nat, r: nat, x: nat, pb: nat, w: nat, d: nat, q: nat)
    requires pb < i * q + q && x * i < l * d + d && l * w < r * q + q && 0 < d && 0 < q
    ensures x * pb * w < r * q * q * d + q * q * d + (d + x) * q * w
  {
    MulMono(pb, i * q + q, x);
    Distribute(i * q, q, x);
    Reassociate(x, i, q);
    MulMono(x * i, l * d + d, q);
    Distribute(l * d, d, q);
    Distribute(d, x, q);
    assert x * pb <= l * d * q + (d + x) * q;
    MulMono(x * pb, l * d * q + (d + x) * q, w);
    Distribute(l * d * q, (d + x) * q, w);
    Permute(l, d, q, w);
    Permute(l, w, q, d);
    MulMono(l * w, r * q + q - 1, q);
    Distribute(r * q, q, q);
    Distribute(r * q + q, 1, q);
    MulStrictMono(l * w * q, r * q * q + q * q, d);
    Distribute(r * q * q, q * q, d);
  }

  lemma NatRemainder(a: int, b: int, d: int)
    requires 0 <= a && 0 <= b && 0 < d
    ensures 0 <= MulDiv(a, b, d) && MulDiv(a, b, d) * d <= a * b < MulDiv(a, b, d) * d + d
  {
    MulMono(0, a, b);
    FloorDiv(a * b, d);
    FloorDivMono(0, a * b, d);
  }

  /** The paired token1 amount is three divisions, each rounded down: by 2^96, B - P and 2^96. */
  lemma Amount1IsFloors(a: nat, p: nat, b: nat, x: nat) returns (i: nat, liquidity: nat)
    requires a < p < b
    ensures i * TickMath.Q96 <= p * b < i * TickMath.Q96 + TickMath.Q96
    ensures liquidity * (b - p) <= x * i < liquidity * (b - p) + (b - p)
    ensures var r := GetAmount1FromAmount0(p, a, b, x);
      r >= 0 && r * TickMath.Q96 <= liquidity * (p - a) < r * TickMath.Q96 + TickMath.Q96
  {
    hide MulDiv, BigDiv;
    NatRemainder(p, b, TickMath.Q96);
    i := MulDiv(p, b, TickMath.Q96);
    NatRemainder(x, i, b - p);
    liquidity := MulDiv(x, i, b - p);
    NatRemainder(liquidity, p - a, TickMath.Q96);
  }

  /** The paired token0 amount is three divisions, each rounded down: by P - A, B and P. */
  lemma Amount0IsFloors(a: nat, p: nat, b: nat, x: nat) returns (liquidity: nat, t: nat)
    requires a < p < b
    ensures liquidity * (p - a) <= x * TickMath.Q96 < liquidity * (p - a) + (p - a)
    ensures t * b <= liquidity * TickMath.Q96 * (b - p) < t * b + b
    ensures var r := GetAmount0FromAmount1(p, a, b, x); r >= 0 && r * p <= t < r * p + p
  {
    hide MulDiv, BigDiv;
    NatRemainder(x, TickMath.Q96, p - a);
    liquidity := MulDiv(x, TickMath.Q96, p - a);
    NatRemainder(liquidity * TickMath.Q96, b - p, b);
    t := MulDiv(liquidity * TickMath.Q96, b - p, b);
    NatRemainder(t, 1, p);
    MulDivByOne(t, p);
  }

  /**
   * In range the paired token1 amount is x * P * B * (P - A) / ((B - P) * 2^192) rounded down,
   * short of it by less than 1 + (P - A) / 2^96 * (1 + x / (B - P)).
   */
  lemma Amount1Accuracy(a: nat, p: nat, b: nat, x: nat)
    requires a < p < b
    ensures var r := GetAmount1FromAmount0(p, a, b, x);
      && 0 <= r && r * TickMath.Q96 * TickMath.Q96 * (b - p) <= x * (p * b) * (p - a)
      && x * (p * b) * (p - a) < r * TickMath.Q96 * TickMath.Q96 * (b - p) + TickMath.Q96 * TickMath.Q96 * (b - p)
        + (b - p + x) * TickMath.Q96 * (p - a)
  {
    hide GetAmount1FromAmount0;
    var i, l := Amount1IsFloors(a, p, b, x);
    Amount1Bounds(i, l, GetAmount1FromAmount0(p, a, b, x), x, p * b, p - a, b - p, TickMath.Q96);
  }

  lemma Amount1Bounds(i: nat, l: nat, r: nat, x: nat, pb: nat, w: nat, d: nat, q: nat)
    requires i * q <= pb < i * q + q && l * d <= x * i < l * d + d && r * q <= l * w < r * q + q && 0 < d && 0 < q
    ensures r * q * q * d <= x * pb * w < r * q * q * d + q * q * d + (d + x) * q * w
  {
    ChainUpper(i, l, r, x, pb, w, d, q);
    ChainLower(i, l, r, x, pb, w, d, q);
  }

  /**
   * In range the paired token0 amount is x * 2^192 * (B - P) / (P * B * (P - A)) rounded down,
   * short of it by less than 1 + 2^96 * (B - P) / (P * B).
   */
  lemma Amount0Accuracy(a: nat, p: nat, b: nat, x: nat)
    requires a < p < b
    ensures var r := GetAmount0FromAmount1(p, a, b, x);
      && 0 <= r && r * (p * b) * (p - a) <= x * TickMath.Q96 * TickMath.Q96 * (b - p)
      && x * TickMath.Q96 * TickMath.Q96 * (b - p) < (r * (p * b) + p * b + TickMath.Q96 * (b - p)) * (p - a)
  {
    hide GetAmount0FromAmount1;
    var l, t := Amount0IsFloors(a, p, b, x);
    Amount0Bounds(l, t, GetAmount0FromAmount1(p, a, b, x), x, p, b, p - a, b - p, TickMath.Q96);
  }

  lemma Amount0Bounds(l: nat, t: nat, r: nat, x: nat, p: nat, b: nat, w: nat, d: nat, q: nat)
    requires l * w <= x * q < l * w + w && t * b <= l * q * d < t * b + b && r * p <= t < r * p + p
    requires 0 < w && 0 < d && 0 < q && 0 < b
    ensures r * (p * b) * w <= x * q * q * d < (r * (p * b) + p * b + q * d) * w
  {
    MulMono(r * p, t, b);
    MulMono(t + 1, r * p + p, b);
    Distribute(t, 1, b);
    Distribute(r * p, p, b);
    Reassociate(r, p, b);
    MulMono(r * (p * b), l * q * d, w);
    Permute(l, w, q, d);
    Permute(l, q, d, w);
    MulMono(l * w, x * q, q);
    MulMono(l * w * q, x * q * q, d);
    MulStrictMono(x * q, l * w + w, q);
    MulStrictMono(x * q * q, (l * w + w) * q, d);
    Distribute(l * w, w, q);
    Distribute(l * w * q, w * q, d);
    MulMono(l * q * d, r * (p * b) + p * b, w);
    Distribute(r * (p * b) + p * b, q * d, w);
    Reassociate(w, q, d);
    Reassociate(q, d, w);
  }

  // ---- Amounts between two ticks ----------------------------------------------------------

  /**
   * The guards and the conversion of `calcPairedAmount`, on wei. `None` is the empty string.
   */
  function CalcPairedWei(token0Edited: bool, wei: int, sqrtP: int, tickLower: int, tickUpper: int): Option<int> {
    if tickLower >= tickUpper then None
    else if sqrtP == 0 then None
    else
      var sqrtA, sqrtB := TickMath.SqrtPriceX96(tickLower), TickMath.SqrtPriceX96(tickUpper);
      if sqrtA == 0 || sqrtB == 0 then None
      else
        var p: nat := if sqrtP < 0 then 0 else sqrtP; // below every tick price either way
        var paired := if token0Edited then GetAmount1FromAmount0(p, sqrtA, sqrtB, wei)
                      else GetAmount0FromAmount1(p, sqrtA, sqrtB, wei);
        if paired == 0 then None else Some(paired)
  }

  /** When a price is strictly between the prices of two ticks in range and in order. */
  ghost predicate BetweenTicks(sqrtP: int, tickLower: int, tickUpper: int) {
    && -887272 <= tickLower < tickUpper <= 887272
    && TickMath.SqrtPriceX96(tickLower) < sqrtP < TickMath.SqrtPriceX96(tickUpper)
  }

  /**
   * An amount is shown if and only if the price is between the ticks and the conversion is not
   * zero; it is the token1 amount when token0 was typed, and the token0 amount when token1 was.
   */
  lemma PairedWeiIsShown(token0Edited: bool, wei: int, sqrtP: int, tickLower: int, tickUpper: int)
    ensures var r := CalcPairedWei(token0Edited, wei, sqrtP, tickLower, tickUpper);
      if !BetweenTicks(sqrtP, tickLower, tickUpper) then r == None
      else
        var a, b := TickMath.SqrtPriceX96(tickLower), TickMath.SqrtPriceX96(tickUpper);
        var amount1, amount0 := GetAmount1FromAmount0(sqrtP, a, b, wei), GetAmount0FromAmount1(sqrtP, a, b, wei);
        && (token0Edited ==> r == if amount1 == 0 then None else Some(amount1))
        && (!token0Edited ==> r == if amount0 == 0 then None else Some(amount0))
  {
    hide GetAmount1ForLiquidity, GetAmount0ForLiquidity, GetLiquidityForAmount0, GetLiquidityForAmount1,
      TickMath.SqrtPriceX96;
    TickMath.SqrtPriceRange(tickLower);
    TickMath.SqrtPriceRange(tickUpper);
    if TickMath.MIN_TICK <= tickLower < tickUpper <= TickMath.MAX_TICK {
      TickMath.StrictlyIncreasing(tickLower, tickUpper);
    }
  }

  /** In numbers: what is shown is short of the exact quotient by less than the three roundings. */
  lemma PairedWeiAccuracy(token0Edited: bool, wei: nat, sqrtP: int, tickLower: int, tickUpper: int)
    requires CalcPairedWei(token0Edited, wei, sqrtP, tickLower, tickUpper).Some?
    ensures var r := CalcPairedWei(token0Edited, wei, sqrtP, tickLower, tickUpper).value;
      var a, p, b := TickMath.SqrtPriceX96(tickLower), sqrtP, TickMath.SqrtPriceX96(tickUpper);
      && a < p < b && r > 0
      && (token0Edited ==>
            && r * TickMath.Q96 * TickMath.Q96 * (b - p) <= wei * (p * b) * (p - a)
            && wei * (p * b) * (p - a) < r * TickMath.Q96 * TickMath.Q96 * (b - p)
              + TickMath.Q96 * TickMath.Q96 * (b - p) + (b - p + wei) * TickMath.Q96 * (p - a))
      && (!token0Edited ==>
            && r * (p * b) * (p - a) <= wei * TickMath.Q96 * TickMath.Q96 * (b - p)
            && wei * TickMath.Q96 * TickMath.Q96 * (b - p) < (r * (p * b) + p * b + TickMath.Q96 * (b - p)) * (p - a))
  {
    hide CalcPairedWei, GetAmount1FromAmount0, GetAmount0FromAmount1, TickMath.SqrtPriceX96;
    PairedWeiIsShown(token0Edited, wei, sqrtP, tickLower, tickUpper);
    var a, b := TickMath.SqrtPriceX96(tickLower), TickMath.SqrtPriceX96(tickUpper);
    if token0Edited {
      Amount1Accuracy(a, sqrtP, b, wei);
    } else {
      Amount0Accuracy(a, sqrtP, b, wei);
    }
  }

  /**
   * A paired amount is shown only for a price strictly between the prices of two ticks in
   * range and in order, and pairing it back stays within what was typed.
   */
  lemma PairedWeiIsConservative(token0Edited: bool, wei: int, sqrtP: int, tickLower: int, tickUpper: int)
    ensures var r := CalcPairedWei(token0Edited, wei, sqrtP, tickLower, tickUpper);
      r.Some? ==>
        && TickMath.MIN_TICK <= tickLower < tickUpper <= TickMath.MAX_TICK
        && TickMath.SqrtPriceX96(tickLower) < sqrtP < TickMath.SqrtPriceX96(tickUpper)
        && var back := CalcPairedWei(!token0Edited, r.value, sqrtP, tickLower, tickUpper);
           back.None? || Abs(back.value) <= Abs(wei)
  {
    hide GetAmount1ForLiquidity, GetAmount0ForLiquidity, GetLiquidityForAmount0, GetLiquidityForAmount1,
      TickMath.SqrtPriceX96;
    var r := CalcPairedWei(token0Edited, wei, sqrtP, tickLower, tickUpper);
    if r.Some? {
      TickMath.SqrtPriceRange(tickLower);
      TickMath.SqrtPriceRange(tickUpper);
      TickMath.StrictlyIncreasing(tickLower, tickUpper);
      RoundTrips(sqrtP, TickMath.SqrtPriceX96(tickLower), TickMath.SqrtPriceX96(tickUpper), wei);
    }
  }
}
