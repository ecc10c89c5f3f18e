/**
 * Integer square roots and the sqrt price of a ratio:
 * apps/web/lib/admin-add-pair-liquidity.ts and apps/web/lib/basicPoolInitialLp.ts.
 */
module SqrtPrice {
  import opened Arith
  import opened Results
  import TickMath

  // ---- Floor square root ------------------------------------------------------------------

  ghost predicate IsFloorSqrt(n: int, r: int) {
    0 <= r && r * r <= n < (r + 1) * (r + 1)
  }

  /** Base-4 digit recurrence for the floor square root, independent of Newton's iteration. */
  function FloorSqrt(n: nat): (r: nat)
    ensures IsFloorSqrt(n, r)
  {
    if n == 0 then 0
    else
      var half := FloorSqrt(n / 4);
      DigitStep(n, half);
      NextDigit(n, 2 * half)
  }

  function NextDigit(n: nat, even: nat): (r: nat)
    requires even * even <= n < (even + 2) * (even + 2)
    ensures IsFloorSqrt(n, r)
  {
    if (even + 1) * (even + 1) <= n then even + 1 else even
  }

  lemma DigitStep(n: nat, half: nat)
    requires IsFloorSqrt(n / 4, half)
    ensures 2 * half * (2 * half) <= n < (2 * half + 2) * (2 * half + 2)
  {
    assert 2 * half * (2 * half) == 4 * (half * half);
    assert (2 * half + 2) * (2 * half + 2) == 4 * ((half + 1) * (half + 1));
  }

  lemma FloorSqrtUnique(n: nat, r: int)
    requires IsFloorSqrt(n, r)
    ensures r == FloorSqrt(n)
  {
    hide FloorSqrt, IsFloorSqrt;
    var f := FloorSqrt(n);
    RootsOrdered(n, n, r, f);
    RootsOrdered(n, n, f, r);
  }

  lemma RootsOrdered(m: nat, n: nat, a: int, b: int)
    requires m <= n && IsFloorSqrt(m, a) && IsFloorSqrt(n, b)
    ensures a <= b
  {
    if b < a {
      SquareMono(b + 1, a);
    }
  }

  /** A Newton step from any positive `x` never falls below the root. */
  lemma NewtonStep(n: nat, x: nat)
    requires x > 0
    ensures n < ((n / x + x) / 2 + 1) * ((n / x + x) / 2 + 1)
  {
    var q := n / x;
    FloorDiv(n, x);
    var y := (q + x) / 2;
    MeanBound(q, x, y);
    Distribute(q, 1, x);
  }

  lemma MeanBound(q: nat, x: nat, y: nat)
    requires q + x <= 2 * y + 1
    ensures (q + 1) * x <= (y + 1) * (y + 1)
  {
    var s, d := q + 1 + x, q + 1 - x;
    assert s * s == d * d + 4 * ((q + 1) * x);
    SquareMono(s, 2 * (y + 1));
    assert 2 * (y + 1) * (2 * (y + 1)) == 4 * ((y + 1) * (y + 1));
    assert d * d >= 0;
  }

  /** The Newton loop that both files spell out. */
  method NewtonSqrt(n: int) returns (r: Result<nat>)
    ensures r == if n < 0 then Failure("negative") else Success(FloorSqrt(n))
  {
    if n < 0 {
      return Failure("negative");
    }
    if n < 2 {
      FloorSqrtUnique(n, n);
      return Success(n);
    }
    var x := n;
    var y := (x + 1) / 2;
    NewtonStep(n, n);
    assert n / n == 1;
    while y < x
      invariant 0 < x && 0 < y && y == (n / x + x) / 2
      invariant n < (x + 1) * (x + 1) && n < (y + 1) * (y + 1)
      decreases x
    {
      x := y;
      y := (n / x + x) / 2;
      NewtonStep(n, x);
      PositiveStep(n, x);
    }
    RootReached(n, x);
    FloorSqrtUnique(n, x);
    return Success(x);
  }

  lemma PositiveStep(n: nat, x: nat)
    requires n >= 2 && x > 0
    ensures (n / x + x) / 2 > 0
  {
    if x == 1 {
      assert n / x == n;
    }
  }

  lemma RootReached(n: nat, x: nat)
    requires 0 < x <= (n / x + x) / 2
    ensures x * x <= n
  {
    FloorDiv(n, x);
    MulMono(x, n / x, x);
  }

  // ---- Sqrt price of a ratio --------------------------------------------------------------

  const Q192: nat := TickMath.Q96 * TickMath.Q96

  function Clamp(sp: nat): nat {
    if sp < TickMath.MIN_SQRT then TickMath.MIN_SQRT
    else if sp >= TickMath.MAX_SQRT then TickMath.MAX_SQRT - 1
    else sp
  }

  /** `num << 192n` over `den`: a zero divisor and a negative root both throw. */
  method SqrtPriceX96FromRatio(num: int, den: int) returns (sp: Result<nat>)
    ensures sp == RatioPrice(num, den)
  {
    if den == 0 {
      return Failure("division by zero");
    }
    var r := if den > 0 then BigDiv(num * Q192, den) else BigDiv(-num * Q192, -den);
    var root := NewtonSqrt(r);
    if root.Failure? {
      return root;
    }
    var s := root.value;
    if s < TickMath.MIN_SQRT {
      s := TickMath.MIN_SQRT;
    }
    if s >= TickMath.MAX_SQRT {
      s := TickMath.MAX_SQRT - 1;
    }
    return Success(s);
  }

  function RatioPrice(num: int, den: int): Result<nat> {
    if den == 0 then Failure("division by zero")
    else
      var r := if den > 0 then BigDiv(num * Q192, den) else BigDiv(-num * Q192, -den);
      if r < 0 then Failure("negative") else Success(Clamp(FloorSqrt(r)))
  }

  /** The root of a truncated quotient is the one integer whose square brackets the ratio. */
  lemma RootOfQuotient(n: nat, den: nat, s: nat)
    requires den > 0
    ensures s * s * den <= n < (s + 1) * (s + 1) * den <==> s == FloorSqrt(n / den)
  {
    hide FloorSqrt;
    FloorDiv(n, den);
    FloorOfBrackets(n, den, n / den, s * s, (s + 1) * (s + 1));
    BracketsOfFloor(n, den, n / den, s * s, (s + 1) * (s + 1));
    if IsFloorSqrt(n / den, s) {
      FloorSqrtUnique(n / den, s);
    }
  }

  lemma FloorOfBrackets(n: nat, den: nat, r: nat, lo: nat, hi: nat)
    requires r * den <= n < r * den + den
    ensures lo * den <= n < hi * den ==> lo <= r < hi
  {
    if lo * den <= n < hi * den {
      Distribute(r, 1, den);
      MulCancelStrict(lo, r + 1, den);
      MulCancelStrict(r, hi, den);
    }
  }

  lemma MulCancelStrict(a: int, b: int, c: int)
    requires 0 < c && a * c < b * c
    ensures a < b
  {
    if b <= a {
      MulMono(b, a, c);
    }
  }

  lemma BracketsOfFloor(n: nat, den: nat, r: nat, lo: nat, hi: nat)
    requires r * den <= n < r * den + den
    ensures lo <= r < hi ==> lo * den <= n < hi * den
  {
    if lo <= r < hi {
      MulMono(lo, r, den);
      MulMono(r + 1, hi, den);
      Distribute(r, 1, den);
    }
  }

  /** The squares of the price bounds. */
  const MIN_RATIO: nat := TickMath.MIN_SQRT * TickMath.MIN_SQRT
  const MAX_RATIO: nat := TickMath.MAX_SQRT * TickMath.MAX_SQRT

  /**
   * The price is the root of `num / den` in units of 2^-96 exactly when the ratio lies within the
   * clamping bounds; outside it is the nearer bound.
   */
  lemma RatioPriceIsRoot(num: nat, den: nat)
    requires den > 0
    ensures var n := num * (TickMath.Q96 * TickMath.Q96);
      && (RatioPrice(num, den) == Success(FloorSqrt(n / den)) <==> MIN_RATIO * den <= n < MAX_RATIO * den)
      && (n < MIN_RATIO * den ==> RatioPrice(num, den) == Success(TickMath.MIN_SQRT))
      && (n >= MAX_RATIO * den ==> RatioPrice(num, den) == Success(TickMath.MAX_SQRT - 1))
  {
    hide FloorSqrt, IsFloorSqrt;
    RatioPriceOfNat(num, den);
    var n := num * Q192;
    FloorDiv(n, den);
    RootAtLeast(n / den, TickMath.MIN_SQRT);
    RootAtLeast(n / den, TickMath.MAX_SQRT);
    QuotientAtLeast(n, den, MIN_RATIO);
    QuotientAtLeast(n, den, MAX_RATIO);
  }

  /** So a price that was not clamped brackets the ratio: s^2 <= num / den * 2^192 < (s + 1)^2. */
  lemma RatioPriceBrackets(num: nat, den: nat, s: nat)
    requires den > 0 && RatioPrice(num, den) == Success(s) && TickMath.MIN_SQRT < s < TickMath.MAX_SQRT - 1
    ensures s * s * den <= num * (TickMath.Q96 * TickMath.Q96) < (s + 1) * (s + 1) * den
  {
    hide FloorSqrt, IsFloorSqrt;
    RatioPriceIsRoot(num, den);
    RootOfQuotient(num * Q192, den, s);
  }

  /** A ratio of one is the price of tick zero, and two negative numbers are a positive ratio. */
  lemma RatioPriceOfOne()
    ensures RatioPrice(1, 1) == Success(TickMath.Q96)
  {
    hide FloorSqrt;
    RatioPriceOfNat(1, 1);
    FloorSqrtUnique(TickMath.Q96 * TickMath.Q96, TickMath.Q96);
  }

  lemma RatioPriceSigns(num: int, den: int)
    requires den != 0
    ensures RatioPrice(-num, -den) == RatioPrice(num, den)
  {
    hide FloorSqrt, IsFloorSqrt;
  }

  lemma RootAtLeast(r: nat, bound: nat)
    ensures FloorSqrt(r) >= bound <==> r >= bound * bound
  {
    hide FloorSqrt;
    var s := FloorSqrt(r);
    if s >= bound {
      SquareMono(bound, s);
    } else {
      SquareMono(s + 1, bound);
    }
  }

  lemma QuotientAtLeast(n: nat, den: nat, bound: nat)
    requires den > 0
    ensures n / den >= bound <==> n >= bound * den
  {
    FloorDiv(n, den);
    if n / den >= bound {
      MulMono(bound, n / den, den);
    } else {
      MulMono(n / den + 1, bound, den);
      Distribute(n / den, 1, den);
    }
  }

  lemma RatioPriceInRange(num: int, den: int)
    ensures RatioPrice(num, den).Success? ==> TickMath.MIN_SQRT <= RatioPrice(num, den).value < TickMath.MAX_SQRT
    ensures num >= 0 && den > 0 ==> RatioPrice(num, den).Success?
  {
    hide FloorSqrt, IsFloorSqrt;
    if num >= 0 && den > 0 {
      RatioPriceOfNat(num, den);
    }
  }

  lemma FloorSqrtMono(m: nat, n: nat)
    requires m <= n
    ensures FloorSqrt(m) <= FloorSqrt(n)
  {
    hide FloorSqrt, IsFloorSqrt;
    RootsOrdered(m, n, FloorSqrt(m), FloorSqrt(n));
  }

  lemma RatioPriceOfNat(num: nat, den: nat)
    requires den > 0
    ensures RatioPrice(num, den) == Success(Clamp(FloorSqrt(num * Q192 / den)))
  {
    hide FloorSqrt, IsFloorSqrt;
  }

  /** A larger ratio never gets a smaller price. */
  lemma RatioPriceMonotone(num1: nat, den1: nat, num2: nat, den2: nat)
    requires den1 > 0 && den2 > 0 && num1 * den2 <= num2 * den1
    ensures RatioPrice(num1, den1).Success? && RatioPrice(num2, den2).Success?
    ensures RatioPrice(num1, den1).value <= RatioPrice(num2, den2).value
  {
    hide FloorSqrt, IsFloorSqrt;
    RatioPriceOfNat(num1, den1);
    RatioPriceOfNat(num2, den2);
    ScaledCross(num1, den1, num2, den2, Q192);
    FloorSqrtMono(num1 * Q192 / den1, num2 * Q192 / den2);
  }

  lemma ScaledCross(num1: nat, den1: nat, num2: nat, den2: nat, q: nat)
    requires den1 > 0 && den2 > 0 && num1 * den2 <= num2 * den1
    ensures num1 * q / den1 <= num2 * q / den2
  {
    var r := num1 * q / den1;
    FloorDiv(num1 * q, den1);
    MulMono(num1 * den2, num2 * den1, q);
    MulMono(r * den1, num1 * q, den2);
    Reassociate(r, den1, den2);
    Reassociate(num1, q, den2);
    Reassociate(num1, den2, q);
    Reassociate(num2, den1, q);
    Reassociate(num2, q, den1);
    MulCancel(r * den2, num2 * q, den1);
    FloorDivMono(r * den2, num2 * q, den2);
    FloorDivUnique(r * den2, den2, r);
  }

  /** It throws exactly on a zero divisor and on ratios that round to a negative number. */
  lemma RatioPriceFails(num: int, den: int)
    ensures var n := num * (TickMath.Q96 * TickMath.Q96);
      RatioPrice(num, den).Failure? <==> den == 0 || (den > 0 && n <= -den) || (den < 0 && n >= -den)
  {
    hide FloorSqrt, IsFloorSqrt;
    if den > 0 {
      QuotientNegative(num * Q192, den);
    } else if den < 0 {
      QuotientNegative(-num * Q192, -den);
    }
  }

  lemma QuotientNegative(a: int, b: nat)
    requires b > 0
    ensures BigDiv(a, b) < 0 <==> a <= -(b as int)
  {
    if a >= 0 {
      FloorDivMono(0, a, b);
    } else {
      QuotientPositive(-a, b);
      FloorDivMono(0, -a, b);
    }
  }

  lemma QuotientPositive(a: nat, b: nat)
    requires b > 0
    ensures a / b > 0 <==> a >= b
  {
    FloorDiv(a, b);
    if a >= b {
      FloorDivMono(b, a, b);
      FloorDivUnique(b, b, 1);
    } else {
      FloorDivUnique(a, b, 0);
    }
  }

  /** Squaring a price and taking it back as a ratio over 2^192 returns the same price. */
  lemma RatioOfSquaredPrice(f: nat)
    ensures RatioPrice(f * f, TickMath.Q96 * TickMath.Q96) == Success(Clamp(f))
  {
    hide FloorSqrt;
    RatioPriceOfNat(f * f, Q192);
    FloorDivUnique(f * f * Q192, Q192, f * f);
    FloorSqrtUnique(f * f, f);
  }

  /** So every tick price but the last survives the trip through a ratio. */
  lemma TickPriceAsRatio(tick: int)
    requires TickMath.ValidTick(tick)
    ensures var f := TickMath.SqrtPriceX96(tick);
      RatioPrice(f * f, TickMath.Q96 * TickMath.Q96) == Success(if tick == TickMath.MAX_TICK then f - 1 else f)
  {
    var f := TickMath.SqrtPriceX96(tick);
    RatioOfSquaredPrice(f);
    TickMath.SqrtPriceRange(tick);
    TickMath.Endpoints();
    if tick < TickMath.MAX_TICK {
      TickMath.StrictlyIncreasing(tick, TickMath.MAX_TICK);
    }
  }

  // ---- Ratios from a human price ----------------------------------------------------------

  /** `priceFixed` is the price with 18 decimals, as parsed from the input. */
  function Token1PerToken0Ratio(priceFixed: int, dec0: nat, dec1: nat): Option<(int, int)> {
    if priceFixed <= 0 then None
    else
      var num := priceFixed * Pow10(dec1) / Pow10(18);
      if num <= 0 then None else Some((num, Pow10(dec0)))
  }

  /** A ratio that was accepted always has a price, within the bounds. */
  lemma AcceptedRatioHasPrice(priceFixed: int, dec0: nat, dec1: nat)
    ensures Token1PerToken0Ratio(priceFixed, dec0, dec1).Some? <==> priceFixed * Pow10(dec1) >= Pow10(18)
    ensures Token1PerToken0Ratio(priceFixed, dec0, dec1).Some? ==>
      var (num, den) := Token1PerToken0Ratio(priceFixed, dec0, dec1).value;
      && den == Pow10(dec0) && num * Pow10(18) <= priceFixed * Pow10(dec1) < (num + 1) * Pow10(18)
      && RatioPrice(num, den).Success?
      && TickMath.MIN_SQRT <= RatioPrice(num, den).value < TickMath.MAX_SQRT
  {
    hide Pow10, RatioPrice;
    if priceFixed > 0 {
      MulMono(1, priceFixed, Pow10(dec1));
      QuotientPositive(priceFixed * Pow10(dec1), Pow10(18));
      var num := priceFixed * Pow10(dec1) / Pow10(18);
      FloorDiv(priceFixed * Pow10(dec1), Pow10(18));
      Distribute(num, 1, Pow10(18));
      if num > 0 {
        RatioPriceInRange(num, Pow10(dec0));
      }
    } else {
      MulMono(priceFixed, 0, Pow10(dec1));
    }
  }

  // ---- First mint of a volatile pool ------------------------------------------------------

  method EstimateVolatileInitialLp(amount0: int, amount1: int, minimumLiquidity: int) returns (liq: Option<int>)
    ensures liq.Some? <==>
      (amount0 > 0 && amount1 > 0
       && (minimumLiquidity < 0 || (minimumLiquidity + 1) * (minimumLiquidity + 1) <= amount0 * amount1))
    ensures liq.Some? ==> liq.value > 0 && IsFloorSqrt(amount0 * amount1, liq.value + minimumLiquidity)
  {
    hide FloorSqrt;
    if amount0 <= 0 || amount1 <= 0 {
      return None;
    }
    MulStrictMono(0, amount0, amount1);
    var root := NewtonSqrt(amount0 * amount1);
    var r := root.value;
    if minimumLiquidity >= 0 {
      RootAbove(amount0 * amount1, r, minimumLiquidity);
    }
    var l := if r > minimumLiquidity then r - minimumLiquidity else 0;
    return if l <= 0 then None else Some(l);
  }

  lemma RootAbove(n: nat, r: nat, m: nat)
    requires IsFloorSqrt(n, r)
    ensures r > m <==> (m + 1) * (m + 1) <= n
  {
    if r > m {
      SquareMono(m + 1, r);
    } else {
      SquareMono(r + 1, m + 1);
    }
  }
}
