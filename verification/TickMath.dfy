/**
 * Tick to sqrt price, apps/web/lib/tickMath.ts.
 *
 * Prices are Q64.96 integers. The ladder multiplies one Q128.128 constant per set bit of
 * |tick| and truncates after each product; positive ticks take a reciprocal; the result is
 * rounded up to 96 fractional bits.
 */
module TickMath {
  import opened Arith

  const MIN_TICK: int := -887272
  const MAX_TICK: int := 887272
  const MIN_SQRT: nat := 4295128739
  const MAX_SQRT: nat := 1461446703485210103287273052203988822378723970342

  const Q32: nat := 0x1_0000_0000
  const Q64: nat := 0x1_0000_0000_0000_0000
  const Q96: nat := 0x1_0000_0000_0000_0000_0000_0000
  const Q128: nat := 0x1_0000_0000_0000_0000_0000_0000_0000_0000
  const MAX_UINT256: nat := 0xffffffffffffffffffffffffffffffffffffffffffffffffffffffffffffffff

  /** The Q128.128 multiplier of bit `k`: 1.0001^(-2^k / 2). */
  function Magic(k: nat): nat
    requires k < 20
  {
    if k == 0 then 0xfffcb933bd6fad37aa2d162d1a594001 else
    if k == 1 then 0xfff97272373d413259a46990580e213a else
    if k == 2 then 0xfff2e50f5f656932ef12357cf3c7fdcc else
    if k == 3 then 0xffe5caca7e10e4e61c3624eaa0941cd0 else
    if k == 4 then 0xffcb9843d60f6159c9db58835c926644 else
    if k == 5 then 0xff973b41fa98c081472e6896dfb254c0 else
    if k == 6 then 0xff2ea16466c96a3843ec78b326b52861 else
    if k == 7 then 0xfe5dee046a99a2a811c461f1969c3053 else
    if k == 8 then 0xfcbe86c7900a88aedcffc83b479aa3a4 else
    if k == 9 then 0xf987a7253ac413176f2b074cf7815e54 else
    if k == 10 then 0xf3392b0822b70005940c7a398e4b70f3 else
    if k == 11 then 0xe7159475a2c29b7443b29c7fa6e889d9 else
    if k == 12 then 0xd097f3bdfd2022b8845ad8f792aa5825 else
    if k == 13 then 0xa9f746462d870fdf8a65dc1f90e061e5 else
    if k == 14 then 0x70d869a156d2a1b890bb3df62baf32f7 else
    if k == 15 then 0x31be135f97d08fd981231505542fcfa6 else
    if k == 16 then 0x9aa508b5b7a84e1c677de54f3e99bc9 else
    if k == 17 then 0x5d6af8dedb81196699c329225ee604 else
    if k == 18 then 0x2216e584f5fa1ea926041bedfe98 else
    0x48a170391f7dc42444e8fa2
  }

  /** `(t & (1 << k)) !== 0`. */
  predicate Bit(t: nat, k: nat)
    decreases k, t
  {
    if k == 0 then t % 2 == 1 else Bit(t / 2, k - 1)
  }

  /** `(ratio * c) >> 128`. */
  function MulShift(ratio: nat, c: nat): nat {
    ratio * c / Q128
  }

  /** The running ratio once bits 0 to `k - 1` of |tick| have been looked at. */
  function LadderTo(t: nat, k: nat): nat
    requires k <= 20
    decreases k, t
  {
    if k == 0 then Q128
    else
      var ratio := LadderTo(t, k - 1);
      if Bit(t, k - 1) then MulShift(ratio, Magic(k - 1)) else ratio
  }

  function Ladder(absTick: nat): nat {
    LadderTo(absTick, 20)
  }

  /** `(r >> 32)`, plus one when low bits are lost. */
  function RoundUp32(r: nat): nat {
    r / Q32 + if r % Q32 == 0 then 0 else 1
  }

  function SqrtPriceX96(tick: int): nat {
    if Abs(tick) > MAX_TICK then 0
    else
      var ratio := Ladder(Abs(tick));
      // ratio is never 0 here (LadderRange)
      RoundUp32(if tick > 0 && ratio > 0 then MAX_UINT256 / ratio else ratio)
  }

  lemma FirstBit(t: nat)
    ensures LadderTo(t, 1) == if Bit(t, 0) then Magic(0) else Q128
  {
    assert MulShift(Q128, Magic(0)) == Magic(0);
  }

  /** The chain of twenty conditional products. */
  method RatioOf(absTick: nat) returns (ratio: nat)
    ensures ratio == Ladder(absTick)
  {
    hide MulShift;
    ratio := if Bit(absTick, 0) then 0xfffcb933bd6fad37aa2d162d1a594001 else Q128;
    FirstBit(absTick);
    if Bit(absTick, 1) {
      ratio := MulShift(ratio, 0xfff97272373d413259a46990580e213a);
    }
    assert ratio == LadderTo(absTick, 2);
    if Bit(absTick, 2) {
      ratio := MulShift(ratio, 0xfff2e50f5f656932ef12357cf3c7fdcc);
    }
    assert ratio == LadderTo(absTick, 3);
    if Bit(absTick, 3) {
      ratio := MulShift(ratio, 0xffe5caca7e10e4e61c3624eaa0941cd0);
    }
    assert ratio == LadderTo(absTick, 4);
    if Bit(absTick, 4) {
      ratio := MulShift(ratio, 0xffcb9843d60f6159c9db58835c926644);
    }
    assert ratio == LadderTo(absTick, 5);
    if Bit(absTick, 5) {
      ratio := MulShift(ratio, 0xff973b41fa98c081472e6896dfb254c0);
    }
    assert ratio == LadderTo(absTick, 6);
    if Bit(absTick, 6) {
      ratio := MulShift(ratio, 0xff2ea16466c96a3843ec78b326b52861);
    }
    assert ratio == LadderTo(absTick, 7);
    if Bit(absTick, 7) {
      ratio := MulShift(ratio, 0xfe5dee046a99a2a811c461f1969c3053);
    }
    assert ratio == LadderTo(absTick, 8);
    if Bit(absTick, 8) {
      ratio := MulShift(ratio, 0xfcbe86c7900a88aedcffc83b479aa3a4);
    }
    assert ratio == LadderTo(absTick, 9);
    if Bit(absTick, 9) {
      ratio := MulShift(ratio, 0xf987a7253ac413176f2b074cf7815e54);
    }
    assert ratio == LadderTo(absTick, 10);
    if Bit(absTick, 10) {
      ratio := MulShift(ratio, 0xf3392b0822b70005940c7a398e4b70f3);
    }
    assert ratio == LadderTo(absTick, 11);
    if Bit(absTick, 11) {
      ratio := MulShift(ratio, 0xe7159475a2c29b7443b29c7fa6e889d9);
    }
    assert ratio == LadderTo(absTick, 12);
    if Bit(absTick, 12) {
      ratio := MulShift(ratio, 0xd097f3bdfd2022b8845ad8f792aa5825);
    }
    assert ratio == LadderTo(absTick, 13);
    if Bit(absTick, 13) {
      ratio := MulShift(ratio, 0xa9f746462d870fdf8a65dc1f90e061e5);
    }
    assert ratio == LadderTo(absTick, 14);
    if Bit(absTick, 14) {
      ratio := MulShift(ratio, 0x70d869a156d2a1b890bb3df62baf32f7);
    }
    assert ratio == LadderTo(absTick, 15);
    if Bit(absTick, 15) {
      ratio := MulShift(ratio, 0x31be135f97d08fd981231505542fcfa6);
    }
    assert ratio == LadderTo(absTick, 16);
    if Bit(absTick, 16) {
      ratio := MulShift(ratio, 0x9aa508b5b7a84e1c677de54f3e99bc9);
    }
    assert ratio == LadderTo(absTick, 17);
    if Bit(absTick, 17) {
      ratio := MulShift(ratio, 0x5d6af8dedb81196699c329225ee604);
    }
    assert ratio == LadderTo(absTick, 18);
    if Bit(absTick, 18) {
      ratio := MulShift(ratio, 0x2216e584f5fa1ea926041bedfe98);
    }
    assert ratio == LadderTo(absTick, 19);
    if Bit(absTick, 19) {
      ratio := MulShift(ratio, 0x48a170391f7dc42444e8fa2);
    }
    assert ratio == LadderTo(absTick, 20);
  }

  method TickToSqrtPriceX96(tick: int) returns (price: nat)
    ensures price == SqrtPriceX96(tick)
  {
    var absTick := if tick < 0 then -tick else tick;
    if absTick > 887272 {
      return 0;
    }
    var ratio := RatioOf(absTick);
    LadderRange(absTick);
    if tick > 0 {
      ratio := MAX_UINT256 / ratio;
    }
    price := ratio / Q32 + if ratio % Q32 == 0 then 0 else 1;
  }

  // ---- Bits of t and of t + 1 -------------------------------------------------------------

  /** Bits 0 to `k - 1` of `t` are all set, so adding one carries into bit `k`. */
  ghost predicate Carry(t: nat, k: nat)
    decreases k, t
  {
    k == 0 || (t % 2 == 1 && Carry(t / 2, k - 1))
  }

  lemma {:induction false} CarrySucc(t: nat, k: nat)
    ensures Carry(t, k + 1) <==> Carry(t, k) && Bit(t, k)
  {
    if k > 0 {
      CarrySucc(t / 2, k - 1);
    }
  }

  lemma {:induction false} BitOfSucc(t: nat, k: nat)
    ensures Bit(t + 1, k) <==> Bit(t, k) != Carry(t, k)
  {
    if k > 0 {
      if t % 2 == 1 {
        assert (t + 1) / 2 == t / 2 + 1;
        BitOfSucc(t / 2, k - 1);
      } else {
        assert (t + 1) / 2 == t / 2;
      }
    }
  }

  ghost function Pow2(k: nat): nat {
    if k == 0 then 1 else 2 * Pow2(k - 1)
  }

  lemma {:induction false} CarryIsLarge(t: nat, k: nat)
    requires Carry(t, k)
    ensures t + 1 >= Pow2(k)
  {
    if k > 0 {
      CarryIsLarge(t / 2, k - 1);
    }
  }

  // ---- The constants form a chain of squares ----------------------------------------------

  /**
   * The first constant is 2^128 / sqrt(1.0001) rounded down, and every next one is the square
   * of the one before, to within two units in the last place.
   */
  lemma MagicConstants(k: nat)
    requires k < 20
    ensures Magic(0) * Magic(0) * 10001 <= 10000 * Q128 * Q128 < (Magic(0) + 1) * (Magic(0) + 1) * 10001
    ensures Q64 < Magic(k) < Q128
    ensures k < 19 ==> -2 * Q128 <= Magic(k) * Magic(k) - Magic(k + 1) * Q128 <= 2 * Q128
  {
  }

  // ---- The constants are powers of 1.0001 to the nearest ----------------------------------

  /** `b^(2^k)`. */
  ghost function Squared(b: nat, k: nat): nat {
    if k == 0 then b else Squared(b, k - 1) * Squared(b, k - 1)
  }

  const F192: nat := Q64 * Q128

  /** A lower bound of 2^192 * 1.0001^(-2^(k - 1)), at most `Width(k)` below it. */
  ghost function Fine(k: nat): nat
    requires 0 < k < 20
  {
    if k == 1 then 0xfff97272373d413259a46990580e2139b8e3eb6b6eb57c54 else
    if k == 2 then 0xfff2e50f5f656932ef12357cf3c7fdcb98a5078da53efa0a else
    if k == 3 then 0xffe5caca7e10e4e61c3624eaa0941ccff04a8a212009efeb else
    if k == 4 then 0xffcb9843d60f6159c9db58835c926643ad7c09ed8821ec81 else
    if k == 5 then 0xff973b41fa98c081472e6896dfb254bf81ef047c569db2b6 else
    if k == 6 then 0xff2ea16466c96a3843ec78b326b5286097e9315c35bff960 else
    if k == 7 then 0xfe5dee046a99a2a811c461f1969c3052f544235f4d64f9cc else
    if k == 8 then 0xfcbe86c7900a88aedcffc83b479aa3a3dc268667328f439e else
    if k == 9 then 0xf987a7253ac413176f2b074cf7815e53facbf1906fa64abc else
    if k == 10 then 0xf3392b0822b70005940c7a398e4b70f2ca02c578b1d4015d else
    if k == 11 then 0xe7159475a2c29b7443b29c7fa6e889d89a78853263d9fb35 else
    if k == 12 then 0xd097f3bdfd2022b8845ad8f792aa58256a3df3fc12a54159 else
    if k == 13 then 0xa9f746462d870fdf8a65dc1f90e061e4fa160424952c52aa else
    if k == 14 then 0x70d869a156d2a1b890bb3df62baf32f6c49744d502095c95 else
    if k == 15 then 0x31be135f97d08fd981231505542fcfa586c1e84cfea0ad09 else
    if k == 16 then 0x9aa508b5b7a84e1c677de54f3e99bc8fdac1d580d26a035 else
    if k == 17 then 0x5d6af8dedb81196699c329225ee6044e0e6dc91ba28443 else
    if k == 18 then 0x2216e584f5fa1ea926041bedfe97b74dcb4ff34b9c9a else
    0x48a170391f7dc42444e8fa23b8ad7d66947e9cf
  }

  ghost function Width(k: nat): nat
    requires 0 < k < 20
  {
    [24, 56, 120, 248, 504, 1016, 2040, 4088, 8184, 16376,
     32760, 65528, 131064, 262136, 524280, 1048568, 2097144, 4194296, 8388600][k - 1]
  }

  ghost predicate Enclosed(k: nat)
    requires 0 < k < 20
  {
    var p, r := Squared(10001, k - 1), Squared(10000, k - 1);
    Fine(k) * p <= F192 * r <= (Fine(k) + Width(k)) * p
  }

  /** Each bound squared is the next one, within its width. */
  lemma FineSquares(k: nat)
    requires 0 < k < 19
    ensures Fine(k + 1) * F192 <= Fine(k) * Fine(k)
    ensures (Fine(k) + Width(k)) * (Fine(k) + Width(k)) <= (Fine(k + 1) + Width(k + 1)) * F192
  {
  }

  lemma {:induction false} EnclosedAll(k: nat)
    requires 0 < k < 20
    ensures Enclosed(k)
  {
    if k > 1 {
      EnclosedAll(k - 1);
      FineSquares(k - 1);
      hide Fine, Width;
      var p, r := Squared(10001, k - 2), Squared(10000, k - 2);
      SquareEnclosure(Fine(k - 1), Fine(k), F192, r, p);
      SquareEnclosureAbove(Fine(k - 1) + Width(k - 1), Fine(k) + Width(k), F192, r, p);
    }
  }

  /** Each constant but the first is 2^128 * 1.0001^(-2^(k - 1)) rounded to the nearest integer. */
  lemma MagicIsNearest(k: nat)
    requires 0 < k < 20
    ensures var p, r := Squared(10001, k - 1), Squared(10000, k - 1);
      -(p as int) <= 2 * (Magic(k) * p) - 2 * (Q128 * r) <= p
  {
    EnclosedAll(k);
    MagicNearFine(k);
    hide Magic, Fine, Width, Squared;
    NearestOfEnclosure(Magic(k), Fine(k), Fine(k) + Width(k), Q128, Squared(10000, k - 1), Squared(10001, k - 1), Q64);
  }

  lemma MagicNearFine(k: nat)
    requires 0 < k < 20
    ensures 2 * Q64 * Magic(k) - Q64 <= 2 * Fine(k) && 2 * (Fine(k) + Width(k)) <= 2 * Q64 * Magic(k) + Q64
  {
  }

  /** How far `x / y` is from sqrt(1.0001), as an error of `e` units in the last place. */
  ghost predicate Apart(x: int, y: int, e: nat) {
    -(e * Q128) <= x * Magic(0) - y * Q128 <= e * Q128
  }

  /** The ratio after `k` set bits, that is, for the tick 2^k - 1. */
  ghost function AllOnes(k: nat): nat
    requires k <= 20
  {
    if k == 0 then Q128 else MulShift(AllOnes(k - 1), Magic(k - 1))
  }

  lemma {:induction false} AllOnesNextToMagic(k: nat)
    requires k < 20
    ensures Apart(AllOnes(k), Magic(k), 3 * k)
  {
    hide Magic, MulShift, Apart;
    if k == 0 {
      ApartAtStart();
    } else {
      AllOnesNextToMagic(k - 1);
      MagicConstants(k - 1);
      var x, c := AllOnes(k - 1), Magic(k - 1);
      ApartAfterShift(x, c, MulShift(x, c), MulShift(c, c), c, 3 * (k - 1)) by {
        MulShiftFloor(x, c);
        MulShiftFloor(c, c);
      }
      SquareNextToMagic(k - 1);
      ApartNearby(AllOnes(k), MulShift(c, c), Magic(k), 3 * k - 2);
    }
  }

  lemma ApartAtStart()
    ensures Apart(Q128, Magic(0), 0)
  {
    hide Magic;
  }

  lemma MulShiftFloor(x: nat, c: nat)
    ensures MulShift(x, c) * Q128 <= x * c < MulShift(x, c) * Q128 + Q128
  {
    FloorDiv(x * c, Q128);
  }

  /** One truncated product with a common factor adds at most one unit to the error. */
  lemma ApartAfterShift(x: nat, y: nat, x1: nat, y1: nat, c: nat, e: nat)
    requires Apart(x, y, e) && c <= Q128
    requires x1 * Q128 <= x * c < x1 * Q128 + Q128 && y1 * Q128 <= y * c < y1 * Q128 + Q128
    ensures Apart(x1, y1, e + 1)
  {
    MagicConstants(0);
    hide Magic;
    TruncatedProducts(x, y, x1, y1, c, e, Q128, Magic(0));
  }

  lemma ApartNearby(x: nat, y: nat, y1: nat, e: nat)
    requires Apart(x, y, e) && -2 <= y - y1 <= 2
    ensures Apart(x, y1, e + 2)
  {
    hide Magic;
  }

  lemma SquareNextToMagic(k: nat)
    requires k < 19
    ensures -2 <= MulShift(Magic(k), Magic(k)) - Magic(k + 1) <= 2
  {
    MagicConstants(k);
  }

  // ---- Neighbouring ticks -----------------------------------------------------------------

  /**
   * Ladders of `t` and `t + 1`, bit by bit: while the carry runs the one is all constants so
   * far and the other none; from the bit where it stops on, both take the same products.
   */
  ghost predicate Neighbours(t: nat, k: nat)
    requires k <= 20
  {
    var x, y := LadderTo(t, k), LadderTo(t + 1, k);
    if Carry(t, k) then x == AllOnes(k) && y == Q128
    else y <= x && Apart(x, y, 4 * k)
  }

  lemma ApartOrdered(x: nat, y: nat, e: nat)
    requires Apart(x, y, e) && e < 80 && y > Q64
    ensures y < x
  {
  }

  lemma MulShiftMono(x: nat, y: nat, c: nat)
    requires y <= x
    ensures MulShift(y, c) <= MulShift(x, c)
  {
    MulMono(y, x, c);
    FloorDivMono(y * c, x * c, Q128);
  }

  lemma NeighboursStep(t: nat, k: nat)
    requires k < 20 && Neighbours(t, k)
    ensures Neighbours(t, k + 1)
  {
    hide Magic, Bit, Carry;
    CarrySucc(t, k);
    BitOfSucc(t, k);
    MagicConstants(k);
    var x, y := LadderTo(t, k), LadderTo(t + 1, k);
    if Carry(t, k) {
      if !Bit(t, k) {
        AllOnesNextToMagic(k);
        ApartOrdered(AllOnes(k), Magic(k), 3 * k);
        FirstFactor(k);
      }
    } else if Bit(t, k) {
      MulShiftMono(x, y, Magic(k));
      MulShiftFloor(x, Magic(k));
      MulShiftFloor(y, Magic(k));
      ApartAfterShift(x, y, MulShift(x, Magic(k)), MulShift(y, Magic(k)), Magic(k), 4 * k);
    }
  }

  lemma FirstFactor(k: nat)
    requires k < 20
    ensures MulShift(Q128, Magic(k)) == Magic(k)
  {
  }

  lemma {:induction false} NeighboursAll(t: nat, k: nat)
    requires k <= 20
    ensures Neighbours(t, k)
  {
    if k > 0 {
      NeighboursAll(t, k - 1);
      NeighboursStep(t, k - 1);
    }
  }

  lemma NoCarryOut(t: nat)
    requires t < MAX_TICK
    ensures !Carry(t, 20)
  {
    assert Pow2(10) == 1024;
    assert Pow2(20) == 1024 * 1024;
    if Carry(t, 20) {
      CarryIsLarge(t, 20);
    }
  }

  lemma LadderStep(t: nat)
    requires t < MAX_TICK
    ensures Ladder(t + 1) <= Ladder(t) && Apart(Ladder(t), Ladder(t + 1), 80)
  {
    hide LadderTo, Carry, Magic;
    NeighboursAll(t, 20);
    NoCarryOut(t);
  }

  lemma Rung(t: nat, k: nat, r: nat)
    requires k < 20 && LadderTo(t, k) == r
    ensures LadderTo(t, k + 1) == if Bit(t, k) then r * Magic(k) / Q128 else r
  {
    hide Magic;
  }

  /** The highest tick in binary. */
  lemma BitsOfMaxTick()
    ensures forall k: nat :: k < 20 ==> (Bit(887272, k) <==> k in {3, 5, 6, 7, 8, 11, 15, 16, 18, 19})
  {
    hide Bit;
    forall k: nat | k < 20 ensures Bit(887272, k) <==> k in {3, 5, 6, 7, 8, 11, 15, 16, 18, 19} {
      FiveBits(887272, k);
      if k >= 5 {
        FiveBits(27727, k - 5);
      }
      if k >= 10 {
        FiveBits(866, k - 10);
      }
      if k >= 15 {
        FiveBits(27, k - 15);
      }
    }
  }

  lemma FiveBits(t: nat, k: nat)
    ensures Bit(t, k) == if k == 0 then t % 2 == 1 else if k == 1 then t / 2 % 2 == 1 else if k == 2 then t / 4 % 2 == 1
                         else if k == 3 then t / 8 % 2 == 1 else if k == 4 then t / 16 % 2 == 1 else Bit(t / 32, k - 5)
  {
    assert k >= 1 ==> Bit(t, k) == Bit(t / 2, k - 1);
    assert k >= 2 ==> Bit(t / 2, k - 1) == Bit(t / 4, k - 2);
    assert k >= 3 ==> Bit(t / 4, k - 2) == Bit(t / 8, k - 3);
    assert k >= 4 ==> Bit(t / 8, k - 3) == Bit(t / 16, k - 4);
    assert k >= 5 ==> Bit(t / 16, k - 4) == Bit(t / 32, k - 5);
  }

  lemma LadderHalfway()
    ensures LadderTo(887272, 10) == 0xf9d459c5817dbafa9e376ae84dcfeb8b
  {
    hide LadderTo, Bit;
    BitsOfMaxTick();
    assert LadderTo(887272, 0) == Q128 by {
      NoRungs(887272);
    }
    Rung(887272, 0, Q128);
    Rung(887272, 1, 0x100000000000000000000000000000000);
    Rung(887272, 2, 0x100000000000000000000000000000000);
    Rung(887272, 3, 0x100000000000000000000000000000000);
    Rung(887272, 4, 0xffe5caca7e10e4e61c3624eaa0941cd0);
    Rung(887272, 5, 0xffe5caca7e10e4e61c3624eaa0941cd0);
    Rung(887272, 6, 0xff7d10c63a977157da4140deb6f31a7b);
    Rung(887272, 7, 0xfeac1d4052f7714818b490c1138ea058);
    Rung(887272, 8, 0xfd0c3654da9e033741d1a9f93707f6f6);
    Rung(887272, 9, 0xf9d459c5817dbafa9e376ae84dcfeb8b);
  }

  lemma NoRungs(t: nat)
    ensures LadderTo(t, 0) == Q128
  {
  }

  lemma LadderAtMaxTick()
    ensures Ladder(887272) == 18447437462383981825
  {
    hide LadderTo, Bit;
    BitsOfMaxTick();
    LadderHalfway();
    Rung(887272, 10, 0xf9d459c5817dbafa9e376ae84dcfeb8b);
    Rung(887272, 11, 0xf9d459c5817dbafa9e376ae84dcfeb8b);
    Rung(887272, 12, 0xe183ac4e25d5949966242a64e9c80e2f);
    Rung(887272, 13, 0xe183ac4e25d5949966242a64e9c80e2f);
    Rung(887272, 14, 0xe183ac4e25d5949966242a64e9c80e2f);
    Rung(887272, 15, 0xe183ac4e25d5949966242a64e9c80e2f);
    Rung(887272, 16, 0x2bd1a4c5d2a1181aca1ef15e64c2e3cf);
    Rung(887272, 17, 0x1a785cbbdc050483e3be5812760be73);
    Rung(887272, 18, 0x1a785cbbdc050483e3be5812760be73);
    Rung(887272, 19, 0x3865a6455d07d2bc87c5956d2e);
  }

  lemma {:induction false} LadderAboveMax(t: nat)
    requires t <= MAX_TICK
    ensures Ladder(887272) <= Ladder(t)
    decreases MAX_TICK - t
  {
    if t < MAX_TICK {
      LadderStep(t);
      LadderAboveMax(t + 1);
    }
  }

  lemma {:induction false} LadderToBounds(t: nat, k: nat)
    requires k <= 20
    ensures LadderTo(t, k) <= Q128
  {
    if k > 0 {
      LadderToBounds(t, k - 1);
      MagicConstants(k - 1);
      MulShiftMono(Q128, LadderTo(t, k - 1), Magic(k - 1));
      FirstFactor(k - 1);
    }
  }

  /** No product of the ladder leaves 256 bits, and the ratio keeps at least 64. */
  lemma LadderRange(t: nat)
    requires t <= MAX_TICK
    ensures Q64 < Ladder(t) <= Q128
    ensures forall k: nat :: k < 20 ==> LadderTo(t, k) * Magic(k) <= MAX_UINT256
  {
    LadderAboveMax(t);
    LadderAtMaxTick();
    LadderToBounds(t, 20);
    forall k: nat | k < 20 ensures LadderTo(t, k) * Magic(k) <= MAX_UINT256 {
      LadderToBounds(t, k);
      MagicConstants(k);
      MulMono(LadderTo(t, k), Q128, Magic(k));
    }
  }

  // ---- Prices of neighbouring ticks -------------------------------------------------------

  predicate ValidTick(tick: int) {
    MIN_TICK <= tick <= MAX_TICK
  }

  lemma RoundUp32Bounds(r: nat)
    ensures r <= RoundUp32(r) * Q32 < r + Q32
  {
  }

  /** `f` is the quotient of prices `p` over `q` up to two units and a relative 2^-57. */
  ghost predicate PriceStep(p: int, q: int) {
    var slack := 2 * Q128 + q * 0x800000000000000000;
    -slack <= p * Q128 - q * Magic(0) <= slack
  }

  /** Rounding both ratios up to 96 bits costs one more unit. */
  lemma RoundedStep(r: nat, s: nat)
    requires -(Q128 * Q64 + 80 * Q128 * s) <= (r * Q128 - s * Magic(0)) * Q64 <= Q128 * Q64 + 80 * Q128 * s
    ensures PriceStep(RoundUp32(r), RoundUp32(s))
  {
    RoundUp32Bounds(r);
    RoundUp32Bounds(s);
  }

  lemma StepBelowZero(tick: int)
    requires MIN_TICK <= tick < 0
    ensures PriceStep(SqrtPriceX96(tick), SqrtPriceX96(tick + 1))
  {
    hide Magic, LadderTo, RoundUp32;
    LadderStep(-tick - 1);
    LadderRange(-tick - 1);
    RoundedStep(Ladder(-tick), Ladder(-tick - 1));
  }

  lemma StepAboveZero(tick: int)
    requires 0 <= tick < MAX_TICK
    ensures PriceStep(SqrtPriceX96(tick), SqrtPriceX96(tick + 1))
  {
    hide Magic, LadderTo, RoundUp32;
    var x, y := Ladder(tick), Ladder(tick + 1);
    LadderStep(tick);
    LadderRange(tick);
    LadderRange(tick + 1);
    QuotientDifference(x, y, MAX_UINT256 / x, MAX_UINT256 / y, MAX_UINT256, 80 * Q128, Q128, Magic(0), Q64);
    RoundedStep(MAX_UINT256 / x, MAX_UINT256 / y);
    if tick == 0 {
      LadderOfZero(20);
      ReciprocalOfOne();
    }
  }

  lemma {:induction false} LadderOfZero(k: nat)
    requires k <= 20
    ensures LadderTo(0, k) == Q128
  {
    if k > 0 {
      LadderOfZero(k - 1);
      BitOfZero(k - 1);
    }
  }

  lemma {:induction false} BitOfZero(k: nat)
    ensures !Bit(0, k)
  {
    if k > 0 {
      BitOfZero(k - 1);
    }
  }

  lemma ReciprocalOfOne()
    ensures RoundUp32(MAX_UINT256 / Q128) == RoundUp32(Q128) == Q96
  {
  }

  lemma SqrtPriceStep(tick: int)
    requires MIN_TICK <= tick < MAX_TICK
    ensures PriceStep(SqrtPriceX96(tick), SqrtPriceX96(tick + 1))
  {
    if tick < 0 {
      StepBelowZero(tick);
    } else {
      StepAboveZero(tick);
    }
  }

  /**
   * The price is rounded up: to 96 fractional bits from the ladder for ticks up to zero, and from
   * its reciprocal above.
   */
  lemma PriceIsRoundedUp(tick: int)
    requires ValidTick(tick)
    ensures var p, x := SqrtPriceX96(tick), Ladder(Abs(tick));
      && (tick <= 0 ==> (p - 1) * 0x1_0000_0000 < x <= p * 0x1_0000_0000)
      && (tick > 0 ==>
            ((p - 1) * Q32 + 1) * x <= MAX_UINT256 < (p * Q32 + 1) * x && Q32 == 0x1_0000_0000
            && MAX_UINT256 == 0xffffffffffffffffffffffffffffffffffffffffffffffffffffffffffffffff)
  {
    hide Magic, LadderTo, RoundUp32;
    var p, x := SqrtPriceX96(tick), Ladder(Abs(tick));
    LadderRange(Abs(tick));
    RoundUp32Bounds(x);
    if tick > 0 {
      RoundUp32Bounds(MAX_UINT256 / x);
      RoundedUpQuotient(MAX_UINT256, x, MAX_UINT256 / x, (p - 1) * Q32 + 1, p * Q32);
    }
  }

  /** Every usable price is at least 2^32, so a step of sqrt(1.0001) dwarfs the rounding. */
  lemma SqrtPriceLarge(tick: int)
    requires ValidTick(tick)
    ensures SqrtPriceX96(tick) >= Q32
  {
    hide Magic, LadderTo;
    LadderRange(Abs(tick));
    var x := Ladder(Abs(tick));
    RoundUp32Bounds(x);
    if tick > 0 {
      FloorDiv(MAX_UINT256, x);
      if MAX_UINT256 / x < Q64 {
        MulMono(MAX_UINT256 / x, Q64, x);
      }
      RoundUp32Bounds(MAX_UINT256 / x);
    }
  }

  /** sqrt(1.0001) lies between the two outer factors over 10^15. */
  lemma LinearStep(p: nat, q: nat)
    requires PriceStep(p, q) && p >= Q32
    ensures p * 1000049998284370 <= q * 1000000000000000 <= p * 1000049999215760
  {
    var slack := 0x800000000000000000;
    CrossRatio(q, p, Magic(0) - slack, Q128 + 2 * Q96, 1000000000000000, 1000049999215760);
    CrossRatio(p, q, Q128 - 2 * Q96, Magic(0) + slack, 1000049998284370, 1000000000000000);
  }

  /**
   * The price ratio of neighbouring ticks, (f(t + 1) / f(t))^2, is 1.0001 to one part in 10^9.
   */
  lemma PriceFactor(tick: int)
    requires MIN_TICK <= tick < MAX_TICK
    ensures var p, q := SqrtPriceX96(tick), SqrtPriceX96(tick + 1);
      10001 * 999999999 * (p * p) <= 10000 * 1000000000 * (q * q) <= 10001 * 1000000001 * (p * p)
  {
    hide Magic, LadderTo;
    var p, q := SqrtPriceX96(tick), SqrtPriceX96(tick + 1);
    SqrtPriceStep(tick);
    SqrtPriceLarge(tick);
    LinearStep(p, q);
    SquareBounds(p, q, 1000049998284370, 1000000000000000, 1000049999215760);
  }

  lemma SquareBounds(p: nat, q: nat, lo: nat, mid: nat, hi: nat)
    requires p * lo <= q * mid <= p * hi
    ensures p * p * (lo * lo) <= q * q * (mid * mid) <= p * p * (hi * hi)
  {
    SquareMono(p * lo, q * mid);
    SquareMono(q * mid, p * hi);
    SquareOfProduct(p, lo);
    SquareOfProduct(q, mid);
    SquareOfProduct(p, hi);
  }

  /** The sqrt price is strictly increasing in the tick. */
  lemma {:induction false} StrictlyIncreasing(s: int, t: int)
    requires MIN_TICK <= s < t <= MAX_TICK
    ensures SqrtPriceX96(s) < SqrtPriceX96(t)
    decreases t - s
  {
    hide Magic, LadderTo;
    SqrtPriceStep(t - 1);
    SqrtPriceLarge(t - 1);
    LinearStep(SqrtPriceX96(t - 1), SqrtPriceX96(t));
    if s < t - 1 {
      StrictlyIncreasing(s, t - 1);
    }
  }

  lemma Endpoints()
    ensures SqrtPriceX96(-887272) == MIN_SQRT == 4295128739
    ensures SqrtPriceX96(0) == Q96 == 0x1_0000_0000_0000_0000_0000_0000
    ensures SqrtPriceX96(887272) == MAX_SQRT == 1461446703485210103287273052203988822378723970342
  {
    LadderAtMaxTick();
    LadderOfZero(20);
  }

  /** Exactly the ticks in range have a price, and their prices fill [MIN_SQRT, MAX_SQRT]. */
  lemma SqrtPriceRange(tick: int)
    ensures -887272 <= tick <= 887272 <==> SqrtPriceX96(tick) != 0
    ensures ValidTick(tick) ==> MIN_SQRT <= SqrtPriceX96(tick) <= MAX_SQRT
  {
    hide Magic, LadderTo;
    if ValidTick(tick) {
      Endpoints();
      if MIN_TICK < tick { StrictlyIncreasing(MIN_TICK, tick); }
      if tick < MAX_TICK { StrictlyIncreasing(tick, MAX_TICK); }
    }
  }

  /** Opposite ticks have reciprocal prices up to the two roundings. */
  lemma OppositeTicks(tick: int)
    requires ValidTick(tick)
    ensures var a, b := SqrtPriceX96(tick), SqrtPriceX96(-tick);
      -(a + b + Q64) <= a * b - Q96 * Q96 <= a + b + Q64
  {
    if tick == 0 {
      Endpoints();
    } else {
      OppositePair(Abs(tick));
      assert SqrtPriceX96(tick) * SqrtPriceX96(-tick) == SqrtPriceX96(-tick) * SqrtPriceX96(tick);
    }
  }

  lemma OppositePair(t: int)
    requires 0 < t <= MAX_TICK
    ensures var a, b := SqrtPriceX96(t), SqrtPriceX96(-t);
      -(a + b + Q64) <= a * b - Q96 * Q96 <= a + b + Q64
  {
    hide Magic, LadderTo, RoundUp32;
    var x := Ladder(t);
    LadderRange(t);
    var g := MAX_UINT256 / x;
    FloorDiv(MAX_UINT256, x);
    RoundUp32Bounds(x);
    RoundUp32Bounds(g);
    var a, b := RoundUp32(g), RoundUp32(x);
    RoundedProduct(g, x, a * Q32, b * Q32, Q32);
    Reassociate(a, Q32, b * Q32);
    Reassociate(b, Q32, a);
    UnscaledProduct(a, b, g * x, a * b, x, g);
  }

  lemma UnscaledProduct(a: nat, b: nat, gx: nat, ab: nat, x: nat, g: nat)
    requires gx <= MAX_UINT256 < gx + x && x <= Q128 && g <= a * Q32 && x <= b * Q32
    requires gx <= ab * Q64 <= gx + Q32 * x + Q32 * g + Q64
    ensures -(a + b + Q64) <= ab - Q96 * Q96 <= a + b + Q64
  {
  }

  lemma RoundedProduct(g: nat, x: nat, a: nat, b: nat, w: nat)
    requires g <= a <= g + w && x <= b <= x + w
    ensures g * x <= a * b <= g * x + w * x + w * g + w * w
  {
    MulMono(g, a, x);
    MulMono(x, b, a);
    MulMono(a, g + w, b);
    MulMono(b, x + w, g + w);
    ExpandProduct(g, x, w);
  }

  lemma ExpandProduct(g: int, x: int, w: int)
    ensures (g + w) * (x + w) == g * x + w * x + w * g + w * w
  {
    Distribute(g, w, x + w);
    Distribute(x, w, g);
    Distribute(x, w, w);
  }

  // ---- Usable ticks -----------------------------------------------------------------------

  /** `Math.round(tick / spacing) * spacing`; halves round up. */
  function RoundedTick(tick: int, spacing: int): int
    requires spacing > 0
  {
    (2 * tick + spacing) / (2 * spacing) * spacing
  }

  function NearestUsableTick(tick: int, spacing: int): int
    requires spacing > 0
  {
    var rounded := RoundedTick(tick, spacing);
    if rounded < MIN_TICK then MIN_TICK else if rounded > MAX_TICK then MAX_TICK else rounded
  }

  lemma RoundedTickIsNearest(tick: int, spacing: int, k: int)
    requires spacing > 0
    ensures Abs(RoundedTick(tick, spacing) - tick) <= Abs(k * spacing - tick)
  {
    var q := (2 * tick + spacing) / (2 * spacing);
    FloorDiv(2 * tick + spacing, 2 * spacing);
    Reassociate(q, 2, spacing);
    assert -spacing <= 2 * (q * spacing - tick) <= spacing;
    if k < q {
      MulMono(k, q - 1, spacing);
      Distribute(q, 1, spacing);
    } else if q < k {
      MulMono(q + 1, k, spacing);
      Distribute(q, 1, spacing);
    }
  }

  /**
   * The result is in range, and is the nearest multiple of the spacing unless it was clamped;
   * a clamped result is a multiple only when the spacing divides 887272.
   */
  lemma NearestUsableTickIsMultiple(tick: int, spacing: int)
    requires spacing > 0
    ensures ValidTick(NearestUsableTick(tick, spacing))
    ensures NearestUsableTick(tick, spacing) % spacing == 0
       <==> ValidTick(RoundedTick(tick, spacing)) || MAX_TICK % spacing == 0
  {
    MultipleMod((2 * tick + spacing) / (2 * spacing), spacing);
    NegatedMod(MAX_TICK, spacing);
  }

  /** The rounding goes down exactly in the lower half of a spacing, and then to the next multiple below. */
  lemma RoundedTickGoesDown(tick: int, spacing: int)
    requires spacing > 0
    ensures RoundedTick(tick, spacing)
        == tick / spacing * spacing + if 2 * (tick % spacing) < spacing then 0 else spacing
    ensures RoundedTick(tick, spacing) <= tick <==> 2 * (tick % spacing) < spacing
  {
    var below, rest := tick / spacing, tick % spacing;
    var q := if 2 * rest < spacing then below else below + 1;
    assert tick == below * spacing + rest;
    Distribute(below, 1, spacing);
    Reassociate(q, 2, spacing);
    FloorDivUnique(2 * tick + spacing, 2 * spacing, q);
  }

  /**
   * The documentation promises the tick rounded down to a usable one. The result is not above
   * the tick, and is that multiple below it, exactly under these conditions.
   */
  lemma NearestUsableTickRoundsDown(tick: int, spacing: int)
    requires spacing > 0
    ensures NearestUsableTick(tick, spacing) <= tick
       <==> tick >= MIN_TICK && (2 * (tick % spacing) < spacing || tick >= MAX_TICK)
    ensures var below := tick / spacing * spacing;
      NearestUsableTick(tick, spacing) == below <==>
      (2 * (tick % spacing) < spacing && ValidTick(below)) || below == MAX_TICK
  {
    RoundedTickGoesDown(tick, spacing);
    FloorDiv(tick, spacing);
  }

  /** No tick from -887272 to 887272 is closer to the rounded one, so that is what it is clamped to. */
  lemma NearestUsableTickIsClosest(tick: int, spacing: int, valid: int)
    requires spacing > 0 && -887272 <= valid <= 887272
    ensures -887272 <= NearestUsableTick(tick, spacing) <= 887272
    ensures var rounded := RoundedTick(tick, spacing);
      Abs(NearestUsableTick(tick, spacing) - rounded) <= Abs(valid - rounded)
  {
    hide RoundedTick;
  }

  /** Rounded up, and clamped to a tick that is not usable. */
  lemma NearestUsableTickExamples()
    ensures NearestUsableTick(59, 60) == 60
    ensures NearestUsableTick(887272, 60) == 887272 && 887272 % 60 != 0
  {
  }

  lemma MultipleMod(q: int, s: int)
    requires s > 0
    ensures q * s % s == 0
  {
    FloorDivUnique(q * s, s, q);
    FloorDiv(q * s, s);
    assert q * s == q * s / s * s + q * s % s;
  }

  lemma NegatedMod(a: int, s: int)
    requires s > 0
    ensures a % s == 0 <==> (-a) % s == 0
  {
    assert a == a / s * s + a % s;
    assert -a == (-a) / s * s + (-a) % s;
    if a % s == 0 {
      MultipleMod(-(a / s), s);
      assert -(a / s) * s == -(a / s * s);
    }
    if (-a) % s == 0 {
      MultipleMod(-((-a) / s), s);
      assert -((-a) / s) * s == -((-a) / s * s);
    }
  }
}
