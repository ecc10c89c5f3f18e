/** The display rounding of decimal strings, apps/web/lib/liquidityAmounts.ts. */
module DecimalStrings {
  import opened Arith

  predicate IsDigit(c: char) {
    '0' <= c <= '9'
  }

  predicate IsDigits(s: string) {
    forall i :: 0 <= i < |s| ==> IsDigit(s[i])
  }

  function DigitChar(n: nat): char
    requires n < 10
  {
    (n + '0' as int) as char
  }

  /** The number a run of digits spells; `BigInt("")` is 0. */
  function DigitsVal(s: string): nat
    requires IsDigits(s)
  {
    if s == "" then 0 else 10 * DigitsVal(s[..|s| - 1]) + (s[|s| - 1] as int - '0' as int)
  }

  /** `n.toString()`. */
  function ToDigits(n: nat): (s: string)
    ensures s != "" && IsDigits(s) && DigitsVal(s) == n && (n > 0 ==> s[0] != '0') && (n == 0 ==> s == "0")
  {
    if n < 10 then [DigitChar(n)] else ToDigits(n / 10) + [DigitChar(n % 10)]
  }

  function IntToString(n: int): string {
    if n < 0 then "-" + ToDigits(-n) else ToDigits(n)
  }

  function PadStart(s: string, width: nat): string
    decreases width - |s|
  {
    if |s| < width then PadStart("0" + s, width) else s
  }

  /** Index of the first `.`, or the length. */
  function DotIndex(s: string): (i: nat)
    ensures i <= |s| && '.' !in s[..i] && (i < |s| ==> s[i] == '.')
  {
    if s == "" || s[0] == '.' then 0 else
      var i := 1 + DotIndex(s[1..]);
      assert s[..i] == [s[0]] + s[1..][..i - 1];
      i
  }

  /** `s.replace(/0+$/, "")`. */
  function DropZeros(s: string): string {
    if s != "" && s[|s| - 1] == '0' then DropZeros(s[..|s| - 1]) else s
  }

  function TrimTrailingZeros(s: string): string {
    if '.' !in s then s
    else
      var t := DropZeros(s);
      if t != "" && t[|t| - 1] == '.' then t[..|t| - 1] else t
  }

  /** `BigInt(intPart)` of an optionally signed run of digits. */
  function SignedVal(s: string): int
    requires IsDigits(s) || (|s| > 0 && s[0] == '-' && IsDigits(s[1..]))
  {
    if |s| > 0 && s[0] == '-' then -(DigitsVal(s[1..]) as int) else DigitsVal(s)
  }

  /** Truncating division and its remainder. */
  function BigRem(a: int, b: int): int
    requires b > 0
  {
    a - BigDiv(a, b) * b
  }

  /** A decimal string from its parts; `neg` is the sign, `f` the digits after the point. */
  function Decimal(neg: bool, i: string, f: string): string {
    (if neg then "-" else "") + i + (if f == "" then "" else "." + f)
  }

  /** A number of 10^-d units written out, as the rounding up does it. */
  function CarriedString(combined: int, maxDecimals: nat): string {
    var scale := Pow10(maxDecimals);
    var newInt := IntToString(BigDiv(combined, scale));
    if maxDecimals == 0 then newInt
    else TrimTrailingZeros(newInt + "." + PadStart(IntToString(BigRem(combined, scale)), maxDecimals))
  }

  function RoundDecimalParts(intPart: string, fracPart: string, maxDecimals: nat): string
    requires IsDigits(intPart) || (|intPart| > 0 && intPart[0] == '-' && IsDigits(intPart[1..]))
    requires IsDigits(fracPart) && maxDecimals < |fracPart|
  {
    var kept := fracPart[..maxDecimals];
    if fracPart[maxDecimals] < '5' then
      TrimTrailingZeros(if maxDecimals == 0 then intPart else intPart + "." + kept)
    else
      CarriedString(SignedVal(intPart) * Pow10(maxDecimals) + DigitsVal(kept) + 1, maxDecimals)
  }

  ghost predicate IsDecimal(s: string) {
    exists neg, i, f :: i != "" && IsDigits(i) && IsDigits(f) && s == Decimal(neg, i, f)
  }

  lemma SplitAtDot(head: string, f: string)
    requires '.' !in head
    ensures DotIndex(head + "." + f) == |head|
    ensures (head + "." + f)[..|head|] == head && (head + "." + f)[|head| + 1..] == f
  {
    FirstDotIs(head + "." + f, |head|);
  }

  lemma {:induction false} FirstDotIs(s: string, k: nat)
    requires k < |s| && s[k] == '.' && '.' !in s[..k]
    ensures DotIndex(s) == k
  {
    if k > 0 {
      assert s[..k][0] == s[0];
      assert s[..k][1..] == s[1..][..k - 1];
      FirstDotIs(s[1..], k - 1);
    }
  }

  function RoundDecimalStr(s: string, maxDecimals: nat): string
    requires IsDecimal(s)
  {
    if '.' !in s then s
    else
      var dot := DotIndex(s);
      var intPart, fracPart := s[..dot], s[dot + 1..];
      PartsOfDecimal(s);
      if |fracPart| <= maxDecimals then s
      else RoundDecimalParts(intPart, fracPart, maxDecimals)
  }

  lemma PartsOfDecimal(s: string)
    requires IsDecimal(s) && '.' in s
    ensures var dot := DotIndex(s);
      && dot < |s| && IsDigits(s[dot + 1..])
      && (IsDigits(s[..dot]) || (|s[..dot]| > 0 && s[..dot][0] == '-' && IsDigits(s[..dot][1..])))
  {
    var neg, i, f :| i != "" && IsDigits(i) && IsDigits(f) && s == Decimal(neg, i, f);
    if f == "" {
      NoPoint(neg, i);
    } else {
      SplitDecimal(neg, i, f);
    }
  }

  lemma NoPoint(neg: bool, i: string)
    requires IsDigits(i)
    ensures '.' !in Decimal(neg, i, "")
  {
    assert Decimal(neg, i, "") == (if neg then "-" else "") + i;
  }

  lemma SplitDecimal(neg: bool, i: string, f: string)
    requires i != "" && IsDigits(i) && IsDigits(f) && f != ""
    ensures var s, head := Decimal(neg, i, f), (if neg then "-" else "") + i;
      && '.' in s && DotIndex(s) == |head| && s[..|head|] == head && s[|head| + 1..] == f
      && (neg ==> head[0] == '-' && head[1..] == i) && (!neg ==> head == i)
  {
    var head := (if neg then "-" else "") + i;
    SplitAtDot(head, f);
    assert Decimal(neg, i, f) == head + "." + f;
    assert (head + "." + f)[|head|] == '.';
  }

  // ---- Values of digit strings ------------------------------------------------------------

  lemma {:induction false} DigitsConcat(a: string, b: string)
    requires IsDigits(a) && IsDigits(b)
    ensures IsDigits(a + b) && DigitsVal(a + b) == DigitsVal(a) * Pow10(|b|) + DigitsVal(b)
  {
    if b == "" {
      assert a + b == a;
    } else {
      var b' := b[..|b| - 1];
      assert (a + b)[..|a + b| - 1] == a + b';
      DigitsConcat(a, b');
      Reassociate(DigitsVal(a), 10, Pow10(|b'|));
    }
  }

  lemma {:induction false} DigitsBound(s: string)
    requires IsDigits(s)
    ensures DigitsVal(s) < Pow10(|s|)
  {
    if s != "" {
      DigitsBound(s[..|s| - 1]);
    }
  }

  lemma {:induction false} ToDigitsShort(n: nat, k: nat)
    requires k > 0 && n < Pow10(k)
    ensures |ToDigits(n)| <= k
  {
    if n >= 10 {
      assert Pow10(k) == 10 * Pow10(k - 1);
      ToDigitsShort(n / 10, k - 1);
    }
  }

  lemma {:induction false} PadValue(s: string, width: nat)
    requires IsDigits(s)
    ensures var p := PadStart(s, width); IsDigits(p) && DigitsVal(p) == DigitsVal(s) && (|s| <= width ==> |p| == width)
    decreases width - |s|
  {
    if |s| < width {
      PadValue("0" + s, width);
      DigitsConcat("0", s);
      assert DigitsVal("0") == 0;
    }
  }

  lemma {:induction false} DropZerosValue(k: string)
    requires IsDigits(k)
    ensures var t := DropZeros(k);
      IsDigits(t) && t <= k && Tidy(t) && DigitsVal(t) * Pow10(|k| - |t|) == DigitsVal(k)
  {
    if k != "" && k[|k| - 1] == '0' {
      var k' := k[..|k| - 1];
      DropZerosValue(k');
      var t := DropZeros(k');
      Reassociate(DigitsVal(t), 10, Pow10(|k'| - |t|));
    }
  }

  lemma {:induction false} DropZerosKeepsHead(head: string, k: string)
    requires IsDigits(k)
    ensures DropZeros(head + "." + k) == head + "." + DropZeros(k)
  {
    var s := head + "." + k;
    if k != "" && k[|k| - 1] == '0' {
      assert s[..|s| - 1] == head + "." + k[..|k| - 1];
      DropZerosKeepsHead(head, k[..|k| - 1]);
    } else {
      assert s[|s| - 1] == if k == "" then '.' else k[|k| - 1];
    }
  }

  lemma TrimShape(head: string, k: string)
    requires IsDigits(k)
    ensures TrimTrailingZeros(head + "." + k) == head + (if DropZeros(k) == "" then "" else "." + DropZeros(k))
  {
    hide DigitsVal;
    DropZerosKeepsHead(head, k);
    DropZerosValue(k);
    assert (head + "." + k)[|head|] == '.';
    TrimBarePoint(head, DropZeros(k));
  }

  lemma TrimBarePoint(head: string, z: string)
    requires IsDigits(z)
    ensures var t := head + "." + z;
      (if t[|t| - 1] == '.' then t[..|t| - 1] else t) == head + (if z == "" then "" else "." + z)
  {
    var t := head + "." + z;
    if z == "" {
      assert t[..|t| - 1] == head;
    } else {
      assert t[|t| - 1] == z[|z| - 1];
      assert t == head + ("." + z);
    }
  }

  /** No zero at the end. */
  ghost predicate Tidy(f: string) {
    f == "" || f[|f| - 1] != '0'
  }

  /** No zero at the front, but for the number zero. */
  ghost predicate Plain(i: string) {
    |i| == 1 || (|i| > 1 && i[0] != '0')
  }

  /** Trimming keeps the value: exactly the zeros at the end, and a point left bare, go. */
  lemma TrimTrailingZerosKeepsValue(neg: bool, i: string, k: string)
    requires i != "" && IsDigits(i) && IsDigits(k)
    ensures IsDigits(DropZeros(k)) && DropZeros(k) <= k && Tidy(DropZeros(k))
    ensures TrimTrailingZeros((if neg then "-" else "") + i + "." + k) == Decimal(neg, i, DropZeros(k))
    ensures Scaled(i, DropZeros(k), |k|) == Scaled(i, k, |k|)
  {
    hide TrimTrailingZeros, DropZeros, DigitsVal, Pow10, Scaled, Decimal, IsDigits, Tidy;
    DropZerosValue(k);
    TrimmedDecimal(neg, i, k);
    SameScaled(i, DropZeros(k), k);
  }

  lemma TrimmedDecimal(neg: bool, i: string, k: string)
    requires IsDigits(k)
    ensures TrimTrailingZeros((if neg then "-" else "") + i + "." + k) == Decimal(neg, i, DropZeros(k))
  {
    hide TrimTrailingZeros, DropZeros, IsDigits;
    if neg {
      TrimShape("-" + i, k);
    } else {
      assert "" + i == i;
      TrimShape(i, k);
    }
  }

  lemma SameScaled(i: string, z: string, k: string)
    requires IsDigits(i) && IsDigits(z) && IsDigits(k) && |z| <= |k| && DigitsVal(k) == DigitsVal(z) * Pow10(|k| - |z|)
    ensures Scaled(i, z, |k|) == Scaled(i, k, |k|)
  {
    hide DigitsVal;
    assert Pow10(0) == 1;
    hide Pow10;
  }

  // ---- Rounding ---------------------------------------------------------------------------

  /** The magnitude of `i.f` in units of 10^-d. */
  ghost function Scaled(i: string, f: string, d: nat): nat
    requires IsDigits(i) && IsDigits(f) && |f| <= d
  {
    DigitsVal(i) * Pow10(d) + DigitsVal(f) * Pow10(d - |f|)
  }

  /** `i.f` rounded half up to `d` digits, in units of 10^-d. */
  ghost function HalfUp(i: string, f: string, d: nat): int
    requires IsDigits(i) && IsDigits(f) && d < |f|
  {
    (DigitsVal(i + f) + 5 * Pow10(|f| - d - 1)) / Pow10(|f| - d)
  }

  /**
   * `r` is a decimal of the same sign, with at most `d` digits, of the rounded magnitude. It ends
   * in no zero, and its integer part is the given one, or one written anew after a carry.
   */
  ghost predicate RoundsTo(r: string, neg: bool, i: string, f: string, d: nat)
    requires IsDigits(i) && IsDigits(f) && d < |f|
  {
    exists i2, f2 :: i2 != "" && IsDigits(i2) && IsDigits(f2) && |f2| <= d
      && r == Decimal(neg, i2, f2) && Scaled(i2, f2, d) == HalfUp(i, f, d)
      && Tidy(f2) && if f[d] < '5' then i2 == i else Plain(i2)
  }

  lemma HalfUpByDigit(i: string, f: string, d: nat)
    requires IsDigits(i) && IsDigits(f) && d < |f|
    ensures HalfUp(i, f, d) == Scaled(i, f[..d], d) + if f[d] < '5' then 0 else 1
  {
    hide DigitsVal, Pow10;
    var k, t, m := f[..d], f[d..], |f| - d;
    assert i + f == i + k + t;
    DigitsConcat(i, k);
    DigitsConcat(i + k, t);
    assert t == [t[0]] + t[1..];
    DigitsConcat([t[0]], t[1..]);
    DigitsBound(t[1..]);
    var x, p := DigitsVal(i + k), Pow10(m - 1);
    var digit := DigitsVal([t[0]]);
    SingleDigit(f[d]);
    Pow10Next(m - 1);
    assert Scaled(i, k, d) == x by {
      Pow10Next(0);
    }
    LastDigit(x, digit, DigitsVal(t[1..]), p);
  }

  lemma SingleDigit(c: char)
    requires IsDigit(c)
    ensures DigitsVal([c]) == c as int - '0' as int
  {
    assert [c][..0] == "";
  }

  lemma Pow10Next(k: nat)
    ensures Pow10(k + 1) == 10 * Pow10(k) && Pow10(0) == 1
  {
  }

  lemma LastDigit(x: nat, digit: nat, rest: nat, p: nat)
    requires digit < 10 && rest < p
    ensures (x * (10 * p) + (digit * p + rest) + 5 * p) / (10 * p) == x + if digit < 5 then 0 else 1
  {
    var up := if digit < 5 then 0 else 1;
    Distribute(x, up, 10 * p);
    Distribute(digit, 5, p);
    MulMono(if digit < 5 then 0 else 5, digit, p);
    MulMono(digit, if digit < 5 then 4 else 9, p);
    FloorDivUnique(x * (10 * p) + (digit * p + rest) + 5 * p, 10 * p, x + up);
  }

  /**
   * Rounding is exact, half up and with carries into the integer part, for every decimal
   * string but the negative ones whose first dropped digit is 5 or more.
   */
  lemma RoundDecimalStrIsHalfUp(neg: bool, i: string, f: string, d: nat)
    requires i != "" && IsDigits(i) && IsDigits(f)
    ensures IsDecimal(Decimal(neg, i, f))
    ensures |f| <= d ==> RoundDecimalStr(Decimal(neg, i, f), d) == Decimal(neg, i, f)
    ensures |f| > d ==>
      (RoundsTo(RoundDecimalStr(Decimal(neg, i, f), d), neg, i, f, d) <==> (!neg || f[d] < '5'))
  {
    var s := Decimal(neg, i, f);
    if f == "" {
      NoPoint(neg, i);
    } else {
      SplitDecimal(neg, i, f);
      if |f| > d {
        if f[d] < '5' {
          RoundsDown(neg, i, f, d);
        } else if !neg {
          RoundsUp(i, f, d);
        } else {
          NegativeRoundsWrong(i, f, d);
        }
      }
    }
  }

  lemma SignedValOf(neg: bool, i: string)
    requires i != "" && IsDigits(i)
    ensures var h := (if neg then "-" else "") + i;
      && (IsDigits(h) || (|h| > 0 && h[0] == '-' && IsDigits(h[1..])))
      && SignedVal(h) == if neg then -(DigitsVal(i) as int) else DigitsVal(i)
  {
    hide DigitsVal;
    assert ("-" + i)[1..] == i;
    assert "" + i == i;
  }

  lemma RoundByParts(neg: bool, i: string, f: string, d: nat)
    requires i != "" && IsDigits(i) && IsDigits(f) && d < |f|
    ensures IsDecimal(Decimal(neg, i, f))
    ensures var h := (if neg then "-" else "") + i;
      && (IsDigits(h) || (|h| > 0 && h[0] == '-' && IsDigits(h[1..])))
      && RoundDecimalStr(Decimal(neg, i, f), d) == RoundDecimalParts(h, f, d)
  {
    hide RoundDecimalParts, DotIndex, SignedVal;
    SignedValOf(neg, i);
    SplitDecimal(neg, i, f);
  }

  lemma RoundsDown(neg: bool, i: string, f: string, d: nat)
    requires i != "" && IsDigits(i) && IsDigits(f) && d < |f| && f[d] < '5'
    ensures IsDecimal(Decimal(neg, i, f)) && RoundsTo(RoundDecimalStr(Decimal(neg, i, f), d), neg, i, f, d)
  {
    hide RoundDecimalStr, IsDecimal, TrimTrailingZeros, DropZeros, HalfUp, DigitsVal;
    RoundByParts(neg, i, f, d);
    HalfUpByDigit(i, f, d);
    var k := f[..d];
    if d == 0 {
      TrimWithoutPoint(neg, i);
      Witness(Decimal(neg, i, ""), neg, i, "", i, f, d);
    } else {
      TrimTrailingZerosKeepsValue(neg, i, k);
      Witness(Decimal(neg, i, DropZeros(k)), neg, i, DropZeros(k), i, f, d);
    }
  }

  lemma TrimWithoutPoint(neg: bool, i: string)
    requires IsDigits(i)
    ensures TrimTrailingZeros((if neg then "-" else "") + i) == Decimal(neg, i, "")
  {
    NoPoint(neg, i);
    assert Decimal(neg, i, "") == (if neg then "-" else "") + i;
  }

  lemma Witness(r: string, neg: bool, i2: string, f2: string, i: string, f: string, d: nat)
    requires IsDigits(i) && IsDigits(f) && d < |f|
    requires i2 != "" && IsDigits(i2) && IsDigits(f2) && |f2| <= d
    requires r == Decimal(neg, i2, f2) && Scaled(i2, f2, d) == HalfUp(i, f, d)
    requires Tidy(f2) && if f[d] < '5' then i2 == i else Plain(i2)
    ensures RoundsTo(r, neg, i, f, d)
  {
  }

  lemma IntToStringShape(q: int)
    ensures IntToString(q) == (if q < 0 then "-" else "") + ToDigits(Abs(q))
  {
    assert "" + ToDigits(Abs(q)) == ToDigits(Abs(q));
  }

  lemma QuotientAndRemainder(c: int, scale: int)
    requires scale > 0
    ensures var q, rem := BigDiv(c, scale), BigRem(c, scale);
      -scale < rem < scale && (rem >= 0 ==> Abs(c) == Abs(q) * scale + rem)
      && (rem < 0 ==> c < 0) && (q < 0 ==> c < 0) && (c < 0 ==> rem <= 0 && q <= 0 && (q < 0 || rem < 0))
  {
    FloorDiv(Abs(c), scale);
    FloorDivMono(0, Abs(c), scale);
    MulMono(0, Abs(c) / scale, scale);
  }

  lemma RemainderSign(c: int, scale: int)
    requires scale > 0
    ensures BigRem(c, scale) < 0 <==> c < 0 && Abs(c) % scale != 0
  {
    assert Abs(c) == Abs(c) / scale * scale + Abs(c) % scale;
    FloorDiv(Abs(c), scale);
  }

  /** Written out, a number without a negative remainder keeps its sign and its value. */
  lemma CarriedValue(c: int, d: nat) returns (neg: bool, z: string)
    requires BigRem(c, Pow10(d)) >= 0
    ensures var i := ToDigits(Abs(BigDiv(c, Pow10(d))));
      && (neg <==> c < 0) && IsDigits(z) && |z| <= d && Tidy(z) && Plain(i)
      && CarriedString(c, d) == Decimal(neg, i, z) && Scaled(i, z, d) == Abs(c)
  {
    hide TrimTrailingZeros, DropZeros, DigitsVal, ToDigits, PadStart, BigDiv, BigRem, IntToString, Abs;
    var q, rem := BigDiv(c, Pow10(d)), BigRem(c, Pow10(d));
    QuotientAndRemainder(c, Pow10(d));
    IntToStringShape(q);
    PlainDigits(Abs(q));
    neg := q < 0;
    if d == 0 {
      z := "";
      EmptyFraction(neg, ToDigits(Abs(q)));
    } else {
      var frac := PadStart(ToDigits(rem), d);
      NaturalString(rem);
      ToDigitsShort(rem, d);
      PadValue(ToDigits(rem), d);
      TrimTrailingZerosKeepsValue(neg, ToDigits(Abs(q)), frac);
      z := DropZeros(frac);
      FullFraction(ToDigits(Abs(q)), frac);
    }
  }

  lemma PlainDigits(n: nat)
    ensures Plain(ToDigits(n))
  {
  }

  lemma NaturalString(n: nat)
    ensures IntToString(n) == ToDigits(n)
  {
  }

  lemma EmptyFraction(neg: bool, i: string)
    requires IsDigits(i)
    ensures Decimal(neg, i, "") == (if neg then "-" else "") + i && Scaled(i, "", 0) == DigitsVal(i)
  {
    assert Pow10(0) == 1 && DigitsVal("") == 0;
  }

  lemma FullFraction(i: string, f: string)
    requires IsDigits(i) && IsDigits(f)
    ensures Scaled(i, f, |f|) == DigitsVal(i) * Pow10(|f|) + DigitsVal(f)
  {
    assert Pow10(0) == 1;
  }

  lemma RoundsUp(i: string, f: string, d: nat)
    requires i != "" && IsDigits(i) && IsDigits(f) && d < |f| && f[d] >= '5'
    ensures IsDecimal(Decimal(false, i, f)) && RoundsTo(RoundDecimalStr(Decimal(false, i, f), d), false, i, f, d)
  {
    hide RoundDecimalStr, IsDecimal, CarriedString, HalfUp, DigitsVal, SignedVal, ToDigits, RoundsTo, BigDiv, BigRem;
    RoundByParts(false, i, f, d);
    HalfUpByDigit(i, f, d);
    SignedValOf(false, i);
    FullFraction(i, f[..d]);
    var c := Scaled(i, f[..d], d) + 1;
    NaturalRemainder(c, Pow10(d));
    var neg, z := CarriedValue(c, d);
    Witness(CarriedString(c, d), false, ToDigits(Abs(BigDiv(c, Pow10(d)))), z, i, f, d);
  }

  lemma NaturalRemainder(c: nat, scale: int)
    requires scale > 0
    ensures BigRem(c, scale) >= 0
  {
    FloorDiv(c, scale);
  }

  // ---- Negative strings that carry --------------------------------------------------------

  lemma {:induction false} DropZerosStopsAt(s: string, m: nat)
    requires m < |s| && s[m] != '0'
    ensures m < |DropZeros(s)| && DropZeros(s)[m] == s[m]
  {
    if s[|s| - 1] == '0' {
      DropZerosStopsAt(s[..|s| - 1], m);
    }
  }

  lemma {:induction false} PadStartEndsWith(s: string, width: nat)
    ensures var p := PadStart(s, width); |s| <= |p| && p[|p| - |s|..] == s
    decreases width - |s|
  {
    if |s| < width {
      PadStartEndsWith("0" + s, width);
      var p := PadStart("0" + s, width);
      assert p[|p| - |s|..] == p[|p| - |"0" + s|..][1..];
    }
  }

  ghost predicate InnerMinus(s: string, m: nat) {
    0 < m < |s| && s[m] == '-'
  }

  lemma TrimKeepsMinus(s: string, m: nat)
    requires InnerMinus(s, m)
    ensures InnerMinus(TrimTrailingZeros(s), m)
  {
    DropZerosStopsAt(s, m);
  }

  /** A negative remainder leaves its sign in the fraction. */
  lemma CarriedMalformed(c: int, d: nat) returns (m: nat)
    requires BigRem(c, Pow10(d)) < 0
    ensures InnerMinus(CarriedString(c, d), m)
  {
    hide TrimTrailingZeros, PadStart, ToDigits;
    QuotientAndRemainder(c, Pow10(d));
    assert d > 0 by { assert Pow10(0) == 1; }
    var rem := IntToString(BigRem(c, Pow10(d)));
    PadStartEndsWith(rem, d);
    var p, head := PadStart(rem, d), IntToString(BigDiv(c, Pow10(d))) + ".";
    assert p[|p| - |rem|] == p[|p| - |rem|..][0] == '-';
    m := |head| + |p| - |rem|;
    assert (head + p)[m] == p[|p| - |rem|];
    TrimKeepsMinus(head + p, m);
  }

  lemma DecimalHasNoInnerMinus(neg: bool, i: string, f: string, m: nat)
    requires IsDigits(i) && IsDigits(f)
    ensures !InnerMinus(Decimal(neg, i, f), m)
  {
    var tail := i + if f == "" then "" else "." + f;
    assert '-' !in tail;
    assert Decimal(neg, i, f) == (if neg then "-" else "") + tail;
  }

  lemma DecimalUnique(i: string, f: string, i2: string, f2: string)
    requires IsDigits(i) && IsDigits(f) && i != "" && IsDigits(i2) && IsDigits(f2) && i2 != ""
    requires Decimal(true, i, f) == Decimal(true, i2, f2)
    ensures i == i2 && f == f2
  {
    if f == "" {
      NoPoint(true, i);
      if f2 != "" { SplitDecimal(true, i2, f2); }
      assert Decimal(true, i, f)[1..] == i;
      assert f2 == "" ==> Decimal(true, i2, f2)[1..] == i2;
    } else {
      SplitDecimal(true, i, f);
      if f2 == "" { NoPoint(true, i2); } else { SplitDecimal(true, i2, f2); }
    }
  }

  /** The carry of a negative number is added toward zero, not away from it. */
  lemma NegativeRoundsWrong(i: string, f: string, d: nat)
    requires i != "" && IsDigits(i) && IsDigits(f) && d < |f| && f[d] >= '5'
    ensures IsDecimal(Decimal(true, i, f)) && !RoundsTo(RoundDecimalStr(Decimal(true, i, f), d), true, i, f, d)
  {
    hide RoundDecimalStr, IsDecimal, CarriedString, HalfUp, DigitsVal, SignedVal, ToDigits, RoundsTo, BigDiv, BigRem,
      Decimal;
    RoundByParts(true, i, f, d);
    HalfUpByDigit(i, f, d);
    SignedValOf(true, i);
    FullFraction(i, f[..d]);
    var v := DigitsVal(i) * Pow10(d);
    var c := -v + DigitsVal(f[..d]) + 1;
    assert -(DigitsVal(i) as int) * Pow10(d) == -v;
    assert RoundDecimalStr(Decimal(true, i, f), d) == CarriedString(c, d);
    NotRounded(c, i, f, d);
  }

  /**
   * What it gives instead: one is added to the negative number with the kept digits read as
   * positive ones. A result that is whole or not negative is written out right; any other gets a
   * second minus inside.
   */
  lemma NegativeRoundsTo(i: string, f: string, d: nat) returns (neg: bool, i2: string, z: string, m: nat)
    requires i != "" && IsDigits(i) && IsDigits(f) && d < |f| && f[d] >= '5'
    ensures IsDecimal(Decimal(true, i, f)) && IsDigits(i2) && IsDigits(z) && |z| <= d
    ensures var r, c := RoundDecimalStr(Decimal(true, i, f), d), DigitsVal(f[..d]) + 1 - DigitsVal(i) * Pow10(d);
      if c < 0 && Abs(c) % Pow10(d) != 0 then InnerMinus(r, m)
      else r == Decimal(neg, i2, z) && Scaled(i2, z, d) == Abs(c) && (neg <==> c < 0) && Tidy(z) && Plain(i2)
  {
    hide RoundDecimalStr, IsDecimal, CarriedString, DigitsVal, SignedVal, ToDigits, BigDiv, Decimal, Scaled, InnerMinus;
    RoundByParts(true, i, f, d);
    SignedValOf(true, i);
    FullFraction(i, f[..d]);
    var v := DigitsVal(i) * Pow10(d);
    var c := -v + DigitsVal(f[..d]) + 1;
    assert -(DigitsVal(i) as int) * Pow10(d) == -v;
    assert RoundDecimalStr(Decimal(true, i, f), d) == CarriedString(c, d);
    RemainderSign(c, Pow10(d));
    hide Pow10, Abs, BigRem, Tidy, Plain;
    neg, i2, z, m := false, "", "", 0;
    if c < 0 && Abs(c) % Pow10(d) != 0 {
      m := CarriedMalformed(c, d);
    } else {
      neg, z := CarriedValue(c, d);
      i2 := ToDigits(Abs(BigDiv(c, Pow10(d))));
    }
  }

  lemma NotRounded(c: int, i: string, f: string, d: nat)
    requires IsDigits(i) && IsDigits(f) && d < |f|
    requires Abs(c) != HalfUp(i, f, d) || c >= 0
    ensures !RoundsTo(CarriedString(c, d), true, i, f, d)
  {
    hide CarriedString, HalfUp, DigitsVal, ToDigits, BigDiv, BigRem, Decimal;
    var s := CarriedString(c, d);
    if RoundsTo(s, true, i, f, d) {
      var i2, f2 :| i2 != "" && IsDigits(i2) && IsDigits(f2) && |f2| <= d
        && s == Decimal(true, i2, f2) && Scaled(i2, f2, d) == HalfUp(i, f, d);
      if BigRem(c, Pow10(d)) < 0 {
        var m := CarriedMalformed(c, d);
        DecimalHasNoInnerMinus(true, i2, f2, m);
      } else {
        var neg, z := CarriedValue(c, d);
        SignIsFirst(i2, f2);
        FirstIsDigit(ToDigits(Abs(BigDiv(c, Pow10(d)))), z);
        if neg {
          DecimalUnique(i2, f2, ToDigits(Abs(BigDiv(c, Pow10(d)))), z);
        }
      }
    }
  }

  lemma SignIsFirst(i: string, f: string)
    ensures |Decimal(true, i, f)| > 0 && Decimal(true, i, f)[0] == '-'
  {
  }

  lemma FirstIsDigit(i: string, f: string)
    requires i != "" && IsDigits(i)
    ensures |Decimal(false, i, f)| > 0 && Decimal(false, i, f)[0] != '-'
  {
    assert Decimal(false, i, f)[0] == i[0];
  }

  /** "-2.7" rounded to whole numbers comes out as "-1". */
  lemma NegativeExample()
    ensures IsDecimal("-2.7") && RoundDecimalStr("-2.7", 0) == "-1"
  {
    hide RoundDecimalStr, IsDecimal, TrimTrailingZeros, DropZeros, PadStart;
    assert "-2.7" == Decimal(true, "2", "7");
    RoundByParts(true, "2", "7", 0);
    SignedValOf(true, "2");
    assert DigitsVal("2") == 2 && DigitsVal("7"[..0]) == 0 && Pow10(0) == 1;
    assert CarriedString(-1, 0) == "-1";
  }
}
