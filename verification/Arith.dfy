/** Integer facts shared by the fixed-point modules. */
module Arith {

  /** `a / b` on bigints: the quotient is truncated toward zero. */
  function BigDiv(a: int, b: int): int
    requires b > 0
  {
    if a >= 0 then a / b else -((-a) / b)
  }

  function Abs(x: int): nat {
    if x < 0 then -x else x
  }

  function Pow10(k: nat): (p: nat)
    ensures p > 0
  {
    if k == 0 then 1 else 10 * Pow10(k - 1)
  }

  lemma MulMono(a: int, b: int, c: int)
    requires a <= b && 0 <= c
    ensures a * c <= b * c
  {
  }

  lemma MulStrictMono(a: int, b: int, c: int)
    requires a < b && 0 < c
    ensures a * c < b * c
  {
  }

  lemma SquareMono(a: int, b: int)
    requires 0 <= a <= b
    ensures a * a <= b * b
  {
    MulMono(a, b, a);
    MulMono(a, b, b);
  }

  /** Cancelling a positive factor. */
  lemma MulCancel(a: int, b: int, c: int)
    requires 0 < c && a * c <= b * c
    ensures a <= b
  {
    if b < a {
      MulStrictMono(b, a, c);
    }
  }

  /** The floor quotient is the largest integer whose product with `b` stays below `a`. */
  lemma FloorDiv(a: int, b: int)
    requires b > 0
    ensures a / b * b <= a < a / b * b + b
  {
    assert a == a / b * b + a % b;
  }

  lemma FloorDivUnique(a: int, b: int, q: int)
    requires b > 0 && q * b <= a < q * b + b
    ensures a / b == q
  {
    FloorDiv(a, b);
    if a / b < q {
      MulMono(a / b + 1, q, b);
    } else if q < a / b {
      MulMono(q + 1, a / b, b);
    }
  }

  lemma FloorDivMono(a: int, c: int, b: int)
    requires a <= c && b > 0
    ensures a / b <= c / b
  {
    FloorDiv(a, b);
    FloorDiv(c, b);
    if c / b < a / b {
      MulMono(c / b + 1, a / b, b);
    }
  }

  // ---- Errors of truncated fixed-point products --------------------------------------------

  lemma Distribute(a: int, b: int, c: int)
    ensures (a + b) * c == a * c + b * c
    ensures (a - b) * c == a * c - b * c
  {
  }

  lemma Reassociate(a: int, b: int, c: int)
    ensures a * b * c == a * c * b == a * (b * c)
  {
  }

  /** Scaling both sides of a cross-multiplied comparison by `c <= q` scales its error. */
  lemma ScaledDifference(x: nat, y: nat, c: nat, e: int, q: nat, c0: nat)
    requires c <= q && 0 <= e && -e <= x * c0 - y * q <= e
    ensures -(e * q) <= x * c * c0 - y * c * q <= e * q
  {
    var xc, yq := x * c0, y * q;
    Distribute(xc, yq, c);
    Reassociate(x, c0, c);
    Reassociate(y, q, c);
    ScaledBound(xc - yq, e, c, q);
  }

  lemma ScaledBound(d: int, e: int, c: nat, q: nat)
    requires c <= q && -e <= d <= e
    ensures -(e * q) <= d * c <= e * q
  {
    MulMono(d, e, c);
    MulMono(-e, d, c);
    MulMono(c, q, e);
  }

  /** `p / q * c`, scaled by `q`, against `p * c`. */
  lemma FloorProduct(f: int, q: int, p: int, c: int)
    requires f * q <= p < f * q + q && 0 <= c
    ensures p * c - q * c <= f * c * q <= p * c
  {
    MulMono(f * q, p, c);
    MulMono(p - q, f * q, c);
    Reassociate(f, q, c);
    Distribute(p, q, c);
  }

  /** Rounding `p / q` and `r / q` down adds at most `q` to the error. */
  lemma TruncatedDifference(p: nat, r: nat, x1: nat, y1: nat, e: int, q: nat, c0: nat)
    requires 0 < q && 0 <= e && c0 <= q
    requires x1 * q <= p < x1 * q + q && y1 * q <= r < y1 * q + q
    requires -(e * q) <= p * c0 - r * q <= e * q
    ensures -(e + q) <= x1 * c0 - y1 * q <= e + q
  {
    var d := x1 * c0 - y1 * q;
    FloorProduct(x1, q, p, c0);
    FloorProduct(y1, q, r, q);
    MulMono(c0, q, q);
    assert d * q == x1 * c0 * q - y1 * q * q by {
      Distribute(x1 * c0, y1 * q, q);
    }
    assert (e + q) * q == e * q + q * q by {
      Distribute(e, q, q);
    }
    CancelBound(d, e + q, q);
  }

  lemma CancelBound(d: int, e: int, q: int)
    requires 0 < q && -(e * q) <= d * q <= e * q
    ensures -e <= d <= e
  {
    MulCancel(d, e, q);
    MulCancel(-e, d, q);
  }

  /** One truncated product with a common factor adds at most one unit `q` to the error. */
  lemma TruncatedProducts(x: nat, y: nat, x1: nat, y1: nat, c: nat, e: nat, q: nat, c0: nat)
    requires 0 < q && c <= q && c0 <= q && -(e * q) <= x * c0 - y * q <= e * q
    requires x1 * q <= x * c < x1 * q + q && y1 * q <= y * c < y1 * q + q
    ensures -((e + 1) * q) <= x1 * c0 - y1 * q <= (e + 1) * q
  {
    ScaledDifference(x, y, c, e * q, q, c0);
    TruncatedDifference(x * c, y * c, x1, y1, e * q, q, c0);
    Distribute(e, 1, q);
  }

  /**
   * If `x * c0` is `y * q` up to `e`, the quotients `m / x` and `m / y` satisfy
   * `m / x * q == m / y * c0` up to `q` and a relative `e / w`.
   */
  lemma QuotientDifference(x: nat, y: nat, g: nat, h: nat, m: nat, e: int, q: nat, c0: nat, w: nat)
    requires 0 < w <= y <= x && 0 <= e && -e <= x * c0 - y * q <= e
    requires g == m / x && h == m / y
    ensures -(q * w + e * h) <= (g * q - h * c0) * w <= q * w + e * h
  {
    FloorDiv(m, x);
    FloorDiv(m, y);
    QuotientProducts(g, h, x, q, c0);
    CrossScaled(x * c0, y * q, e, h);
    Reassociate(h, y, q);
    ShrunkQuotient(g * x, m, x, q);
    ShrunkQuotient(h * y, m, y, q);
    MulMono(y, x, q);
    NarrowedBound(g * q - h * c0, x, w, q, e * h);
  }

  lemma QuotientProducts(g: int, h: int, x: int, q: int, c0: int)
    ensures (g * q - h * c0) * x == g * x * q - h * (x * c0)
  {
    Distribute(g * q, h * c0, x);
    Reassociate(g, q, x);
    Reassociate(h, c0, x);
  }

  lemma CrossScaled(u: int, v: int, e: int, h: int)
    requires 0 <= h && -e <= u - v <= e
    ensures h * v - e * h <= h * u <= h * v + e * h
  {
    MulMono(u, v + e, h);
    MulMono(v - e, u, h);
    Distribute(v, e, h);
  }

  lemma ShrunkQuotient(u: int, m: int, x: int, q: int)
    requires u <= m < u + x && 0 <= q
    ensures m * q - x * q <= u * q <= m * q
  {
    MulMono(u, m, q);
    MulMono(m - x, u, q);
    Distribute(m, x, q);
  }

  /** A bound that holds at scale `x` holds at any smaller scale `w`. */
  lemma NarrowedBound(a: int, x: int, w: int, q: int, s: int)
    requires 0 < w <= x && 0 <= s && -(q * x + s) <= a * x <= q * x + s
    ensures -(q * w + s) <= a * w <= q * w + s
  {
    NarrowedAbove(a, x, w, q, s);
    NarrowedAbove(-a, x, w, q, s);
  }

  lemma NarrowedAbove(a: int, x: int, w: int, q: int, s: int)
    requires 0 < w <= x && 0 <= s && a * x <= q * x + s
    ensures a * w <= q * w + s
  {
    Distribute(a, q, x);
    Distribute(a, q, w);
    if a > q {
      MulMono(w, x, a - q);
    } else {
      MulMono(a, q, w);
    }
  }

  /** `q / p <= k2 / k1 <= b / a`. */
  lemma CrossRatio(q: nat, p: nat, k1: nat, k2: nat, a: nat, b: nat)
    requires 0 < k1 && q * k1 <= p * k2 && k2 * a <= b * k1
    ensures q * a <= p * b
  {
    MulMono(q * k1, p * k2, a);
    MulMono(k2 * a, b * k1, p);
    Reassociate(q, k1, a);
    Reassociate(p, k2, a);
    Reassociate(p, b, k1);
    MulCancel(q * a, p * b, k1);
  }

  lemma RoundedUpQuotient(m: nat, x: nat, r: nat, lo: int, hi: int)
    requires x > 0 && r == m / x && lo <= r <= hi
    ensures lo * x <= m < (hi + 1) * x
  {
    FloorDiv(m, x);
    MulMono(lo, r, x);
    MulMono(r + 1, hi + 1, x);
    Distribute(r, 1, x);
  }

  // ---- Enclosures of powers ---------------------------------------------------------------

  /** Squaring a lower bound `lo / f` of `r / p`. */
  lemma SquareEnclosure(lo: nat, lo1: nat, f: nat, r: nat, p: nat)
    requires 0 < f && lo * p <= f * r && lo1 * f <= lo * lo
    ensures lo1 * (p * p) <= f * (r * r)
  {
    SquareMono(lo * p, f * r);
    SquareOfProduct(lo, p);
    SquareOfProduct(f, r);
    MulMono(lo1 * f, lo * lo, p * p);
    SwapFactor(lo1, f, p * p);
    SwapFactor(f, f, r * r);
    MulCancel(lo1 * (p * p), f * (r * r), f);
  }

  lemma SquareEnclosureAbove(hi: nat, hi1: nat, f: nat, r: nat, p: nat)
    requires 0 < f && f * r <= hi * p && hi * hi <= hi1 * f
    ensures f * (r * r) <= hi1 * (p * p)
  {
    SquareMono(f * r, hi * p);
    SquareOfProduct(hi, p);
    SquareOfProduct(f, r);
    MulMono(hi * hi, hi1 * f, p * p);
    SwapFactor(hi1, f, p * p);
    SwapFactor(f, f, r * r);
    MulCancel(f * (r * r), hi1 * (p * p), f);
  }

  lemma SwapFactor(a: int, b: int, c: int)
    ensures a * b * c == a * c * b
  {
  }

  lemma SquareOfProduct(a: int, b: int)
    ensures (a * b) * (a * b) == a * a * (b * b)
  {
    Reassociate(a, b, a * b);
    Reassociate(b, a, b);
    Reassociate(a, a, b * b);
  }

  /** `m` is `q * r / p` to the nearest, read off an enclosure with `s` times the precision. */
  lemma NearestOfEnclosure(m: nat, lo: nat, hi: nat, q: nat, r: nat, p: nat, s: nat)
    requires 0 < s && lo * p <= s * q * r <= hi * p
    requires 2 * s * m - s <= 2 * lo && 2 * hi <= 2 * s * m + s
    ensures -(p as int) <= 2 * (m * p) - 2 * (q * r) <= p
  {
    MulMono(2 * s * m - s, 2 * lo, p);
    MulMono(2 * hi, 2 * s * m + s, p);
    NearestScaled(m * p, lo * p, hi * p, q * r, p, s) by {
      ScaledFactors(m, p, s);
      Reassociate(s, q, r);
      Reassociate(2, lo, p);
      Reassociate(2, hi, p);
      Distribute(2 * s * m, s, p);
    }
  }

  lemma ScaledFactors(m: int, p: int, s: int)
    ensures 2 * s * m * p == s * (2 * (m * p))
  {
    Reassociate(2 * s, m, p);
    Reassociate(2, s, m * p);
    Reassociate(s, 2, m * p);
  }

  lemma NearestScaled(mp: int, lp: int, hp: int, qr: int, p: int, s: int)
    requires 0 < s && lp <= s * qr <= hp
    requires s * (2 * mp) - s * p <= 2 * lp && 2 * hp <= s * (2 * mp) + s * p
    ensures -p <= 2 * mp - 2 * qr <= p
  {
    Distribute(2 * mp, p, s);
    assert s * (2 * qr) == 2 * (s * qr);
    MulCancel(2 * mp - p, 2 * qr, s);
    MulCancel(2 * qr, 2 * mp + p, s);
  }
}
