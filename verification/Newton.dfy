/** The Newton-Raphson reciprocal of lib/divsf3.c and lib/divdf3.c.

b is a Q31 number in [1, 2), x a Q32 approximation of its reciprocal.  One step computes
x * (2 - x * b) with two truncations.  All statements are about the exact integer error
2^63 - x * b, which the real iteration would square (in units of 2^63). */
module Newton {
  import opened Bits

  const Q31 := 0x8000_0000
  const Q32 := 0x1_0000_0000
  const Q63 := 0x8000_0000_0000_0000
  const Q64 := 0x1_0000_0000_0000_0000
  const Q95 := 0x8000_0000_0000_0000_0000_0000

  /** 3/4 + 1/sqrt(2) as a Q32 number, before it is truncated to 32 bits. */
  const Minimax := 0x1_7504_f333

  // ----- One step

  /** The two truncations of a step, put in terms of p = x * b and of the product with the new
      estimate y.  The first shift drops u, the second v; `two` is the constant 2. */
  lemma {:induction false} StepProducts(x: nat, b: nat, h: int, c: int, y: int, two: int, u: int, v: int)
    requires u > 0 && v > 0
    requires h * u <= x * b < h * u + u
    requires c == two - h
    requires y * v <= x * c < y * v + v
    ensures (x * b) * (two * u - x * b) - b * (v * u) <= y * b * (v * u) <= (x * b) * (two * u + u - x * b)
  {
    CorrectionBounds(x * b, h, c, two, u);
    TruncatedProduct(x, b, c, y, u, v);
  }

  lemma {:induction false} CorrectionBounds(p: nat, h: int, c: int, two: int, u: int)
    requires h * u <= p < h * u + u && c == two - h
    ensures p * (two * u - p) <= p * (c * u) <= p * (two * u + u - p)
  {
    var d := c * u;
    Distrib(c, h, u);
    MulLe(two * u - p, d, p);
    MulLe(d, two * u + u - p, p);
    MulComm(p, two * u - p);
    MulComm(p, d);
    MulComm(p, two * u + u - p);
  }

  lemma {:induction false} TruncatedProduct(x: nat, b: nat, c: int, y: int, u: int, v: int)
    requires u > 0 && y * v <= x * c < y * v + v
    ensures (x * b) * (c * u) - b * (v * u) <= y * b * (v * u) <= (x * b) * (c * u)
  {
    MulLe(y * v, x * c, b);
    MulLe(x * c, y * v + v, b);
    Distrib(y * v, v, b);
    MulLe(y * v * b, x * c * b, u);
    MulLe(x * c * b, y * v * b + v * b, u);
    Distrib(y * v * b, v * b, u);
    Reorder(x, b, c, u);
    Reorder(y, b, v, u);
    Reorder(1, b, v, u);
  }

  lemma {:induction false} Reorder(x: int, b: int, c: int, u: int)
    ensures x * b * (c * u) == x * c * b * u
  {
    MulAssoc(x * b, c, u);
    MulAssoc(x, b, c);
    MulComm(b, c);
    MulAssoc(x, c, b);
  }

  /** The error e = one - p is squared, up to the truncations. */
  lemma {:induction false} StepError(p: int, yb: int, b: int, one: int, u: int, vu: int, one2: int)
    requires p * (2 * one - p) - b * vu <= yb * vu <= p * (2 * one + u - p)
    requires one * one == one2 * vu
    ensures var e := one - p; e * e - u * p <= (one2 - yb) * vu <= e * e + b * vu
  {
    var e := one - p;
    SquareForm(p, e, one);
    Distrib(2 * one - p, u, p);
    MulComm(p, 2 * one - p);
    MulComm(p, 2 * one + u - p);
    MulComm(u, p);
    Distrib(one2 - yb, yb, vu);
  }

  lemma {:induction false} SquareForm(p: int, e: int, one: int)
    requires e == one - p
    ensures p * (2 * one - p) == one * one - e * e
  {
    assert p == one - e && 2 * one - p == one + e;
    Distrib(one, -e, one + e);
    MulComm(one, one + e);
    MulComm(-e, one + e);
    Distrib(one, e, one);
    Distrib(one, e, -e);
    MulComm(one, -e);
    MulComm(e, -e);
    assert -e * one == -(e * one) && -e * e == -(e * e);
  }

  lemma {:induction false} SquareLe(e: int, m: nat)
    requires 0 - m <= e <= m
    ensures 0 <= e * e <= m * m
  {
    assert (m - e) * (m + e) >= 0;
    assert (m - e) * (m + e) == m * m - e * e;
    assert e * e >= 0;
  }

  /** For the 32-bit steps: never below -2^32, and at most m' when the old error is at most m. */
  lemma {:induction false} Step32Error(p: int, yb: int, b: int, m: nat, m': nat)
    requires p * (Q64 - p) - b * Q63 <= yb * Q63 <= p * (Q64 + Q32 - p)
    requires Q63 - m <= p <= Q63 + m && 0 <= b <= Q32
    requires m * m + Q95 < (m' + 1) * Q63
    ensures -Q32 <= Q63 - yb <= m'
  {
    var e := Q63 - p;
    StepError(p, yb, b, Q63, Q32, Q63, Q63);
    SquareLe(e, m);
    assert (e + Q31) * (e + Q31) == e * e + Q32 * e + Q31 * Q31;
    assert (e + Q31) * (e + Q31) >= 0;
  }

  /** The first estimate, a line: its error is largest at b = 2. */
  lemma {:induction false} MinimaxError(b: nat)
    requires Q31 <= b < Q32
    ensures Q63 - 0xafb0ccd00000000 <= (Minimax - b) * b <= Q63 + 0xafb0ccd00000000
  {
    var k: nat := Minimax - b;
    Distrib(k, b, b);
    ParabolaEnds(b);
    ParabolaVertex(b);
  }

  lemma {:induction false} ParabolaEnds(b: int)
    requires Q31 <= b <= Q32
    ensures b * b <= (Q31 + Q32) * b - Q31 * Q32
  {
    var v := Q32 - b;
    MulLe(Q31, b, v);
    Distrib(v, b, b);
    MulComm(b, v);
  }

  lemma {:induction false} ParabolaVertex(b: int)
    ensures 4 * (Minimax * b - b * b) <= Minimax * Minimax
  {
    var d := 2 * b - Minimax;
    assert d * d >= 0;
    assert d * d == 4 * (b * b) - 4 * (Minimax * b) + Minimax * Minimax;
  }

  /** The new estimate, before it is truncated to 32 bits. */
  function Wide(x: int, b: int): int { x * (Q32 - x * b / Q32) / Q31 }

  /** lib/divsf3.c:112-113: `correction = -((uint64_t)x * b >> 32); x = (uint64_t)x * correction >> 31`. */
  method Step(x: nat, b: nat, ghost m: nat, ghost m': nat) returns (y: nat)
    requires x < Q32 && Q31 <= b < Q32
    requires Q63 - m <= x * b <= Q63 + m && m <= 0x1000_0000_0000_0000
    requires m * m + Q95 < (m' + 1) * Q63
    ensures -Q32 <= Q63 - Wide(x, b) * b <= m' && y == Wide(x, b) % Q32
  {
    var h := x * b / Q32;
    var correction := (-h) % Q32;
    Correction(x, b, h);
    ghost var wide := x * correction / Q31;
    y := x * correction / Q31 % Q32;
    StepProducts(x, b, h, correction, wide, Q32, Q32, Q31);
    Step32Error(x * b, wide * b, b, m, m');
  }

  lemma {:induction false} Correction(x: nat, b: nat, h: int)
    requires x < Q32 && b < Q32 && x * b >= Q32 && h == x * b / Q32
    ensures (-h) % Q32 == Q32 - h > 0 && h * Q32 <= x * b < h * Q32 + Q32
    ensures x * (Q32 - h) >= 0
  {
    MulLe(x, Q32, b);
    MulLe(0, Q32 - h, x);
    MulComm(Q32 - h, x);
  }

  /** An estimate with the error of a step fits its word unless b is 1 or the next number. */
  lemma {:induction false} Fits(wide: nat, b: nat)
    requires Q31 + 2 <= b && wide * b <= Q63 + Q32
    ensures wide < Q32
  {
    MulLe(Q31 + 2, b, wide);
    MulComm(wide, b);
    MulComm(wide, Q31 + 2);
  }

  /** The error after three steps, in units of 2^-63: less than eight times 2^-31. */
  const ThreeSteps := 0x7_4c99_72ef

  /** What the routine makes of b: three steps from 3/4 + 1/sqrt(2) - b/2, in 32-bit words. */
  function Reciprocal(b: int): int {
    Wide(Wide(Wide((0x7504_f333 - b) % Q32, b) % Q32, b) % Q32, b) % Q32
  }

  /** Only the reciprocal of 1 does not fit a word: it wraps to zero. */
  function Unwrapped(r: nat): nat { if r == 0 then Q32 else r }

  /** lib/divsf3.c:101-117: three steps from the linear estimate. */
  method Reciprocal32(b: nat) returns (r: nat)
    requires Q31 <= b < Q32
    ensures r == Reciprocal(b) && r < Q32 && -Q32 <= Q63 - Unwrapped(r) * b <= ThreeSteps
    ensures r == 0 <==> b == Q31
  {
    hide Wide;
    var reciprocal := (0x7504_f333 - b) % Q32;
    assert reciprocal == Minimax - b;
    MinimaxError(b);
    ghost var w := Wide(reciprocal, b);
    reciprocal := Step(reciprocal, b, 0xafb0ccd00000000, 0xf126653d43b852);
    AtOne(b, 4110742323, 4287065294);
    WideFits(w, b, 4287065294);
    w := Wide(reciprocal, b);
    reciprocal := Step(reciprocal, b, 0xf126653d43b852, 0x1c653a0bf1f75);
    AtOne(b, 4287065294, 4294952757);
    WideFits(w, b, 4294952757);
    AtOne(b, 4294952757, Q32);
    w := Wide(reciprocal, b);
    r := Step(reciprocal, b, 0x1c653a0bf1f75, ThreeSteps);
    LastFits(w, b);
  }

  lemma {:induction false} LastFits(wide: int, b: nat)
    requires Q31 <= b < Q32 && -Q32 <= Q63 - wide * b <= ThreeSteps
    requires (b == Q31 ==> wide == Q32) && (b == Q31 + 1 ==> wide == Q32 - 1)
    ensures wide == Unwrapped(wide % Q32) && (wide % Q32 == 0 <==> b == Q31)
  {
    if b >= Q31 + 2 {
      MulLe(wide, 0, b);
      Fits(wide, b);
    }
  }

  /** The steps evaluated for b = 1 and the number next to it. */
  lemma {:induction false} AtOne(b: nat, x: nat, y: nat)
    requires (x, y) in {(4110742323, 4287065294), (4287065294, 4294952757), (4294952757, Q32)}
    ensures b == Q31 ==> Wide(x, b) == y
    ensures b == Q31 + 1 ==> Wide(x - 1, b) == y - 1
  {
    AtOneFirst();
    AtOneSecond();
    AtOneThird();
    hide Wide;
  }

  lemma {:induction false} WideIs(x: nat, b: nat, h: int, y: int)
    requires h * Q32 <= x * b < h * Q32 + Q32 && y * Q31 <= x * (Q32 - h) < y * Q31 + Q31
    ensures Wide(x, b) == y
  {
    assert x * b / Q32 == h;
  }

  lemma {:induction false} AtOneFirst()
    ensures Wide(4110742323, Q31) == 4287065294 && Wide(4110742322, Q31 + 1) == 4287065293
  {
    WideIs(4110742323, Q31, 2055371161, 4287065294);
    WideIs(4110742322, Q31 + 1, 2055371161, 4287065293);
  }

  lemma {:induction false} AtOneSecond()
    ensures Wide(4287065294, Q31) == 4294952757 && Wide(4287065293, Q31 + 1) == 4294952756
  {
    WideIs(4287065294, Q31, 2143532647, 4294952757);
    WideIs(4287065293, Q31 + 1, 2143532647, 4294952756);
  }

  lemma {:induction false} AtOneThird()
    ensures Wide(4294952757, Q31) == Q32 && Wide(4294952756, Q31 + 1) == Q32 - 1
  {
    WideIs(4294952757, Q31, 2147476378, Q32);
    WideIs(4294952756, Q31 + 1, 2147476378, Q32 - 1);
  }

  lemma {:induction false} WideFits(wide: nat, b: nat, atOne: nat)
    requires Q31 <= b && wide * b <= Q63 + Q32 && 0 < atOne < Q32
    requires b == Q31 ==> wide == atOne
    requires b == Q31 + 1 ==> wide == atOne - 1
    ensures wide < Q32
  {
    if b >= Q31 + 2 {
      Fits(wide, b);
    }
  }

  // ----- The last, wider step of the double-precision routine

  const Q126 := 0x4000_0000_0000_0000_0000_0000_0000_0000

  /** The error of the 32-bit reciprocal against all 64 bits of the divisor, b = hi * 2^32 + lo. */
  const WideStart := 0x8_4c99_72ef_0000_0000

  lemma {:induction false} WideStartError(hi: nat, lo: nat, x: int, b: nat)
    requires Q31 <= hi < Q32 && lo < Q32 && b == hi * Q32 + lo
    requires 0 <= x < Q32 && -Q32 <= Q63 - (x + 1) * hi <= ThreeSteps
    ensures Q95 - WideStart <= x * b <= Q95 + WideStart
    ensures x * b == x * hi * Q32 + x * lo && 0 <= x * lo < Q64 && Q31 * Q31 <= x * hi
  {
    Distrib(hi * Q32, lo, x);
    MulComm(x, b);
    MulComm(x, lo);
    MulAssoc(x, hi, Q32);
    MulComm(x, hi * Q32);
    Distrib(x, 1, hi);
    MulLe(x, Q32, lo);
    MulLe(lo, Q32, Q32);
    MulLe(0, x, lo);
  }

  /** The correction is the opposite of this, in 64-bit words. */
  function WideProduct(x: nat, hi: nat, lo: nat): nat { x * hi + x * lo / Q32 }

  function WideEstimate(x: int, hi: int, lo: int): int { x * (Q64 - (x * hi + x * lo / Q32)) / Q32 }

  lemma {:induction false} WideCorrection(x: nat, hi: nat, lo: nat)
    requires x < Q32 && Q31 <= hi < Q32 && lo < Q32
    requires -Q32 <= Q63 - (x + 1) * hi <= ThreeSteps
    ensures var h := WideProduct(x, hi, lo); 0 < h < Q64
    ensures var h, p := WideProduct(x, hi, lo), x * (hi * Q32 + lo);
      h * Q32 <= p < h * Q32 + Q32 && Q95 - WideStart <= p <= Q95 + WideStart
  {
    var b := hi * Q32 + lo;
    WideStartError(hi, lo, x, b);
    WideQuotient(x * hi, x * lo, x * b, WideProduct(x, hi, lo));
  }

  lemma {:induction false} Opposite(h: int)
    requires 0 < h < Q64
    ensures (-h) % Q64 == Q64 - h
  {
  }

  lemma {:induction false} WideBounds(x: nat, b: nat, h: nat, y: nat)
    requires h * Q32 <= x * b < h * Q32 + Q32 && Q95 - WideStart <= x * b <= Q95 + WideStart && b < Q64
    requires h < Q64 && y * Q32 <= x * (Q64 - h) < y * Q32 + Q32
    ensures -Q64 < Q126 - y * b < 0x47_0000_0000_0000_0000 + b
  {
    StepProducts(x, b, h, Q64 - h, y, Q64, Q32, Q32);
    WideStepError(x * b, y * b, b);
  }

  /** lib/divdf3.c:131-134: one step with a 64-bit correction. */
  method WideStep(x: nat, hi: nat, lo: nat) returns (y: nat)
    requires x < Q32 && Q31 <= hi < Q32 && lo < Q32
    requires -Q32 <= Q63 - (x + 1) * hi <= ThreeSteps
    ensures y < Q64
    ensures -Q64 < Q126 - y * (hi * Q32 + lo) < 0x47_0000_0000_0000_0000 + (hi * Q32 + lo)
    ensures y == WideEstimate(x, hi, lo)
  {
    WideCorrection(x, hi, lo);
    var h := x * hi + x * lo / Q32;
    assert h == WideProduct(x, hi, lo);
    hide WideProduct;
    var correction := (-h) % Q64;
    Opposite(h);
    var cHi := correction / Q32;
    var cLo := correction % Q32;
    y := x * cHi + x * cLo / Q32;
    SplitCorrection(x, correction, cHi, cLo);
    WideBounds(x, hi * Q32 + lo, h, y);
  }

  /** The high word of the product, the low word's contribution truncated. */
  lemma {:induction false} WideQuotient(ph: int, pl: nat, p: int, h: int)
    requires p == ph * Q32 + pl && h == ph + pl / Q32
    ensures h * Q32 <= p < h * Q32 + Q32
    ensures Q32 <= p < Q32 * Q64 ==> 0 < h < Q64
  {
  }

  lemma {:induction false} SplitCorrection(x: nat, c: nat, cHi: nat, cLo: nat)
    requires x < Q32 && c < Q64 && cHi == c / Q32 && cLo == c % Q32
    ensures x * cHi + x * cLo / Q32 == x * c / Q32 < Q64
    ensures (x * c / Q32) * Q32 <= x * c < (x * c / Q32) * Q32 + Q32
  {
    Distrib(cHi * Q32, cLo, x);
    MulComm(x, c);
    MulComm(x, cLo);
    MulAssoc(x, cHi, Q32);
    MulComm(x, cHi * Q32);
    WideQuotient(x * cHi, x * cLo, x * c, x * cHi + x * cLo / Q32);
    MulLe(x, Q32, c);
    MulLe(0, c, x);
  }

  lemma {:induction false} WideStepError(p: int, yb: int, b: nat)
    requires p * (2 * Q95 - p) - b * Q64 <= yb * Q64 <= p * (2 * Q95 + Q32 - p)
    requires Q95 - WideStart <= p <= Q95 + WideStart
    ensures -Q64 < Q126 - yb < 0x47_0000_0000_0000_0000 + b
  {
    StepError(p, yb, b, Q95, Q32, Q64, Q126);
    SquareLe(Q95 - p, WideStart);
  }
}
