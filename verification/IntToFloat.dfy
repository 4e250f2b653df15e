/** lib/floatdisf.c and lib/floatundisf.c: integers to floats.

The word width w and the destination format g are parameters; FLT_MANT_DIG is g.p + 1. */
module IntToFloat {
  import opened Bits
  import opened Floats
  import opened Rounding
  import opened SoftFloat

  /** Section 5.4.1 of IEEE 754-2008, convertFromInt: no integer of the word overflows. */
  ghost predicate IsConverted(g: Format, value: int, r: nat)
    requires g.Valid()
  {
    && r < Pow2(g.Width())
    && Negative(g, r) == (value < 0)
    && Nearest(g, Abs(g, r), Lsh(Distance(value, 0), g.Scale()), 1)
  }

  /** The destination can hold every integer of w bits, rounded. */
  ghost predicate Holds(g: Format, w: nat)
  {
    g.Valid() && g.Width() <= w <= g.Bias()
  }

  /** The value of a two's complement word. */
  function Signed(w: nat, a: nat): int
    requires w >= 1
  {
    if a < Pow2(w - 1) then a else a - Pow2(w)
  }

  // ----- The P, Q and R bits

  /** `a |= (a & 4) != 0; ++a; a >>= 2;` rounds the last two bits away, ties to even. */
  lemma {:induction false} RoundTwoBits(x: nat, base: nat)
    requires base % 2 == 0
    ensures base + Shr(Or(x, Bool(And(x, 4) != 0)) + 1, 2) == TieEven(base + Shr(x, 2), Low(x, 2), 2)
  {
    hide And;
    assert Pow2(2) == 4 by { assert Pow2(1) == 2; }
    BitTest(x, 2);
    OrBool(x, And(x, 4) != 0);
    QuarterDigits(x);
    QuarterDigits(Or(x, Bool(And(x, 4) != 0)) + 1);
  }

  lemma {:induction false} QuarterDigits(x: nat)
    ensures Shr(x, 2) == x / 4 && Low(x, 2) == x % 4
  {
    assert Shr(x, 2) == Shr(x / 2, 1) == x / 2 / 2;
    assert Low(x, 2) == 2 * Low(x / 2, 1) + x % 2;
    assert Low(x / 2, 1) == x / 2 % 2;
  }

  /** x is a with exactly p + 3 digits left, the last one sticky. */
  ghost predicate Gathered(g: Format, a: nat, x: nat)
    requires g.Valid() && BitLen(a) > g.p + 1
  {
    && Pow2(g.p + 2) <= x < Pow2(g.p + 3)
    && Sticky(x, Lsh(a, g.Scale()), g.Bias() + BitLen(a) - 4)
  }

  /** The integer with the digits below R collected into R. */
  lemma {:induction false} CollectDigits(g: Format, a: nat, k: nat)
    requires g.Valid() && BitLen(a) == k + g.p + 3
    ensures Gathered(g, a, ShiftSticky(a, k))
  {
    BitLenBounds(a);
    StickyShift(a, Lsh(a, g.Scale()), g.Scale(), k);
    DigitsLeft(a, g.p + 2, k);
  }

  lemma {:induction false} DigitsLeft(a: nat, m: nat, k: nat)
    requires Pow2(k + m) <= a < Pow2(k + m + 1)
    ensures Pow2(m) <= ShiftSticky(a, k) < Pow2(m + 1)
  {
    ShrLt(a, k, Pow2(m + 1));
    ShrLt(a, k, Pow2(m));
    LshPow2(m + 1, k);
    LshPow2(m, k);
    ShiftStickyValue(a, k);
    assert Pow2(m + 1) == 2 * Pow2(m);
  }

  lemma {:induction false} OneDigitShort(g: Format, a: nat)
    requires g.Valid() && BitLen(a) == g.p + 2
    ensures Gathered(g, a, 2 * a)
  {
    var half: nat := g.Scale() - 1;
    BitLenBounds(a);
    LshLsh(a, 1, half);
    assert Lsh(a, 1) == 2 * a;
  }

  lemma {:induction false} RoundGathered(g: Format, a: nat, x: nat, e: nat)
    requires g.Valid() && BitLen(a) > g.p + 1 && e == BitLen(a) - 1 + g.Bias() < g.MaxExponent()
    requires Gathered(g, a, x)
    ensures var sig := Shr(Or(x, Bool(And(x, 4) != 0)) + 1, 2);
      && Pow2(g.p) <= sig <= 2 * Pow2(g.p)
      && Nearest(g, Lsh(e - 1, g.p) + sig, Lsh(a, g.Scale()), 1)
  {
    hide Or, And, Val, Nearest, Lsh, Shr, Low, Sticky, Gathered;
    GatheredParts(g, a, x, e);
    LshEven(e - 1, g.p);
    RoundTwoBits(x, Lsh(e - 1, g.p));
    BinadeFits(g, e, Shr(x, 2));
    RoundSticky(g, e - 1, x, 2, Lsh(a, g.Scale()), 0, 0);
    NoScale(Lsh(e - 1, g.p), Shr(x, 2), Low(x, 2));
  }

  lemma {:induction false} NoScale(base: nat, high: nat, low: nat)
    requires base % 2 == 0
    ensures Pow2(0) == 1 && Pow2(1) == 2
    ensures base + high <= TieEven(base + high, low, 2) <= base + high + 1
  {
  }

  /** The digits above P and Q are those of the significand. */
  lemma {:induction false} GatheredParts(g: Format, a: nat, x: nat, e: nat)
    requires g.Valid() && BitLen(a) > g.p + 1 && e == BitLen(a) - 1 + g.Bias() && Gathered(g, a, x)
    ensures e >= 3 && Sticky(x, Lsh(Lsh(a, g.Scale()), 0), e - 3)
    ensures Pow2(g.p) <= Shr(x, 2) < 2 * Pow2(g.p)
  {
    hide BitLen;
    assert Pow2(g.p + 3) == 2 * Pow2(g.p + 2) == 4 * Pow2(g.p + 1) == 8 * Pow2(g.p);
    QuarterDigits(x);
  }

  lemma {:induction false} ExactInteger(g: Format, a: nat, sd: nat, e: nat)
    requires g.Valid() && 0 < sd == BitLen(a) <= g.p + 1 && e == sd - 1 + g.Bias() < g.MaxExponent()
    ensures var sig := Lsh(a, g.p + 1 - sd);
      && Pow2(g.p) <= sig < 2 * Pow2(g.p)
      && Nearest(g, Lsh(e - 1, g.p) + sig, Lsh(a, g.Scale()), 1)
  {
    hide Val, Shr, Low, Nearest;
    var sig := Lsh(a, g.p + 1 - sd);
    BitLenBounds(a);
    Normalised(a, g.p);
    ValPack(g, e - 1, sig);
    LshLsh(a, g.p + 1 - sd, e - 1);
    BinadeFits(g, e, sig);
    NearestExact(g, Lsh(e - 1, g.p) + sig);
  }

  // ----- The part common to both routines

  lemma {:induction false} LowDigitsMask(w: nat, k: nat)
    requires 0 < k <= w
    ensures Shr(Pow2(w) - 1, w - k) == Pow2(k) - 1
  {
    var j := w - k;
    LshPow2(k, j);
    LshDiff(Pow2(k), 1, j);
    LshPow2(0, j);
    SplitUnique(Pow2(k) - 1, Pow2(j) - 1, j);
  }

  lemma {:induction false} NothingShifted(a: nat)
    ensures ShiftSticky(a, 0) == a && Lsh(a, 1) == 2 * a
  {
  }

  /** Lines 41-59 of lib/floatdisf.c. */
  method Gather(w: nat, g: Format, a: nat, sd: nat) returns (x: nat)
    requires Holds(g, w) && 0 < a < Pow2(w) && g.p + 1 < sd == BitLen(a) <= w
    ensures Gathered(g, a, x)
  {
    hide Lsh, BitLen, Shr, Or, Low, Gathered;
    NothingShifted(a);
    if sd == g.p + 2 {
      OneDigitShort(g, a);
      Pow2Mono(g.p + 3, w);
      SplitSmall(2 * a, w);
      x := ShiftLeft(w, a, 1);
    } else if sd == g.p + 3 {
      CollectDigits(g, a, 0);
      x := a;
    } else {
      CollectDigits(g, a, sd - (g.p + 3));
      x := ShiftCollect(w, a, sd - (g.p + 3));
    }
  }

  /** `a >> k | (a & -1 >> (N - k)) != 0`. */
  method ShiftCollect(w: nat, a: nat, k: nat) returns (x: nat)
    requires a < Pow2(w) && 0 < k < w
    ensures x == ShiftSticky(a, k)
  {
    LowDigitsMask(w, k);
    AndMask(a, k);
    var high := ShiftRight(w, a, k);
    var mask := ShiftRight(w, Pow2(w) - 1, w - k);
    x := Or(high, Bool(And(a, mask) != 0));
  }

  /** A carry out of the significand is the bit above it. */
  lemma {:induction false} CarryBit(g: Format, sig: nat)
    requires Pow2(g.p) <= sig <= 2 * Pow2(g.p)
    ensures And(sig, Pow2(g.p + 1)) != 0 <==> sig == 2 * Pow2(g.p)
    ensures Shr(2 * Pow2(g.p), 1) == Pow2(g.p)
  {
    SplitSmall(sig, g.p + 1);
    BitTest(sig, g.p + 1);
  }

  /** `if (a & 1 << FLT_MANT_DIG) { a >>= 1; ++e; }` keeps the packed encoding. */
  method Renormalise(g: Format, sig: nat, exponent: nat) returns (a: nat, e: nat)
    requires g.Valid() && Pow2(g.p) <= sig <= 2 * Pow2(g.p) && exponent + g.Bias() >= 1
    ensures Pow2(g.p) <= a < 2 * Pow2(g.p) && exponent <= e <= exponent + 1
    ensures Lsh(e + g.Bias() - 1, g.p) + a == Lsh(exponent + g.Bias() - 1, g.p) + sig
  {
    a, e := sig, exponent;
    CarryBit(g, a);
    Binades(g, e + g.Bias() - 1, 1);
    if And(a, Pow2(g.p + 1)) != 0 {
      a := Shr(a, 1);
      e := e + 1;
    }
  }

  lemma {:induction false} FitsWord(w: nat, g: Format, sig: nat)
    requires Holds(g, w) && sig < 2 * Pow2(g.p)
    ensures Low(sig, w) == sig
  {
    Pow2Mono(g.p + 1, w);
    SplitSmall(sig, w);
  }

  lemma {:induction false} ExponentFits(w: nat, g: Format, sd: nat)
    requires Holds(g, w) && 0 < sd <= w
    ensures 1 <= sd - 1 + g.Bias() && sd + g.Bias() < g.MaxExponent()
  {
    InfFacts(g);
  }

  /** More digits than the significand has. */
  method RoundLong(w: nat, g: Format, magnitude: nat, sd: nat) returns (a: nat)
    requires Holds(g, w) && 0 < magnitude < Pow2(w) && g.p + 1 < sd == BitLen(magnitude) <= w
    ensures Pow2(g.p) <= a <= 2 * Pow2(g.p)
    ensures Nearest(g, Lsh(sd - 2 + g.Bias(), g.p) + a, Lsh(magnitude, g.Scale()), 1)
  {
    hide Lsh, Shr, Low, Or, And, Val, Nearest, Gathered, Pow2, BitLen;
    var e := sd - 1;
    ExponentFits(w, g, sd);
    a := Gather(w, g, magnitude, sd);
    RoundGathered(g, magnitude, a, e + g.Bias());
    a := Or(a, Bool(And(a, 4) != 0));
    a := a + 1;
    a := Shr(a, 2);
  }

  /** Significand and exponent of the rounded magnitude. */
  method RoundInteger(w: nat, g: Format, magnitude: nat) returns (a: nat, e: nat)
    requires Holds(g, w) && 0 < magnitude < Pow2(w)
    ensures Pow2(g.p) <= a < 2 * Pow2(g.p) && 1 <= e + g.Bias() < g.MaxExponent()
    ensures Nearest(g, Lsh(e + g.Bias() - 1, g.p) + a, Lsh(magnitude, g.Scale()), 1)
  {
    hide Lsh, Shr, Low, And, Val, Nearest, BitLen, Pow2;
    a := magnitude;
    BitLenLe(a, w);
    BitLenLe(a, 0);
    var sd := w - Clz(w, a);
    e := sd - 1;
    ExponentFits(w, g, sd);
    if sd > g.p + 1 {
      a := RoundLong(w, g, a, sd);
      a, e := Renormalise(g, a, e);
    } else {
      ExactInteger(g, a, sd, e + g.Bias());
      FitsWord(w, g, Lsh(a, g.p + 1 - sd));
      a := ShiftLeft(w, a, g.p + 1 - sd);
    }
  }

  /** From the magnitude a to the fields of the result. */
  method Assemble(w: nat, g: Format, magnitude: nat, sign: nat) returns (r: nat)
    requires Holds(g, w) && 0 < magnitude < Pow2(w)
    requires sign == 0 || sign == g.SignBit()
    ensures r < Pow2(g.Width()) && Negative(g, r) == (sign != 0)
    ensures Nearest(g, Abs(g, r), Lsh(magnitude, g.Scale()), 1)
  {
    var a, e := RoundInteger(w, g, magnitude);
    r := PackFields(g, e + g.Bias(), a, sign);
    InfFacts(g);
    SignJoin(g, sign, Lsh(e + g.Bias() - 1, g.p) + a);
  }

  // ----- Entry points

  lemma {:induction false} ZeroConverted(g: Format)
    requires g.Valid()
    ensures IsConverted(g, 0, 0)
  {
    LshZero(g.Scale());
    NearestZero(g, 0, 1);
    LowZero(g.p + g.eb);
  }

  /** `(a ^ s) - s` with s the sign spread over the word. */
  lemma {:induction false} Complement(a: nat, w: nat)
    requires a < Pow2(w)
    ensures Xor(a, Pow2(w) - 1) == Pow2(w) - 1 - a
  {
    if w > 0 {
      Complement(a / 2, w - 1);
      XorHalf(a, Pow2(w) - 1);
      assert (Pow2(w) - 1) / 2 == Pow2(w - 1) - 1 && (Pow2(w) - 1) % 2 == 1;
    }
  }

  lemma {:induction false} SpreadSign(w: nat, g: Format)
    requires g.Width() <= w
    ensures And(Low(Pow2(w) - 1, g.Width()), g.SignBit()) == g.SignBit()
    ensures And(Low(0, g.Width()), g.SignBit()) == 0
  {
    var k := g.Width();
    LshPow2(k, w - k);
    LowZero(k);
    LowOnes(w, k);
    LowDigitsMask(k, 1);
    BitTest(Pow2(k) - 1, k - 1);
  }

  lemma {:induction false} LowOnes(w: nat, k: nat)
    requires k <= w
    ensures Low(Pow2(w) - 1, k) == Pow2(k) - 1
  {
    LshPow2(k, w - k);
    LshDiff(Pow2(w - k), 1, k);
    LshPow2(w - k, k);
    LshPow2(0, k);
    SplitUnique(Pow2(w - k) - 1, Pow2(k) - 1, k);
  }

  lemma {:induction false} MagnitudeOf(w: nat, a: nat)
    requires w >= 1 && a < Pow2(w)
    ensures var s := if a < Pow2(w - 1) then 0 else Pow2(w) - 1;
      Low(Xor(a, s) + Pow2(w) - s, w) == Distance(Signed(w, a), 0)
  {
    Complement(a, w);
    XorZero(a, a);
    SplitSmall(Distance(Signed(w, a), 0), w);
    SplitUnique(1, a, w);
    LshPow2(0, w);
    assert Xor(a, 0) == a;
  }

  /** lib/floatdisf.c:30-79, on the two's complement word of the argument. */
  method FloatSigned(w: nat, g: Format, word: nat) returns (r: nat)
    requires Holds(g, w) && word < Pow2(w)
    ensures IsConverted(g, Signed(w, word), r)
  {
    if word == 0 {
      ZeroConverted(g);
      return 0;
    }
    // s = a >> (N - 1), an arithmetic shift
    var s := if word < Pow2(w - 1) then 0 else Pow2(w) - 1;
    MagnitudeOf(w, word);
    var a := Low(Xor(word, s) + Pow2(w) - s, w);
    Split(Xor(word, s) + Pow2(w) - s, w);
    SpreadSign(w, g);
    r := Assemble(w, g, a, And(Low(s, g.Width()), g.SignBit()));
    Pow2Mono(0, g.p + g.eb);
  }

  /** lib/floatundisf.c:30-76. */
  method FloatUnsigned(w: nat, g: Format, a: nat) returns (r: nat)
    requires Holds(g, w) && a < Pow2(w)
    ensures IsConverted(g, a, r)
  {
    if a == 0 {
      ZeroConverted(g);
      return 0;
    }
    r := Assemble(w, g, a, 0);
  }

  lemma {:induction false} SingleHolds()
    ensures Holds(Single(), 64)
  {
    assert Pow2(7) == 128 by { assert Pow2(4) == 16 by { assert Pow2(2) == 4; } assert Pow2(6) == 64; }
  }

  method Floatdisf(word: nat) returns (r: nat)
    requires word < Pow2(64)
    ensures IsConverted(Single(), Signed(64, word), r)
  {
    SingleHolds();
    r := FloatSigned(64, Single(), word);
  }

  method Floatundisf(a: nat) returns (r: nat)
    requires a < Pow2(64)
    ensures IsConverted(Single(), a, r)
  {
    SingleHolds();
    r := FloatUnsigned(64, Single(), a);
  }

  /** Rounded or not, conversion keeps the order of the integers. */
  lemma {:induction false} ConversionMonotone(g: Format, x: nat, y: nat, r: nat, s: nat)
    requires g.Valid() && x <= y && IsConverted(g, x, r) && IsConverted(g, y, s)
    ensures r <= s
  {
    SignCases(g, r);
    SignCases(g, s);
    LshMono(x, y, g.Scale());
    if s < r {
      ValMono(g, s, r);
      assert Distance(Val(g, r) * 1, Lsh(x, g.Scale())) <= Distance(Val(g, s) * 1, Lsh(x, g.Scale()));
      assert Distance(Val(g, s) * 1, Lsh(y, g.Scale())) <= Distance(Val(g, r) * 1, Lsh(y, g.Scale()));
      if x == y { NearestUnique(g, r, s, Lsh(x, g.Scale()), 1); }
    }
  }
}
