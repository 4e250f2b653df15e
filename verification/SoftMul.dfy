/** lib/mulsf3.c and lib/muldf3.c: soft-float multiplication, for any interchange format of even
width. */
module SoftMul {
  import opened Bits
  import opened Floats
  import opened Ieee
  import opened Rounding
  import opened SoftFloat
  import opened WideWords

  // ----- Rounding a double-word product

  /** The magnitude the tail of the routine packs from a product held in two words, the leading bit
      at place p of the high one. */
  ghost function PackedProduct(f: Format, e: int, hi: nat, lo: nat): nat
  {
    if e >= f.MaxExponent() then f.Inf()
    else if e >= 1 then TieEven(Lsh(e - 1, f.p) + hi, lo, f.SignBit())
    else if 1 - e >= f.Width() then 0
    else
      var y := ShiftSticky(Lsh(hi, f.Width()) + lo, 1 - e);
      TieEven(Shr(y, f.Width()), Low(y, f.Width()), f.SignBit())
  }

  /** x stands for the exact product n / 2^Scale at exponent e. */
  ghost predicate ProductAt(f: Format, e: int, x: nat, n: nat)
    requires f.Valid()
  {
    && Pow2(f.p + f.Width()) <= x < 2 * Pow2(f.p + f.Width())
    && e + f.Bias() + 3 * f.p >= 2
    && Lsh(x, e + f.Bias() + 3 * f.p - 2) == Lsh(n, 2 * f.p + f.Width())
  }

  lemma {:induction false} ProductHigh(f: Format, x: nat)
    requires Pow2(f.p + f.Width()) <= x < 2 * Pow2(f.p + f.Width())
    ensures Pow2(f.p) <= Shr(x, f.Width()) < 2 * Pow2(f.p)
  {
    LshPow2(f.p, f.Width());
    LshPow2(f.p + 1, f.Width());
    ShrLt(x, f.Width(), Pow2(f.p));
    ShrLt(x, f.Width(), 2 * Pow2(f.p));
  }

  lemma {:induction false} DenormalProduct(f: Format, x: nat, k: nat)
    requires x < 2 * Pow2(f.p + f.Width()) && k >= 1
    ensures Shr(ShiftSticky(x, k), f.Width()) < Pow2(f.p)
  {
    StickyHalf(x, k, f.p + f.Width());
    LshPow2(f.p, f.Width());
    ShrLt(ShiftSticky(x, k), f.Width(), Pow2(f.p));
  }

  /** Packing is correct rounding. */
  lemma {:induction false} PackedProductNearest(f: Format, e: int, hi: nat, lo: nat, n: nat)
    requires f.Valid() && lo < Pow2(f.Width()) && ProductAt(f, e, Lsh(hi, f.Width()) + lo, n)
    ensures Nearest(f, PackedProduct(f, e, hi, lo), n, Pow2(f.Scale()))
  {
    hide Lsh, Nearest, ProductAt, Pow2;
    var x := Lsh(hi, f.Width()) + lo;
    if e >= f.MaxExponent() {
      ProductOverflow(f, e, x, n);
    } else if e >= 1 {
      ProductNormal(f, e, hi, lo, n);
    } else if 1 - e >= f.Width() {
      ProductTiny(f, e, x, n);
    } else {
      ProductSubnormal(f, e, x, n);
    }
  }

  lemma {:induction false} ProductNormal(f: Format, e: nat, hi: nat, lo: nat, n: nat)
    requires f.Valid() && lo < Pow2(f.Width()) && ProductAt(f, e, Lsh(hi, f.Width()) + lo, n) && 1 <= e < f.MaxExponent()
    ensures Nearest(f, TieEven(Lsh(e - 1, f.p) + hi, lo, f.SignBit()), n, Pow2(f.Scale()))
  {
    var x := Lsh(hi, f.Width()) + lo;
    SplitUnique(hi, lo, f.Width());
    ProductHigh(f, x);
    BinadeFits(f, e, hi);
    RoundSticky(f, e - 1, x, f.Width(), n, f.Scale(), 2 * f.p + f.Width());
  }

  /** A product that is subnormal before rounding, after its denormalising shift. */
  lemma {:induction false} ProductSubnormal(f: Format, e: int, x: nat, n: nat)
    requires f.Valid() && ProductAt(f, e, x, n) && e <= 0
    ensures var y := ShiftSticky(x, 1 - e);
      Nearest(f, TieEven(Shr(y, f.Width()), Low(y, f.Width()), f.SignBit()), n, Pow2(f.Scale()))
  {
    var y, c := ShiftSticky(x, 1 - e), 2 * f.p + f.Width();
    InfFacts(f);
    DenormalProduct(f, x, 1 - e);
    LshZero(f.p);
    StickyShift(x, Lsh(n, c), e + f.Bias() + 3 * f.p - 2, 1 - e);
    RoundSticky(f, 0, y, f.Width(), n, f.Scale(), c);
  }

  lemma {:induction false} ProductOverflow(f: Format, e: int, x: nat, n: nat)
    requires f.Valid() && ProductAt(f, e, x, n) && e >= f.MaxExponent()
    ensures Nearest(f, f.Inf(), n, Pow2(f.Scale()))
  {
    var m: nat := f.p + f.MaxExponent() - 1;
    LowerBound(x, n, e + f.Bias() + 3 * f.p - 2, 2 * f.p + f.Width(), f.p + f.Width(), m + f.Scale());
    InfFacts(f);
    LshPow2(m, f.Scale());
    LshTimes(Pow2(m), f.Scale());
    NearestInf(f, n, Pow2(f.Scale()));
  }

  /** A product shifted out entirely is below half the smallest subnormal. */
  lemma {:induction false} ProductTiny(f: Format, e: int, x: nat, n: nat)
    requires f.Valid() && ProductAt(f, e, x, n) && 1 - e >= f.Width()
    ensures Nearest(f, 0, n, Pow2(f.Scale()))
  {
    assert x < Pow2(f.p + f.Width() + 1);
    UpperBound(x, n, e + f.Bias() + 3 * f.p - 2, 2 * f.p + f.Width(), f.p + f.Width() + 1, f.Scale());
    NearestZero(f, n, Pow2(f.Scale()));
  }

  lemma {:induction false} LowerBound(x: nat, n: nat, u: nat, c: nat, k: nat, t: nat)
    requires Lsh(x, u) == Lsh(n, c) && Pow2(k) <= x && t + c <= k + u
    ensures Pow2(t) <= n
  {
    LshMono(Pow2(k), x, u);
    LshPow2(k, u);
    Pow2Mono(t + c, k + u);
    LshPow2(t, c);
    LshMono(Pow2(t), n, c);
  }

  lemma {:induction false} UpperBound(x: nat, n: nat, u: nat, c: nat, k: nat, t: nat)
    requires Lsh(x, u) == Lsh(n, c) && x < Pow2(k) && k + u < t + c && t >= 1
    ensures 2 * n < Pow2(t)
  {
    LshMono(x, Pow2(k), u);
    LshPow2(k, u);
    Pow2Mono(k + u, t - 1 + c);
    LshPow2(t - 1, c);
    LshMono(n, Pow2(t - 1), c);
  }

  /** The product of two normalised significands, left-aligned: where its leading bit is. */
  lemma {:induction false} ProductRange(f: Format, sa: nat, sb: nat)
    requires Pow2(f.p) <= sa < 2 * Pow2(f.p) && Pow2(f.p) <= sb < 2 * Pow2(f.p)
    ensures Lsh(sb, f.eb) < Pow2(f.Width()) && sa * Lsh(sb, f.eb) == Lsh(sa * sb, f.eb)
    ensures Pow2(f.p + f.Width() - 1) <= Lsh(sa * sb, f.eb) < 4 * Pow2(f.p + f.Width() - 1)
  {
    LshMul(sa, 0, sb, f.eb);
    LshPow2(f.p + 1, f.eb);
    LshMono(sb, Pow2(f.p + 1), f.eb);
    ProductOfSignificands(f, sa, sb);
    LshPow2(2 * f.p, f.eb);
    LshPow2(2 * f.p + 2, f.eb);
    LshMono(Pow2(2 * f.p), sa * sb, f.eb);
    LshMono(sa * sb, Pow2(2 * f.p + 2), f.eb);
  }

  /** What it stands for. */
  lemma {:induction false} ProductMeaning(f: Format, va: nat, sa: nat, ea: int, vb: nat, sb: nat, eb: int)
    requires 1 - f.p <= ea && 1 - f.p <= eb
    requires Lsh(va, f.p) == Lsh(sa, ea - 1 + f.p) && Lsh(vb, f.p) == Lsh(sb, eb - 1 + f.p)
    ensures ea + eb + 3 * f.p - 1 >= 0
    ensures Lsh(Lsh(sa * sb, f.eb), ea + eb + 3 * f.p - 1) == Lsh(va * vb, 2 * f.p + f.Width())
  {
    hide Lsh;
    LshMul(va, f.p, vb, f.p);
    LshMul(sa, ea - 1 + f.p, sb, eb - 1 + f.p);
    LshLsh(va * vb, 2 * f.p, f.Width());
    LshLsh(sa * sb, ea + eb - 2 + 2 * f.p, f.Width());
    LshLsh(sa * sb, f.eb, ea + eb + 3 * f.p - 1);
  }

  lemma {:induction false} ProductOfSignificands(f: Format, sa: nat, sb: nat)
    requires Pow2(f.p) <= sa < 2 * Pow2(f.p) && Pow2(f.p) <= sb < 2 * Pow2(f.p)
    ensures Pow2(2 * f.p) <= sa * sb < Pow2(2 * f.p + 2)
  {
    var m := Pow2(f.p);
    LshTimes(m, f.p);
    LshPow2(f.p, f.p);
    MulLe(m, sa, m);
    MulLe(m, sb, sa);
    MulLe(sa, 2 * m, sb);
    MulLe(sb, 2 * m, 2 * m);
    assert 2 * m * (2 * m) == 4 * (m * m);
  }

  // ----- Multiplying, rounding and packing

  /** lib/mulsf3.c:112-134.  The double version returns early when the result underflows past the
      whole word (lib/muldf3.c:125-126). */
  method RoundProduct(f: Format, early: bool, hi: nat, lo: nat, productExponent: int, productSign: nat) returns (r: nat)
    requires f.Valid() && Pow2(f.p) <= hi < 2 * Pow2(f.p) && lo < Pow2(f.Width())
    requires productSign == 0 || productSign == f.SignBit()
    ensures r == productSign + PackedProduct(f, productExponent, hi, lo)
  {
    if productExponent >= f.MaxExponent() {
      InfSigned(f, productSign);
      return Or(f.Inf(), productSign);
    }
    if productExponent <= 0 {
      var shift := 1 - productExponent;
      if early && shift >= f.Width() { return productSign; }
      // below the normal range: the exponent field will be zero
      r := DenormalTail(f, hi, lo, shift, productSign);
    } else {
      r := NormalTail(f, hi, lo, productExponent, productSign);
    }
  }

  /** The last branch: the exponent goes in beside the significand, and the low word decides. */
  method NormalTail(f: Format, hi: nat, lo: nat, exponent: nat, sign: nat) returns (r: nat)
    requires f.Valid() && Pow2(f.p) <= hi < 2 * Pow2(f.p) && 1 <= exponent < f.MaxExponent()
    requires sign == 0 || sign == f.SignBit()
    ensures r == sign + TieEven(Lsh(exponent - 1, f.p) + hi, lo, f.SignBit())
  {
    var packed := PackFields(f, exponent, hi, sign);
    r := RoundLow(f, packed, lo, sign);
  }

  lemma {:induction false} ProductWords(f: Format, e: int, hi: nat, lo: nat, n: nat)
    requires f.Valid() && ProductAt(f, e, Lsh(hi, f.Width()) + lo, n) && lo < Pow2(f.Width())
    ensures Pow2(f.p) <= hi < 2 * Pow2(f.p)
  {
    SplitUnique(hi, lo, f.Width());
    ProductHigh(f, Lsh(hi, f.Width()) + lo);
  }

  /** lib/mulsf3.c:101-111: the product, its leading bit at place p + w. */
  method Multiply(f: Format, aSig: nat, aExp: int, bSig: nat, bExp: int, ghost va: nat, ghost vb: nat)
    returns (hi: nat, lo: nat, productExponent: int)
    requires f.Valid() && f.Width() % 2 == 0
    requires Pow2(f.p) <= aSig < 2 * Pow2(f.p) && Pow2(f.p) <= bSig < 2 * Pow2(f.p)
    requires 1 - f.p <= aExp && Lsh(va, f.p) == Lsh(aSig, aExp - 1 + f.p)
    requires 1 - f.p <= bExp && Lsh(vb, f.p) == Lsh(bSig, bExp - 1 + f.p)
    ensures Pow2(f.p) <= hi < 2 * Pow2(f.p) && lo < Pow2(f.Width())
    ensures ProductAt(f, productExponent, Lsh(hi, f.Width()) + lo, va * vb)
  {
    ProductRange(f, aSig, bSig);
    ProductMeaning(f, va, aSig, aExp, vb, bSig, bExp);
    AlignedFits(f, aSig, bSig);
    var aligned := ShiftLeft(f.Width(), bSig, f.eb);
    hi, lo := WideMultiply(f, aSig, aligned);
    productExponent := aExp + bExp - f.Bias();
    TopBit(f, hi, lo);
    // the leading bit of the product is at one of two places
    if And(hi, f.Implicit()) != 0 {
      productExponent := productExponent + 1;
    } else {
      DoubleProduct(Lsh(hi, f.Width()) + lo, hi, aExp + bExp + 3 * f.p - 1);
      hi, lo := WideLeftShift(f.Width(), hi, lo, 1);
    }
    ProductWords(f, productExponent, hi, lo, va * vb);
  }

  lemma {:induction false} AlignedFits(f: Format, aSig: nat, bSig: nat)
    requires aSig < 2 * Pow2(f.p) && Lsh(bSig, f.eb) < Pow2(f.Width())
    ensures aSig < Pow2(f.Width()) && Low(Lsh(bSig, f.eb), f.Width()) == Lsh(bSig, f.eb)
  {
    Pow2Mono(f.p + 1, f.Width());
    SplitSmall(Lsh(bSig, f.eb), f.Width());
  }

  lemma {:induction false} DoubleProduct(x: nat, hi: nat, u: int)
    requires u >= 1
    ensures Lsh(Lsh(x, 1), u - 1) == Lsh(x, u)
    ensures Lsh(x, 1) == 2 * x && Lsh(hi, 1) == 2 * hi && Pow2(1) == 2
  {
    LshLsh(x, 1, u - 1);
  }

  lemma {:induction false} TopBit(f: Format, hi: nat, lo: nat)
    requires f.Valid() && lo < Pow2(f.Width())
    requires Pow2(f.p + f.Width() - 1) <= Lsh(hi, f.Width()) + lo < 4 * Pow2(f.p + f.Width() - 1)
    ensures And(hi, f.Implicit()) != 0 <==> Lsh(hi, f.Width()) + lo >= Pow2(f.p + f.Width())
    ensures And(hi, f.Implicit()) == 0 ==> 2 * hi + 2 <= Pow2(f.Width())
  {
    var x := Lsh(hi, f.Width()) + lo;
    SplitUnique(hi, lo, f.Width());
    LshPow2(f.p, f.Width());
    LshPow2(f.p + 1, f.Width());
    ShrLt(x, f.Width(), Pow2(f.p));
    ShrLt(x, f.Width(), Pow2(f.p + 1));
    SplitSmall(hi, f.p);
    BitTest(hi, f.p);
    Pow2Mono(f.p + 1, f.Width());
  }

  /** The final rounding: the low word is compared with one half. */
  method RoundLow(f: Format, packed: nat, lo: nat, sign: nat) returns (r: nat)
    requires f.Valid() && (sign == 0 || sign == f.SignBit()) && sign <= packed
    ensures r == sign + TieEven(packed - sign, lo, f.SignBit())
  {
    r := packed;
    SignParity(f, sign, packed - sign);
    if lo > f.SignBit() { r := r + 1; }
    if lo == f.SignBit() { r := r + And(r, 1); }
  }

  /** The underflow branch, the count the full width of a word included. */
  method DenormalTail(f: Format, hi0: nat, lo0: nat, shift: int, sign: nat) returns (r: nat)
    requires f.Valid() && hi0 < 2 * Pow2(f.p) && lo0 < Pow2(f.Width()) && shift >= 1
    requires sign == 0 || sign == f.SignBit()
    ensures shift < f.Width() ==> r == sign + var y := ShiftSticky(Lsh(hi0, f.Width()) + lo0, shift);
      TieEven(Shr(y, f.Width()), Low(y, f.Width()), f.SignBit())
    ensures shift >= f.Width() ==> r == sign
  {
    Pow2Mono(f.p + 1, f.Width());
    var hi, lo := WideRightShiftWithSticky(f.Width(), hi0, lo0, shift);
    DenormalWords(f, hi0, lo0, shift, hi, lo);
    SignJoin(f, sign, hi);
    r := RoundLow(f, Or(hi, sign), lo, sign);
  }

  lemma {:induction false} DenormalWords(f: Format, hi0: nat, lo0: nat, shift: nat, hi: nat, lo: nat)
    requires f.Valid() && hi0 < 2 * Pow2(f.p) && lo0 < Pow2(f.Width()) && shift >= 1
    requires shift != f.Width() ==> Lsh(hi, f.Width()) + lo == ShiftSticky(Lsh(hi0, f.Width()) + lo0, shift) && lo < Pow2(f.Width())
    requires shift == f.Width() ==> hi == 0 && (lo == hi0 || lo == Or(hi0, 1))
    ensures hi < f.SignBit()
    ensures shift != f.Width() ==> var y := ShiftSticky(Lsh(hi0, f.Width()) + lo0, shift);
      hi == Shr(y, f.Width()) && lo == Low(y, f.Width())
    ensures shift >= f.Width() ==> hi == 0 && lo < f.SignBit()
  {
    hide ShiftSticky, Lsh, Shr, Low;
    var x := Lsh(hi0, f.Width()) + lo0;
    WideBound(hi0, lo0, f.p + 1, f.Width());
    Pow2Mono(f.p + 3, f.Width() - 1);
    if shift == f.Width() {
      OrBool(hi0, true);
    } else {
      SplitUnique(hi, lo, f.Width());
      DenormalProduct(f, x, shift);
      if shift > f.Width() {
        LongShift(x, f.p, f.Width(), shift);
        SplitSmall(ShiftSticky(x, shift), f.Width());
      }
    }
  }

  lemma {:induction false} WideBound(hi: nat, lo: nat, k: nat, w: nat)
    requires hi < Pow2(k) && lo < Pow2(w)
    ensures Lsh(hi, w) + lo < Pow2(k + w)
  {
    LshMono(hi, Pow2(k), w);
    LshPow2(k, w);
  }

  lemma {:induction false} LongShift(x: nat, p: nat, w: nat, shift: nat)
    requires x < Pow2(p + 1 + w) && shift > w
    ensures ShiftSticky(x, shift) <= Pow2(p + 1)
  {
    ShrLt(x, shift, Pow2(p));
    LshPow2(p, shift);
    Pow2Mono(p + 1 + w, p + shift);
    ShiftStickyValue(x, shift);
  }

  // ----- The whole routine

  lemma {:induction false} SignedNearest(f: Format, sign: nat, abs: nat, n: nat, d: nat)
    requires f.Valid() && (sign == 0 || sign == f.SignBit()) && Nearest(f, abs, n, d)
    ensures sign + abs < Pow2(f.Width())
    ensures Negative(f, sign + abs) == (sign != 0) && Nearest(f, Abs(f, sign + abs), n, d)
  {
    InfFacts(f);
    SignJoin(f, sign, abs);
  }

  /** lib/mulsf3.c:46-134, lib/muldf3.c:48-146; `early` selects the double version's early return. */
  method Mul(f: Format, early: bool, a: nat, b: nat) returns (r: nat)
    requires f.Valid() && f.Width() % 2 == 0 && a < Pow2(f.Width()) && b < Pow2(f.Width())
    ensures r < Pow2(f.Width())
    ensures IsProduct(f, a, b, r)
  {
    FieldsOf(f, a);
    FieldsOf(f, b);
    var aExponent := And(Shr(a, f.p), f.MaxExponent());
    var bExponent := And(Shr(b, f.p), f.MaxExponent());
    // one test for each exponent field: both ends of its range are special
    if OutOfRange(f, aExponent) || OutOfRange(f, bExponent) {
      var done, special := MulSpecial(f, a, b);
      if done { return special; }
    } else {
      NormalField(f, Abs(f, a));
      NormalField(f, Abs(f, b));
    }
    ghost var sign, e, hi, lo;
    r, sign, e, hi, lo := MulParts(f, early, a, b);
    FiniteProduct(f, a, b, sign, e, hi, lo);
  }

  /** `exponent - 1U >= maxExponent - 1U`. */
  predicate OutOfRange(f: Format, exponent: nat)
  {
    exponent == 0 || exponent >= f.MaxExponent()
  }

  lemma {:induction false} NormalField(f: Format, abs: nat)
    requires !OutOfRange(f, Shr(abs, f.p))
    ensures 0 < abs < f.Inf()
  {
    ShrLt(abs, f.p, f.MaxExponent());
    LowZero(f.p);
  }

  /** The exact product in two words, and its rounding. */
  method MulParts(f: Format, early: bool, a: nat, b: nat)
    returns (r: nat, ghost sign: nat, ghost e: int, ghost hi: nat, ghost lo: nat)
    requires f.Valid() && f.Width() % 2 == 0 && a < Pow2(f.Width()) && b < Pow2(f.Width())
    requires 0 < Abs(f, a) < f.Inf() && 0 < Abs(f, b) < f.Inf()
    ensures sign == if Negative(f, a) != Negative(f, b) then f.SignBit() else 0
    ensures lo < Pow2(f.Width()) && ProductAt(f, e, Lsh(hi, f.Width()) + lo, Val(f, Abs(f, a)) * Val(f, Abs(f, b)))
    ensures r == sign + PackedProduct(f, e, hi, lo)
  {
    var productSign := And(Xor(a, b), f.SignBit());
    XorSign(f, a, b);
    var aSignificand, aExp := Extract(f, a);
    var bSignificand, bExp := Extract(f, b);
    var productHi, productLo, productExponent :=
      Multiply(f, aSignificand, aExp, bSignificand, bExp, Val(f, Abs(f, a)), Val(f, Abs(f, b)));
    r := RoundProduct(f, early, productHi, productLo, productExponent, productSign);
    sign, e, hi, lo := productSign, productExponent, productHi, productLo;
  }

  lemma {:induction false} FiniteProduct(f: Format, a: nat, b: nat, sign: nat, e: int, hi: nat, lo: nat)
    requires f.Valid() && IsFinite(f, a) && IsFinite(f, b) && lo < Pow2(f.Width())
    requires sign == if Negative(f, a) != Negative(f, b) then f.SignBit() else 0
    requires ProductAt(f, e, Lsh(hi, f.Width()) + lo, Val(f, Abs(f, a)) * Val(f, Abs(f, b)))
    ensures sign + PackedProduct(f, e, hi, lo) < Pow2(f.Width())
    ensures IsProduct(f, a, b, sign + PackedProduct(f, e, hi, lo))
  {
    hide Nearest, ProductAt, PackedProduct, Lsh, Val;
    var n := Val(f, Abs(f, a)) * Val(f, Abs(f, b));
    PackedProductNearest(f, e, hi, lo, n);
    SignedNearest(f, sign, PackedProduct(f, e, hi, lo), n, Pow2(f.Scale()));
  }

  /** lib/mulsf3.c:55-83: NaN, infinity and zero operands. */
  method MulSpecial(f: Format, a: nat, b: nat) returns (done: bool, r: nat)
    requires f.Valid() && a < Pow2(f.Width()) && b < Pow2(f.Width())
    ensures done ==> r < Pow2(f.Width()) && IsProduct(f, a, b, r)
    ensures !done ==> 0 < Abs(f, a) < f.Inf() && 0 < Abs(f, b) < f.Inf()
  {
    hide Or, And, Xor, Val, Low, Lsh, Shr, Nearest;
    SignCases(f, a);
    SignCases(f, b);
    InfFacts(f);
    XorSign(f, a, b);
    var aAbs := And(a, f.SignBit() - 1);
    var bAbs := And(b, f.SignBit() - 1);
    var productSign := And(Xor(a, b), f.SignBit());
    done := true;
    if aAbs > f.Inf() {
      QuietNaN(f, a);
      return true, Or(a, f.Quiet());
    }
    if bAbs > f.Inf() {
      QuietNaN(f, b);
      return true, Or(b, f.Quiet());
    }
    if aAbs == f.Inf() {
      SignJoin(f, productSign, aAbs);
      return true, if bAbs != 0 then Or(aAbs, productSign) else f.QNaN();
    }
    if bAbs == f.Inf() {
      SignJoin(f, productSign, bAbs);
      return true, if aAbs != 0 then Or(bAbs, productSign) else f.QNaN();
    }
    if aAbs == 0 || bAbs == 0 {
      ZeroProduct(f, a, b, productSign);
      return true, productSign;
    }
    return false, 0;
  }

  lemma {:induction false} ZeroProduct(f: Format, a: nat, b: nat, sign: nat)
    requires f.Valid() && IsFinite(f, a) && IsFinite(f, b) && (Abs(f, a) == 0 || Abs(f, b) == 0)
    requires sign == if Negative(f, a) != Negative(f, b) then f.SignBit() else 0
    ensures IsProduct(f, a, b, sign)
  {
    LowZero(f.p);
    var va, vb := Val(f, Abs(f, a)), Val(f, Abs(f, b));
    MulComm(va, vb);
    MulComm(vb, va);
    NearestZero(f, va * vb, Pow2(f.Scale()));
    SignedNearest(f, sign, 0, va * vb, Pow2(f.Scale()));
  }

  /** __mulsf3. */
  method Mulsf3(a: nat, b: nat) returns (r: nat)
    requires a < Pow2(32) && b < Pow2(32)
    ensures r < Pow2(32) && IsProduct(Single(), a, b, r)
  {
    r := Mul(Single(), false, a, b);
  }

  /** __muldf3. */
  method Muldf3(a: nat, b: nat) returns (r: nat)
    requires a < Pow2(64) && b < Pow2(64)
    ensures r < Pow2(64) && IsProduct(Double(), a, b, r)
  {
    r := Mul(Double(), true, a, b);
  }

  /** The specification leaves no freedom outside NaN results, and it is symmetric. */
  lemma {:induction false} ProductUnique(f: Format, a: nat, b: nat, r: nat, s: nat)
    requires f.Valid() && !IsNaN(f, a) && !IsNaN(f, b)
    requires r < Pow2(f.Width()) && s < Pow2(f.Width())
    requires IsProduct(f, a, b, r) && IsProduct(f, b, a, s)
    ensures r == s
  {
    SignCases(f, r);
    SignCases(f, s);
    if IsFinite(f, a) && IsFinite(f, b) {
      var va, vb := Val(f, Abs(f, a)), Val(f, Abs(f, b));
      MulComm(va, vb);
      NearestUnique(f, Abs(f, r), Abs(f, s), va * vb, Pow2(f.Scale()));
    }
  }
}
