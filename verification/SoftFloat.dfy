/** The helpers of lib/fp_lib.h, and the steps common to the soft-float routines. */
module SoftFloat {
  import opened Bits
  import opened Floats
  import opened Rounding

  // ----- Fields of an encoding

  lemma {:induction false} SignCases(f: Format, x: nat)
    requires x < Pow2(f.Width())
    ensures x == (if Negative(f, x) then f.SignBit() else 0) + Abs(f, x)
    ensures Abs(f, x) < f.SignBit()
    ensures Shr(x, f.p + f.eb) == if Negative(f, x) then 1 else 0
    ensures And(x, f.SignBit()) == if Negative(f, x) then f.SignBit() else 0
    ensures And(x, f.SignBit() - 1) == Abs(f, x)
  {
    hide Low, Shr;
    SplitSmall(x, f.p + f.eb);
    BitTest(x, f.p + f.eb);
    AndMask(x, f.p + f.eb);
  }

  lemma {:induction false} XorSign(f: Format, a: nat, b: nat)
    requires a < Pow2(f.Width()) && b < Pow2(f.Width())
    ensures Shr(Xor(a, b), f.p + f.eb) == if Negative(f, a) != Negative(f, b) then 1 else 0
    ensures And(Xor(a, b), f.SignBit()) == if Negative(f, a) != Negative(f, b) then f.SignBit() else 0
  {
    SignDigit(f, a);
    SignDigit(f, b);
    XorHigh(a, b, f.p + f.eb);
    BitTest(Xor(a, b), f.p + f.eb);
  }

  lemma {:induction false} SignDigit(f: Format, x: nat)
    requires x < Pow2(f.Width())
    ensures Shr(x, f.p + f.eb) == if Negative(f, x) then 1 else 0
  {
    SplitSmall(x, f.p + f.eb);
  }

  /** A sign and a magnitude put together. */
  lemma {:induction false} SignJoin(f: Format, sign: nat, abs: nat)
    requires (sign == 0 || sign == f.SignBit()) && abs < f.SignBit()
    ensures sign + abs < Pow2(f.Width()) && Or(abs, sign) == sign + abs
    ensures Negative(f, sign + abs) == (sign != 0) && Abs(f, sign + abs) == abs
  {
    SplitSmall(sign + abs, f.p + f.eb);
    LshPow2(0, f.p + f.eb);
    OrFields(1, abs, f.p + f.eb);
  }

  /** A word holds the significand and several bits more. */
  lemma {:induction false} WordRoom(f: Format)
    requires f.Valid()
    ensures 16 * Pow2(f.p) <= f.SignBit() && Pow2(f.Width()) == 2 * f.SignBit()
  {
    Pow2Mono(f.p + 4, f.p + f.eb);
    assert Pow2(f.p + 4) == 2 * Pow2(f.p + 3) && Pow2(f.p + 3) == 2 * Pow2(f.p + 2) && Pow2(f.p + 2) == 2 * Pow2(f.p + 1);
  }

  lemma {:induction false} InfSigned(f: Format, sign: nat)
    requires f.Valid() && (sign == 0 || sign == f.SignBit())
    ensures Or(f.Inf(), sign) == sign + f.Inf()
  {
    InfFacts(f);
    SignJoin(f, sign, f.Inf());
  }

  lemma {:induction false} SignParity(f: Format, sign: nat, abs: nat)
    requires f.Valid() && (sign == 0 || sign == f.SignBit())
    ensures And(sign + abs, 1) == abs % 2
  {
    AndOne(sign + abs);
    LowParity(0, f.p + f.eb);
  }

  lemma {:induction false} FieldsOf(f: Format, x: nat)
    ensures And(x, f.Implicit() - 1) == Low(Abs(f, x), f.p)
    ensures And(Shr(x, f.p), f.MaxExponent()) == Shr(Abs(f, x), f.p)
  {
    AndMask(x, f.p);
    AndMask(Shr(x, f.p), f.eb);
    LowLow(x, f.p, f.eb);
  }

  lemma {:induction false} ImplicitBit(f: Format, x: nat)
    requires x < 2 * Pow2(f.p)
    ensures Or(x, f.Implicit()) == if x < Pow2(f.p) then x + Pow2(f.p) else x
  {
    SplitSmall(x, f.p);
    OrBit(x, f.p);
  }

  /** Setting the quiet bit of a NaN leaves a quiet NaN. */
  lemma {:induction false} QuietNaN(f: Format, x: nat)
    requires f.Valid() && x < Pow2(f.Width()) && IsNaN(f, x)
    ensures Or(x, f.Quiet()) < Pow2(f.Width())
    ensures IsQuietNaN(f, Or(x, f.Quiet()))
  {
    var k: nat := f.p - 1;
    assert f.Quiet() == Pow2(k);
    OrBitFields(x, k, f.p + f.eb);
    OrBit(Abs(f, x), k);
    Pow2Mono(k, f.Width());
    OrBound(x, Pow2(k), f.Width());
  }

  // ----- Significand and exponent of a finite magnitude

  /** sig and e are the normalised significand and the exponent of abs: subnormals have exponents
      down to 1 - p.  The value is 2^(e - 1) * sig, here scaled by 2^p to stay an integer. */
  ghost predicate Parts(f: Format, abs: nat, sig: nat, e: int)
  {
    && Pow2(f.p) <= sig < 2 * Pow2(f.p)
    && 1 - f.p <= e < f.MaxExponent()
    && Lsh(Val(f, abs), f.p) == Lsh(sig, e - 1 + f.p)
  }

  /** normalize() of fp_lib.h. */
  method Normalize(f: Format, significand: nat) returns (s: nat, e: int)
    requires f.Valid() && 0 < significand < Pow2(f.p)
    ensures 1 - f.p <= e <= 0
    ensures s == Lsh(significand, 1 - e)
    ensures Pow2(f.p) <= s < 2 * Pow2(f.p)
  {
    Pow2Mono(f.p + 1, f.Width());
    var shift := Clz(f.Width(), significand) - Clz(f.Width(), f.Implicit());
    BitLenUnique(f.Implicit(), f.p + 1);
    BitLenLe(significand, f.p);
    Normalised(significand, f.p);
    s := ShiftLeft(f.Width(), significand, shift);
    SplitSmall(Lsh(significand, shift), f.Width());
    e := 1 - shift;
    BitLenLe(significand, 0);
  }

  lemma {:induction false} PartsNormal(f: Format, abs: nat)
    requires f.Valid() && abs < f.Inf() && Shr(abs, f.p) != 0
    ensures Parts(f, abs, Pow2(f.p) + Low(abs, f.p), Shr(abs, f.p))
  {
    Split(abs, f.p);
    ShrLt(abs, f.p, f.MaxExponent());
    LshLsh(Pow2(f.p) + Low(abs, f.p), Shr(abs, f.p) - 1, f.p);
  }

  lemma {:induction false} PartsSubnormal(f: Format, abs: nat, s: nat, e: int)
    requires f.Valid() && 0 < abs < Pow2(f.p)
    requires 1 - f.p <= e <= 0 && s == Lsh(abs, 1 - e) && Pow2(f.p) <= s < 2 * Pow2(f.p)
    ensures Parts(f, abs, s, e)
  {
    InfFacts(f);
    SplitSmall(abs, f.p);
    LshLsh(abs, 1 - e, e - 1 + f.p);
  }

  /** Splits a finite non-zero encoding, normalising a subnormal, and sets the implicit bit. */
  method Extract(f: Format, rep: nat) returns (significand: nat, exponent: int)
    requires f.Valid() && rep < Pow2(f.Width()) && 0 < Abs(f, rep) < f.Inf()
    ensures Parts(f, Abs(f, rep), significand, exponent)
  {
    var abs := Abs(f, rep);
    FieldsOf(f, rep);
    Split(abs, f.p);
    var high := ShiftRight(f.Width(), rep, f.p);
    exponent := And(high, f.MaxExponent());
    significand := And(rep, f.Implicit() - 1);
    if exponent == 0 {
      LshZero(f.p);
      significand, exponent := Normalize(f, significand);
      PartsSubnormal(f, abs, significand, exponent);
    } else {
      PartsNormal(f, abs);
    }
    ImplicitBit(f, significand);
    significand := Or(significand, f.Implicit());
  }

  /** Significands and exponents are ordered like the magnitudes. */
  lemma {:induction false} PartsOrder(f: Format, a: nat, sa: nat, ea: int, b: nat, sb: nat, eb: int)
    requires Parts(f, a, sa, ea) && Parts(f, b, sb, eb) && b <= a
    ensures eb <= ea
    ensures eb == ea ==> sb <= sa
  {
    ValMono(f, b, a);
    LshMono(Val(f, b), Val(f, a), f.p);
    if eb > ea {
      LshLsh(sb, eb - ea, ea - 1 + f.p);
      LshGe(sb, eb - ea);
      LshMono(Lsh(sb, eb - ea), sa, ea - 1 + f.p);
    } else if eb == ea {
      LshMono(sb, sa, ea - 1 + f.p);
    }
  }

  // ----- Shifts with a sticky bit

  /** `x << (w - k)` is non-zero exactly when `x >> k` drops a set bit. */
  lemma {:induction false} ShiftedOut(x: nat, w: nat, k: nat)
    requires k <= w
    ensures Low(Lsh(x, w - k), w) == Lsh(Low(x, k), w - k)
    ensures Low(Lsh(x, w - k), w) != 0 <==> Low(x, k) != 0
  {
    LowLsh(x, w - k, w);
    LshMono(0, Low(x, k), w - k);
    LshZero(w - k);
  }

  lemma {:induction false} ShrHalf(x: nat, k: nat, n: nat)
    requires k >= 1 && x < 2 * Pow2(n)
    ensures Shr(x, k) < Pow2(n)
  {
    ShrLt(x / 2, k - 1, Pow2(n));
    LshGe(Pow2(n), k - 1);
  }

  /** A sticky shift by one place or more makes room for the sticky bit. */
  lemma {:induction false} StickyHalf(x: nat, k: nat, n: nat)
    requires k >= 1 && n >= 1 && x < 2 * Pow2(n)
    ensures ShiftSticky(x, k) < Pow2(n)
  {
    ShrHalf(x, k, n);
    ShiftStickyValue(x, k);
    LowParity(0, n);
  }

  /** A sticky shift that leaves nothing but the sticky bit. */
  lemma {:induction false} ShiftStickyAll(x: nat, k: nat)
    requires 0 < x < Pow2(k)
    ensures ShiftSticky(x, k) == 1
  {
    SplitSmall(x, k);
    ShiftStickyValue(x, k);
  }

  /** `x >> k | sticky` as the routines write it.  A count outside 1..width-1 leaves it open. */
  method RightShiftSticky(f: Format, x: nat, k: int) returns (r: nat)
    requires x < Pow2(f.Width())
    ensures 1 <= k < f.Width() ==> r == ShiftSticky(x, k)
  {
    var out := ShiftLeft(f.Width(), x, f.Width() - k);
    if 1 <= k < f.Width() {
      ShiftedOut(x, f.Width(), k);
    }
    var high := ShiftRight(f.Width(), x, k);
    r := Or(high, Bool(out != 0));
  }

  // ----- Packing

  /** `sig & significandMask | exponent << significandBits | sign`. */
  method PackFields(f: Format, exponent: nat, sig: nat, sign: nat) returns (result: nat)
    requires f.Valid() && exponent < f.MaxExponent()
    requires if exponent == 0 then sig < Pow2(f.p) else Pow2(f.p) <= sig < 2 * Pow2(f.p)
    requires sign == 0 || sign == f.SignBit()
    ensures result == sign + (if exponent == 0 then sig else Lsh(exponent - 1, f.p) + sig)
  {
    InfFacts(f);
    result := And(sig, f.Implicit() - 1);
    AndMask(sig, f.p);
    SplitSmall(sig, f.p);
    FieldRoom(f, exponent);
    var field := ShiftLeft(f.Width(), exponent, f.p);
    OrFields(exponent, result, f.p);
    result := Or(result, field);
    SignJoin(f, sign, result);
    result := Or(result, sign);
  }

  lemma {:induction false} FieldRoom(f: Format, exponent: nat)
    requires exponent < f.MaxExponent()
    ensures Low(Lsh(exponent, f.p), f.Width()) == Lsh(exponent, f.p)
    ensures Lsh(exponent, f.p) + Pow2(f.p) <= f.Inf() < f.SignBit()
    ensures exponent > 0 ==> Lsh(exponent, f.p) == Lsh(exponent - 1, f.p) + Pow2(f.p)
    ensures Lsh(0, f.p) == 0
  {
    Binades(f, exponent, 1);
    if exponent > 0 { Binades(f, exponent - 1, 1); }
    LshMono(exponent + 1, f.MaxExponent(), f.p);
    LshMono(f.MaxExponent(), Pow2(f.eb), f.p);
    LshPow2(f.eb, f.p);
    SplitSmall(Lsh(exponent, f.p), f.Width());
  }
}
