/** lib/addsf3.c and lib/adddf3.c: soft-float addition, for any interchange format.

The two files are one algorithm at two widths.  Add is that algorithm; Addsf3 and Adddf3
instantiate it. */
module SoftAdd {
  import opened Bits
  import opened Floats
  import opened Ieee
  import opened Rounding
  import opened SoftFloat

  // ----- Rounding and packing

  /** The magnitude the tail of the routine packs from a significand with three extra bits. */
  ghost function Packed(f: Format, e: int, sig: nat): nat
  {
    if e >= f.MaxExponent() then f.Inf()
    else if e >= 1 then TieEven(Lsh(e - 1, f.p) + Shr(sig, 3), Low(sig, 3), Pow2(2))
    else var x := ShiftSticky(sig, 1 - e); TieEven(Shr(x, 3), Low(x, 3), Pow2(2))
  }

  /** A leading bit at place p + 3: the significand and its round, guard and sticky bits. */
  ghost predicate Guarded(f: Format, sig: nat)
  {
    Pow2(f.p + 3) <= sig < 2 * Pow2(f.p + 3)
  }

  lemma {:induction false} GuardedHigh(f: Format, sig: nat)
    requires Guarded(f, sig)
    ensures Pow2(f.p) <= Shr(sig, 3) < 2 * Pow2(f.p)
  {
    LshPow2(f.p, 3);
    ShrLt(sig, 3, Pow2(f.p));
    LshPow2(f.p + 1, 3);
    ShrLt(sig, 3, 2 * Pow2(f.p));
  }

  /** Denormalising leaves at most the implicit bit's place filled. */
  lemma {:induction false} DenormalHigh(f: Format, sig: nat, e: int)
    requires Guarded(f, sig) && e <= 0
    ensures Shr(ShiftSticky(sig, 1 - e), 3) < Pow2(f.p)
    ensures ShiftSticky(sig, 1 - e) < Pow2(f.p + 3)
  {
    StickyHalf(sig, 1 - e, f.p + 3);
    LshPow2(f.p, 3);
    ShrLt(ShiftSticky(sig, 1 - e), 3, Pow2(f.p));
  }

  lemma {:induction false} PackedBound(f: Format, e: int, sig: nat)
    requires f.Valid() && Guarded(f, sig)
    ensures Packed(f, e, sig) <= f.Inf()
  {
    InfFacts(f);
    if 1 <= e < f.MaxExponent() {
      GuardedHigh(f, sig);
      BinadeFits(f, e, Shr(sig, 3));
    } else if e <= 0 {
      DenormalHigh(f, sig, e);
    }
  }

  /** Packing is correct rounding: the significand stands for n quanta at exponent e. */
  lemma {:induction false} PackedNearest(f: Format, e: int, sig: nat, n: nat)
    requires f.Valid() && Guarded(f, sig) && e >= 1 - f.p
    requires Sticky(sig, Lsh(n, f.p + 3), e - 1 + f.p)
    ensures Nearest(f, Packed(f, e, sig), n, 1)
  {
    if e >= f.MaxExponent() {
      PackedOverflow(f, e, sig, n);
    } else if e >= 1 {
      GuardedHigh(f, sig);
      BinadeFits(f, e, Shr(sig, 3));
      RoundSticky(f, e - 1, sig, 3, n, 0, f.p + 3);
    } else {
      InfFacts(f);
      DenormalHigh(f, sig, e);
      StickyShift(sig, Lsh(n, f.p + 3), e - 1 + f.p, 1 - e);
      LshZero(f.p);
      RoundSticky(f, 0, ShiftSticky(sig, 1 - e), 3, n, 0, f.p + 3);
    }
  }

  lemma {:induction false} PackedOverflow(f: Format, e: int, sig: nat, n: nat)
    requires f.Valid() && Guarded(f, sig) && e >= f.MaxExponent()
    requires Sticky(sig, Lsh(n, f.p + 3), e - 1 + f.p)
    ensures Nearest(f, f.Inf(), n, 1)
  {
    InfFacts(f);
    LowParity(0, f.p + 3);
    StickyAbove(sig, Lsh(n, f.p + 3), e - 1 + f.p, Pow2(f.p + 3));
    LshPow2(f.p + 3, e - 1 + f.p);
    LshPow2(e - 1 + f.p, f.p + 3);
    LshMono(Pow2(e - 1 + f.p), n, f.p + 3);
    Pow2Mono(f.p + f.MaxExponent() - 1, e - 1 + f.p);
    NearestInf(f, n, 1);
  }

  lemma {:induction false} PackedSign(f: Format, sign: nat, abs: nat)
    requires f.Valid() && (sign == 0 || sign == f.SignBit()) && abs <= f.Inf()
    ensures sign + abs < Pow2(f.Width()) && Negative(f, sign + abs) == (sign != 0) && Abs(f, sign + abs) == abs
  {
    InfFacts(f);
    SignJoin(f, sign, abs);
  }

  /** lib/addsf3.c:148-173: overflow, denormalisation, packing and the final rounding. */
  method PackRound(f: Format, exponent: int, sig: nat, resultSign: nat) returns (r: nat)
    requires f.Valid() && Guarded(f, sig) && exponent >= 1 - f.p
    requires resultSign == 0 || resultSign == f.SignBit()
    ensures r < Pow2(f.Width())
    ensures Negative(f, r) == (resultSign != 0) && Abs(f, r) == Packed(f, exponent, sig)
  {
    var aExponent, aSignificand := exponent, sig;
    PackedBound(f, exponent, sig);
    PackedSign(f, resultSign, Packed(f, exponent, sig));
    if aExponent >= f.MaxExponent() {
      InfSigned(f, resultSign);
      return Or(f.Inf(), resultSign);
    }
    if aExponent <= 0 {
      // below the normal range: the exponent field will be zero
      Pow2Mono(f.p + 4, f.Width());
      aSignificand := RightShiftSticky(f, aSignificand, 1 - aExponent);
      aExponent := 0;
      DenormalHigh(f, sig, exponent);
    } else {
      GuardedHigh(f, sig);
    }
    r := RoundFields(f, aExponent, aSignificand, resultSign);
  }

  /** Packs the significand above its three extra bits and rounds on them. */
  method RoundFields(f: Format, exponent: nat, sig: nat, sign: nat) returns (result: nat)
    requires f.Valid() && exponent < f.MaxExponent()
    requires if exponent == 0 then Shr(sig, 3) < Pow2(f.p) else Pow2(f.p) <= Shr(sig, 3) < 2 * Pow2(f.p)
    requires sign == 0 || sign == f.SignBit()
    ensures result == sign + TieEven(if exponent == 0 then Shr(sig, 3) else Lsh(exponent - 1, f.p) + Shr(sig, 3),
                                     Low(sig, 3), Pow2(2))
  {
    var roundGuardSticky := And(sig, 7);
    AndMask(sig, 3);
    result := PackFields(f, exponent, Shr(sig, 3), sign);
    SignParity(f, sign, result - sign);
    if roundGuardSticky > 4 { result := result + 1; }
    if roundGuardSticky == 4 { result := result + And(result, 1); }
  }

  // ----- Aligning

  /** lib/addsf3.c:110-118: the smaller significand in units of the larger one's last place. */
  method AlignSticky(f: Format, bSignificand: nat, align: nat) returns (r: nat)
    requires f.Valid() && 0 < bSignificand < Pow2(f.Width())
    ensures r == ShiftSticky(bSignificand, align)
  {
    r := bSignificand;
    if align != 0 {
      if align < f.Width() {
        r := RightShiftSticky(f, bSignificand, align);
      } else {
        r := 1;
        Pow2Mono(f.Width(), align);
        ShiftStickyAll(bSignificand, align);
      }
    } else {
      ShiftStickyValue(bSignificand, 0);
    }
  }

  /** An operand of n quanta with three extra bits is an exact multiple of its unit. */
  lemma {:induction false} GuardBits(f: Format, abs: nat, sig: nat, e: int)
    requires Parts(f, abs, sig, e)
    ensures Lsh(8 * sig, e - 1 + f.p) == Lsh(Val(f, abs), f.p + 3)
    ensures Guarded(f, 8 * sig)
  {
    Eight(sig);
    LshLsh(sig, 3, e - 1 + f.p);
    LshLsh(Val(f, abs), f.p, 3);
    LshLsh(sig, e - 1 + f.p, 3);
    LshPow2(f.p, 3);
    Eight(Pow2(f.p));
  }

  lemma {:induction false} Eight(x: nat)
    ensures Lsh(x, 3) == 8 * x && Lsh(x, 1) == 2 * x && Lsh(x, 2) == 4 * x
    ensures Pow2(3) == 8 && Pow2(2) == 4 && Pow2(1) == 2
  {
    assert Lsh(x, 3) == 2 * Lsh(x, 2) && Lsh(x, 2) == 2 * Lsh(x, 1);
    assert Pow2(3) == 2 * Pow2(2) && Pow2(2) == 2 * Pow2(1);
  }

  /** Two operands of na and nb quanta brought to exponent e, the smaller with a sticky bit.  Bits
      were lost only if the unit is a quarter quantum or more and b is at most a quarter of a. */
  ghost predicate Aligned(f: Format, a: nat, b: nat, e: int, na: nat, nb: nat)
  {
    && Guarded(f, a) && a % 2 == 0 && b <= a && 1 - f.p <= e < f.MaxExponent()
    && Lsh(a, e - 1 + f.p) == Lsh(na, f.p + 3)
    && Sticky(b, Lsh(nb, f.p + 3), e - 1 + f.p)
    && (Lsh(b, e - 1 + f.p) == Lsh(nb, f.p + 3) || (e >= 2 && b <= Pow2(f.p + 2)))
  }

  lemma {:induction false} AlignedSticky(f: Format, abs: nat, sig: nat, e: int, ea: int)
    requires Parts(f, abs, sig, e) && e <= ea
    ensures Sticky(ShiftSticky(8 * sig, ea - e), Lsh(Val(f, abs), f.p + 3), ea - 1 + f.p)
  {
    GuardBits(f, abs, sig, e);
    StickyShift(8 * sig, Lsh(Val(f, abs), f.p + 3), e - 1 + f.p, ea - e);
  }

  /** A unit below a quarter quantum divides everything. */
  lemma {:induction false} ExactSmall(f: Format, x: nat, n: nat, ea: int)
    requires 1 - f.p <= ea <= 1
    requires Sticky(x, Lsh(n, f.p + 3), ea - 1 + f.p)
    ensures Lsh(x, ea - 1 + f.p) == Lsh(n, f.p + 3)
  {
    var j: nat := ea - 1 + f.p;
    LshLsh(n, f.p + 3 - j, j);
    StickyCancel(x, Lsh(n, f.p + 3 - j), 0, j);
  }

  /** A shift by at most one place drops nothing. */
  lemma {:induction false} ExactNear(f: Format, abs: nat, sig: nat, e: int, ea: int)
    requires Parts(f, abs, sig, e) && e <= ea <= e + 1
    ensures Lsh(ShiftSticky(8 * sig, ea - e), ea - 1 + f.p) == Lsh(Val(f, abs), f.p + 3)
  {
    GuardBits(f, abs, sig, e);
    ShiftStickyValue(8 * sig, ea - e);
    if ea != e {
      assert Shr(8 * sig, 1) == 4 * sig && Low(8 * sig, 1) == 0;
      LshSum(4 * sig, 4 * sig, e - 1 + f.p);
      assert Lsh(4 * sig, e + f.p) == 2 * Lsh(4 * sig, e - 1 + f.p);
    }
  }

  lemma {:induction false} AlignedBounds(f: Format, a: nat, b: nat, align: nat)
    requires Guarded(f, a) && Guarded(f, b) && (align == 0 ==> b <= a)
    ensures ShiftSticky(b, align) <= a
    ensures align >= 2 ==> ShiftSticky(b, align) <= Pow2(f.p + 2)
  {
    ShiftStickyValue(b, align);
    LowParity(0, f.p + 3);
    if align >= 1 {
      ShrHalf(b, align, f.p + 3);
    }
    if align >= 2 {
      ShrHalf(b / 2, align - 1, f.p + 2);
      LowParity(0, f.p + 2);
    }
  }

  lemma {:induction false} AlignFacts(f: Format, absA: nat, sa: nat, ea: int, absB: nat, sb: nat, eb: int)
    requires Parts(f, absA, sa, ea) && Parts(f, absB, sb, eb)
    requires eb <= ea && (eb == ea ==> sb <= sa)
    ensures Aligned(f, 8 * sa, ShiftSticky(8 * sb, ea - eb), ea, Val(f, absA), Val(f, absB))
  {
    GuardBits(f, absA, sa, ea);
    GuardBits(f, absB, sb, eb);
    AlignedSticky(f, absB, sb, eb, ea);
    AlignedBounds(f, 8 * sa, 8 * sb, ea - eb);
    if ea <= 1 {
      ExactSmall(f, ShiftSticky(8 * sb, ea - eb), Val(f, absB), ea);
    } else if ea <= eb + 1 {
      ExactNear(f, absB, sb, eb, ea);
    }
  }

  /** lib/addsf3.c:87-118: extraction and alignment. */
  method Align(f: Format, aRep: nat, bRep: nat) returns (a: nat, b: nat, e: int)
    requires f.Valid() && aRep < Pow2(f.Width()) && bRep < Pow2(f.Width())
    requires 0 < Abs(f, bRep) <= Abs(f, aRep) < f.Inf()
    ensures Aligned(f, a, b, e, Val(f, Abs(f, aRep)), Val(f, Abs(f, bRep)))
  {
    var aSignificand, aExponent := Extract(f, aRep);
    var bSignificand, bExponent := Extract(f, bRep);
    PartsOrder(f, Abs(f, aRep), aSignificand, aExponent, Abs(f, bRep), bSignificand, bExponent);
    AlignFacts(f, Abs(f, aRep), aSignificand, aExponent, Abs(f, bRep), bSignificand, bExponent);
    a := ShiftGuard(f, aSignificand);
    b := ShiftGuard(f, bSignificand);
    e := aExponent;
    b := AlignSticky(f, b, e - bExponent);
  }

  /** `significand << 3`. */
  method ShiftGuard(f: Format, sig: nat) returns (r: nat)
    requires f.Valid() && Pow2(f.p) <= sig < 2 * Pow2(f.p)
    ensures r == 8 * sig && 0 < r < Pow2(f.Width())
  {
    Eight(sig);
    LshPow2(f.p, 3);
    Eight(Pow2(f.p));
    Pow2Mono(f.p + 4, f.Width());
    r := ShiftLeft(f.Width(), sig, 3);
    SplitSmall(8 * sig, f.Width());
  }

  // ----- Same signs

  /** lib/addsf3.c:135-145. */
  method AddSignificands(f: Format, a: nat, b: nat, exponent: int, ghost na: nat, ghost nb: nat)
    returns (sig: nat, e: int)
    requires f.Valid() && Aligned(f, a, b, exponent, na, nb)
    ensures Guarded(f, sig) && e >= 1 - f.p
    ensures Nearest(f, Packed(f, e, sig), na + nb, 1)
  {
    hide Lsh, Nearest, Low, Shr, Packed;
    sig, e := a + b, exponent;
    StickyAdd(a, b, Lsh(nb, f.p + 3), exponent - 1 + f.p);
    LshSum(na, nb, f.p + 3);
    // a carry out of the guarded significand
    BitTest(sig, f.p + 4);
    SplitSmall(sig, f.p + 4);
    if And(sig, Pow2(f.p + 4)) != 0 {
      StickyShift(sig, Lsh(na + nb, f.p + 3), exponent - 1 + f.p, 1);
      CarryShift(f, sig);
      sig := Or(sig / 2, Bool(And(sig, 1) != 0));
      e := e + 1;
    }
    PackedNearest(f, e, sig, na + nb);
  }

  lemma {:induction false} CarryShift(f: Format, sig: nat)
    requires 2 * Pow2(f.p + 3) <= sig < 4 * Pow2(f.p + 3)
    ensures Or(sig / 2, Bool(And(sig, 1) != 0)) == ShiftSticky(sig, 1)
    ensures Guarded(f, ShiftSticky(sig, 1))
  {
    AndOne(sig);
    assert Shr(sig, 1) == sig / 2 && Low(sig, 1) == sig % 2;
    ShiftStickyValue(sig, 1);
    LowParity(0, f.p + 3);
  }

  // ----- Opposite signs

  lemma {:induction false} Difference(f: Format, a: nat, b: nat, e: int, na: nat, nb: nat)
    requires Aligned(f, a, b, e, na, nb)
    ensures nb <= na && (b < a <==> nb < na)
    ensures Sticky(a - b, Lsh(na - nb, f.p + 3), e - 1 + f.p)
    ensures Lsh(b, e - 1 + f.p) == Lsh(nb, f.p + 3) ==> Lsh(a - b, e - 1 + f.p) == Lsh(na - nb, f.p + 3)
  {
    StickySub(a, b, Lsh(nb, f.p + 3), e - 1 + f.p);
    LshMono(nb, na, f.p + 3);
    LshDiff(na, nb, f.p + 3);
    LshDiff(a, b, e - 1 + f.p);
    LshMono(b, a, e - 1 + f.p);
  }

  /** lib/addsf3.c:120-133, a difference that is not zero. */
  method SubtractSignificands(f: Format, a: nat, b: nat, exponent: int, ghost na: nat, ghost nb: nat)
    returns (sig: nat, e: int)
    requires f.Valid() && Aligned(f, a, b, exponent, na, nb) && b < a
    ensures nb < na && Guarded(f, sig) && e >= 1 - f.p
    ensures Nearest(f, Packed(f, e, sig), na - nb, 1)
  {
    sig, e := a - b, exponent;
    Difference(f, a, b, exponent, na, nb);
    if sig < Pow2(f.p + 3) {
      // leading bits have cancelled
      Pow2Mono(f.p + 4, f.Width());
      var shift := Clz(f.Width(), sig) - Clz(f.Width(), Pow2(f.p + 3));
      Renormalised(f, sig, shift);
      DifferenceShifted(f, sig, exponent, shift, na - nb);
      sig := ShiftLeft(f.Width(), sig, shift);
      e := e - shift;
    } else {
      PackedNearest(f, e, sig, na - nb);
    }
  }

  /** What the shift count achieves. */
  lemma {:induction false} Renormalised(f: Format, x: nat, s: int)
    requires 0 < x < Pow2(f.p + 3) && s == BitLen(Pow2(f.p + 3)) - BitLen(x)
    requires f.Valid()
    ensures 1 <= s < f.Width() && Guarded(f, Lsh(x, s)) && Low(Lsh(x, s), f.Width()) == Lsh(x, s)
    ensures x >= Pow2(f.p + 2) ==> s == 1
  {
    BitLenUnique(Pow2(f.p + 3), f.p + 4);
    BitLenLe(x, f.p + 3);
    BitLenLe(x, 0);
    Normalised(x, f.p + 3);
    BitLenLe(x, f.p + 2);
    Pow2Mono(f.p + 4, f.Width());
    SplitSmall(Lsh(x, s), f.Width());
  }

  lemma {:induction false} DifferenceShifted(f: Format, x: nat, ea: int, s: nat, n: nat)
    requires f.Valid() && 1 - f.p <= ea < f.MaxExponent() && x > 0 && s >= 1
    requires Guarded(f, Lsh(x, s))
    requires Sticky(x, Lsh(n, f.p + 3), ea - 1 + f.p)
    requires Lsh(x, ea - 1 + f.p) == Lsh(n, f.p + 3) || (ea >= 2 && s == 1)
    ensures ea - s >= 1 - f.p
    ensures Nearest(f, Packed(f, ea - s, Lsh(x, s)), n, 1)
  {
    if Lsh(x, ea - 1 + f.p) == Lsh(n, f.p + 3) {
      ExactRoom(f, ea - 1 + f.p, x, s, n);
      LshLsh(x, s, ea - s - 1 + f.p);
      PackedNearest(f, ea - s, Lsh(x, s), n);
    } else {
      assert Lsh(x, 1) == 2 * x;
      CancelOnePlace(f, ea, x, n);
    }
  }

  /** A non-zero integer number of quanta has its leading bit at or above the lowest binade. */
  lemma {:induction false} ExactRoom(f: Format, j: nat, x: nat, s: nat, n: nat)
    requires x > 0 && Guarded(f, Lsh(x, s)) && Lsh(x, j) == Lsh(n, f.p + 3)
    ensures s <= j
  {
    LshMono(0, x, j);
    LshZero(j);
    LshZero(f.p + 3);
    LshMono(1, n, f.p + 3);
    LshPow2(0, f.p + 3);
    if s > j {
      LshLsh(x, j, s - j);
      LshGe(Lsh(x, j), s - j);
    }
  }

  /** One place of cancellation turns three extra bits into two, which still decide the rounding. */
  lemma {:induction false} CancelOnePlace(f: Format, ea: int, x: nat, n: nat)
    requires f.Valid() && 2 <= ea < f.MaxExponent() && Guarded(f, 2 * x)
    requires Sticky(x, Lsh(n, f.p + 3), ea - 1 + f.p)
    ensures Nearest(f, Packed(f, ea - 1, 2 * x), n, 1)
  {
    GuardedHigh(f, 2 * x);
    assert Shr(2 * x, 3) == Shr(x, 2) && Low(2 * x, 3) == 2 * Low(x, 2) by { assert 2 * x / 2 == x; }
    BinadeFits(f, ea - 1, Shr(x, 2));
    RoundSticky(f, ea - 2, x, 2, n, 0, f.p + 3);
    TieEvenAgrees(Lsh(ea - 2, f.p) + Shr(x, 2), Low(2 * x, 3), Pow2(2), Low(x, 2), Pow2(1));
  }

  // ----- The whole routine

  /** The sign and the magnitude of the exact sum of two finite floats, the larger one first. */
  ghost predicate SumOfOrdered(f: Format, a: nat, b: nat, r: nat)
  {
    var na, nb := Val(f, Abs(f, a)), Val(f, Abs(f, b));
    if Negative(f, a) == Negative(f, b) then
      Negative(f, r) == Negative(f, a) && Nearest(f, Abs(f, r), na + nb, 1)
    else if na == nb then r == 0
    else nb < na && Negative(f, r) == Negative(f, a) && Nearest(f, Abs(f, r), na - nb, 1)
  }

  /** lib/addsf3.c:79-173: both operands finite and not zero, a the larger. */
  method AddOrdered(f: Format, aRep: nat, bRep: nat) returns (r: nat)
    requires f.Valid() && aRep < Pow2(f.Width()) && bRep < Pow2(f.Width())
    requires 0 < Abs(f, bRep) <= Abs(f, aRep) < f.Inf()
    ensures r < Pow2(f.Width())
    ensures SumOfOrdered(f, aRep, bRep, r)
  {
    ghost var na, nb := Val(f, Abs(f, aRep)), Val(f, Abs(f, bRep));
    var aSignificand, bSignificand, aExponent := Align(f, aRep, bRep);
    var resultSign := And(aRep, f.SignBit());
    var subtraction := And(Xor(aRep, bRep), f.SignBit()) != 0;
    SignCases(f, aRep);
    XorSign(f, aRep, bRep);
    var sig, e;
    if subtraction {
      if aSignificand - bSignificand == 0 {
        Difference(f, aSignificand, bSignificand, aExponent, na, nb);
        return 0;
      }
      sig, e := SubtractSignificands(f, aSignificand, bSignificand, aExponent, na, nb);
    } else {
      sig, e := AddSignificands(f, aSignificand, bSignificand, aExponent, na, nb);
    }
    r := PackRound(f, e, sig, resultSign);
  }

  /** lib/addsf3.c:45-173, lib/adddf3.c:49-177. */
  method Add(f: Format, a: nat, b: nat) returns (r: nat)
    requires f.Valid() && a < Pow2(f.Width()) && b < Pow2(f.Width())
    ensures r < Pow2(f.Width())
    ensures IsSum(f, a, b, r)
  {
    var aRep, bRep := a, b;
    SignCases(f, a);
    SignCases(f, b);
    InfFacts(f);
    var aAbs := And(aRep, f.SignBit() - 1);
    var bAbs := And(bRep, f.SignBit() - 1);
    // one test for both operands: x - 1 wraps around for zero
    if WrapSub(f.Width(), aAbs, 1) >= f.Inf() - 1 || WrapSub(f.Width(), bAbs, 1) >= f.Inf() - 1 {
      r := AddSpecial(f, a, b);
      return;
    }
    if bAbs > aAbs {
      aRep, bRep := bRep, aRep;
    }
    r := AddOrdered(f, aRep, bRep);
    SumIsOrdered(f, a, b, aRep, bRep, r);
  }

  /** lib/addsf3.c:51-77: NaN, infinity and zero operands. */
  method AddSpecial(f: Format, a: nat, b: nat) returns (r: nat)
    requires f.Valid() && a < Pow2(f.Width()) && b < Pow2(f.Width())
    requires !(0 < Abs(f, a) < f.Inf() && 0 < Abs(f, b) < f.Inf())
    ensures r < Pow2(f.Width())
    ensures IsSum(f, a, b, r)
  {
    SignCases(f, a);
    SignCases(f, b);
    InfFacts(f);
    var aAbs := And(a, f.SignBit() - 1);
    var bAbs := And(b, f.SignBit() - 1);
    if aAbs > f.Inf() {
      QuietNaN(f, a);
      return Or(a, f.Quiet());
    }
    if bAbs > f.Inf() {
      QuietNaN(f, b);
      return Or(b, f.Quiet());
    }
    if aAbs == f.Inf() {
      OppositeInfinities(f, a, b);
      if Xor(a, b) == f.SignBit() { return f.QNaN(); }
      return a;
    }
    if bAbs == f.Inf() { return b; }
    if aAbs == 0 {
      if bAbs == 0 {
        // both zeros: the sum is negative when both are
        ZeroSum(f, a, b);
        return And(a, b);
      }
      ZeroPlus(f, a, b);
      return b;
    }
    ZeroPlus(f, b, a);
    return a;
  }

  lemma {:induction false} OppositeInfinities(f: Format, a: nat, b: nat)
    requires a < Pow2(f.Width()) && b < Pow2(f.Width())
    ensures Xor(a, b) == f.SignBit() <==> Abs(f, a) == Abs(f, b) && Negative(f, a) != Negative(f, b)
  {
    var x := Xor(a, b);
    assert Shr(x, f.p + f.eb) == (if Negative(f, a) != Negative(f, b) then 1 else 0) by { XorSign(f, a, b); }
    assert Low(x, f.p + f.eb) == 0 <==> Abs(f, a) == Abs(f, b) by {
      XorLow(a, b, f.p + f.eb);
      XorZero(Abs(f, a), Abs(f, b));
    }
    SignOnly(f, x);
  }

  lemma {:induction false} SignOnly(f: Format, x: nat)
    ensures x == f.SignBit() <==> Shr(x, f.p + f.eb) == 1 && Low(x, f.p + f.eb) == 0
  {
    var k := f.p + f.eb;
    Split(x, k);
    LshPow2(0, k);
    SplitSmall(f.SignBit(), k);
  }

  lemma {:induction false} ZeroVal(f: Format)
    ensures Val(f, 0) == 0
  {
    LowZero(f.p);
  }

  lemma {:induction false} ZeroSum(f: Format, a: nat, b: nat)
    requires f.Valid() && a < Pow2(f.Width()) && b < Pow2(f.Width())
    requires Abs(f, a) == 0 && Abs(f, b) == 0
    ensures And(a, b) < Pow2(f.Width())
    ensures IsSum(f, a, b, And(a, b))
  {
    InfFacts(f);
    SignCases(f, a);
    SignCases(f, b);
    AndSelf(a);
    ZeroVal(f);
  }

  lemma {:induction false} ZeroPlus(f: Format, zero: nat, x: nat)
    requires f.Valid() && x < Pow2(f.Width()) && Abs(f, zero) == 0 && 0 < Abs(f, x) < f.Inf()
    ensures IsSum(f, zero, x, x) && IsSum(f, x, zero, x)
  {
    InfFacts(f);
    ZeroVal(f);
    ValMono(f, 0, Abs(f, x));
    NearestExact(f, Abs(f, x));
  }

  lemma {:induction false} SumIsOrdered(f: Format, a: nat, b: nat, big: nat, small: nat, r: nat)
    requires f.Valid()
    requires 0 < Abs(f, a) < f.Inf() && 0 < Abs(f, b) < f.Inf()
    requires (big == a && small == b) || (big == b && small == a)
    requires SumOfOrdered(f, big, small, r)
    ensures IsSum(f, a, b, r)
  {
    ZeroVal(f);
    ValMono(f, 0, Abs(f, a));
    ValMono(f, 0, Abs(f, b));
  }

  /** __addsf3. */
  method Addsf3(a: nat, b: nat) returns (r: nat)
    requires a < Pow2(32) && b < Pow2(32)
    ensures r < Pow2(32) && IsSum(Single(), a, b, r)
  {
    r := Add(Single(), a, b);
  }

  /** __adddf3. */
  method Adddf3(a: nat, b: nat) returns (r: nat)
    requires a < Pow2(64) && b < Pow2(64)
    ensures r < Pow2(64) && IsSum(Double(), a, b, r)
  {
    r := Add(Double(), a, b);
  }

  // ----- What the specification determines

  /** The specification leaves no freedom outside NaN results. */
  lemma {:induction false} SumUnique(f: Format, a: nat, b: nat, r: nat, s: nat)
    requires f.Valid() && !IsNaN(f, a) && !IsNaN(f, b)
    requires r < Pow2(f.Width()) && s < Pow2(f.Width())
    requires IsSum(f, a, b, r) && IsSum(f, a, b, s)
    ensures r == s
  {
    SignCases(f, r);
    SignCases(f, s);
    if IsFinite(f, a) && IsFinite(f, b) {
      var exact := SignedVal(f, a) + SignedVal(f, b);
      if exact != 0 {
        NearestUnique(f, Abs(f, r), Abs(f, s), Distance(exact, 0), 1);
      }
    }
  }

  /** Addition commutes, although the routine orders its operands and treats them differently. */
  lemma {:induction false} SumCommutes(f: Format, a: nat, b: nat, r: nat)
    requires f.Valid() && a < Pow2(f.Width()) && b < Pow2(f.Width())
    ensures IsSum(f, a, b, r) <==> IsSum(f, b, a, r)
  {
    SignCases(f, a);
    SignCases(f, b);
  }
}
