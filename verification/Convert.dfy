/** lib/truncdfsf2.c: narrowing.

The wide format is called f and the narrow one g throughout. */
module Convert {
  import opened Bits
  import opened Floats
  import opened Rounding
  import opened SoftFloat

  /** What the conversion code relies on of its two formats. */
  ghost predicate Narrower(f: Format, g: Format)
  {
    && f.Valid() && g.Valid()
    && g.p + 2 <= f.p && g.eb < f.eb
    && g.Bias() + f.p <= f.Bias()
    && g.MaxExponent() + f.Bias() - g.Bias() < f.MaxExponent()
  }

  /** The number of narrow quanta in a wide one is 2^-QuantumGap. */
  function QuantumGap(f: Format, g: Format): int
    requires f.Valid() && g.Valid()
  {
    f.Scale() - g.Scale()
  }

  /** Section 5.4.2 of IEEE 754-2008, for a narrowing conversion. */
  ghost predicate IsNarrowed(f: Format, g: Format, a: nat, r: nat)
    requires Narrower(f, g)
  {
    if IsNaN(f, a) then IsQuietNaN(g, r)
    else
      && Negative(g, r) == Negative(f, a)
      && (if IsInf(f, a) then Abs(g, r) == g.Inf()
          else Nearest(g, Abs(g, r), Val(f, Abs(f, a)), Pow2(QuantumGap(f, g))))
  }

  // ----- Narrowing: the two ranges of magnitudes

  /** 2^(emax+1) of the narrow format, as an encoding of the wide one. */
  function OverflowBound(f: Format, g: Format): nat
    requires Narrower(f, g)
  {
    Lsh(f.Bias() + g.MaxExponent() - g.Bias(), f.p)
  }

  /** The smallest normal number of the narrow format. */
  function UnderflowBound(f: Format, g: Format): nat
    requires Narrower(f, g)
  {
    Lsh(f.Bias() + 1 - g.Bias(), f.p)
  }

  /** The narrow exponent of a magnitude in the normal range. */
  lemma {:induction false} NormalRange(f: Format, g: Format, abs: nat)
    requires Narrower(f, g) && UnderflowBound(f, g) <= abs < OverflowBound(f, g)
    ensures 1 <= Shr(abs, f.p) - (f.Bias() - g.Bias()) < g.MaxExponent()
  {
    ShrLt(abs, f.p, f.Bias() + 1 - g.Bias());
    ShrLt(abs, f.p, f.Bias() + g.MaxExponent() - g.Bias());
  }

  /** Dropping k low bits of a fraction field below bit p. */
  lemma {:induction false} FieldShift(e: nat, s: nat, j: nat, k: nat)
    requires s < Pow2(j + k)
    ensures Shr(Lsh(e, j + k) + s, k) == Lsh(e, j) + Shr(s, k)
    ensures Low(Lsh(e, j + k) + s, k) == Low(s, k)
    ensures Shr(s, k) < Pow2(j)
  {
    LshLsh(e, j, k);
    Split(s, k);
    LshSum(Lsh(e, j), Shr(s, k), k);
    SplitUnique(Lsh(e, j) + Shr(s, k), Low(s, k), k);
    LshPow2(j, k);
    ShrLt(s, k, Pow2(j));
  }

  /** A normal magnitude: dropping the low bits of the encoding drops them of the significand. */
  lemma {:induction false} NormalEncoding(f: Format, g: Format, abs: nat, k: nat)
    requires Narrower(f, g) && k == f.p - g.p && Shr(abs, f.p) >= 1
    ensures var sig := Pow2(f.p) + Low(abs, f.p);
      && Pow2(g.p) <= Shr(sig, k) < 2 * Pow2(g.p)
      && Shr(abs, k) == Lsh(Shr(abs, f.p) - 1, g.p) + Shr(sig, k)
      && Low(abs, k) == Low(sig, k)
  {
    hide Or, And, Low, Shr;
    var e, s := Shr(abs, f.p), Low(abs, f.p);
    Split(abs, f.p);
    FieldShift(e, s, g.p, k);
    FieldShift(1, s, g.p, k);
    LshPow2(0, f.p);
    Binades(g, e - 1, 1);
  }

  /** Rounding in the normal range. */
  lemma {:induction false} NarrowNormal(f: Format, g: Format, abs: nat, k: nat)
    requires Narrower(f, g) && k == f.p - g.p
    requires UnderflowBound(f, g) <= abs < OverflowBound(f, g)
    ensures var r := Shr(abs, k) - Lsh(f.Bias() - g.Bias(), g.p);
      r >= 0 && Nearest(g, TieEven(r, Low(abs, k), Pow2(k - 1)), Val(f, abs), Pow2(QuantumGap(f, g)))
  {
    var e := Shr(abs, f.p);
    var sig, m := Pow2(f.p) + Low(abs, f.p), e - (f.Bias() - g.Bias());
    NormalRange(f, g, abs);
    NormalEncoding(f, g, abs, k);
    LshSum(m - 1, f.Bias() - g.Bias(), g.p);
    BinadeFits(g, m, Shr(sig, k));
    RoundSticky(g, m - 1, sig, k, Val(f, abs), QuantumGap(f, g), 0);
  }

  /** Rounding below the normal range. */
  lemma {:induction false} NarrowSubnormal(f: Format, g: Format, abs: nat, k: nat, shift: int)
    requires Narrower(f, g) && k == f.p - g.p && abs < UnderflowBound(f, g)
    requires shift == f.Bias() - g.Bias() - Shr(abs, f.p) + 1
    ensures shift >= 1
    ensures if shift > f.p then Nearest(g, 0, Val(f, abs), Pow2(QuantumGap(f, g)))
      else var x := ShiftSticky(Pow2(f.p) + Low(abs, f.p), shift);
        Nearest(g, TieEven(Shr(x, k), Low(x, k), Pow2(k - 1)), Val(f, abs), Pow2(QuantumGap(f, g)))
        && Shr(x, k) < Pow2(g.p)
  {
    hide Or, And, Shr, Low;
    var e, sig := Shr(abs, f.p), Pow2(f.p) + Low(abs, f.p);
    ShrLt(abs, f.p, f.Bias() + 1 - g.Bias());
    Split(abs, f.p);
    if shift > f.p {
      NarrowTiny(f, g, abs, shift);
    } else {
      InfFacts(g);
      StickyHalf(sig, shift, f.p);
      LshPow2(g.p, k);
      ShrLt(ShiftSticky(sig, shift), k, Pow2(g.p));
      StickyShift(sig, Val(f, abs), e - 1, shift);
      LshZero(g.p);
      RoundSticky(g, 0, ShiftSticky(sig, shift), k, Val(f, abs), QuantumGap(f, g), 0);
    }
  }

  lemma {:induction false} NarrowTiny(f: Format, g: Format, abs: nat, shift: int)
    requires Narrower(f, g) && shift == f.Bias() - g.Bias() - Shr(abs, f.p) + 1 && shift > f.p
    ensures Nearest(g, 0, Val(f, abs), Pow2(QuantumGap(f, g)))
  {
    var e, d := Shr(abs, f.p), QuantumGap(f, g);
    Split(abs, f.p);
    if e == 0 {
      Pow2Mono(f.p + 1, d);
    } else {
      var sig := Pow2(f.p) + Low(abs, f.p);
      LshMono(sig, Pow2(f.p + 1), e - 1);
      LshPow2(f.p + 1, e - 1);
      Pow2Mono(f.p + 1 + e - 1 + 1, d);
    }
    NearestZero(g, Val(f, abs), Pow2(d));
  }

  lemma {:induction false} NarrowOverflow(f: Format, g: Format, abs: nat)
    requires Narrower(f, g) && OverflowBound(f, g) <= abs
    ensures Nearest(g, g.Inf(), Val(f, abs), Pow2(QuantumGap(f, g)))
  {
    var top := f.Bias() + g.MaxExponent() - g.Bias();
    ValFields(f, top, 0);
    ValMono(f, OverflowBound(f, g), abs);
    InfFacts(g);
    LshPow2(f.p, top - 1);
    LshPow2(g.p + g.MaxExponent() - 1, QuantumGap(f, g));
    LshTimes(Val(g, g.Inf()), QuantumGap(f, g));
    NearestInf(g, Val(f, abs), Pow2(QuantumGap(f, g)));
  }

  // ----- __truncdfsf2

  lemma {:induction false} RangeTest(f: Format, g: Format, abs: nat)
    requires Narrower(f, g) && abs < f.SignBit()
    ensures UnderflowBound(f, g) < OverflowBound(f, g) < f.Inf() < f.SignBit() && Pow2(f.Width()) == 2 * f.SignBit()
    ensures WrapSub(f.Width(), abs, UnderflowBound(f, g)) < WrapSub(f.Width(), abs, OverflowBound(f, g))
      <==> UnderflowBound(f, g) <= abs < OverflowBound(f, g)
  {
    InfFacts(f);
    InfFacts(g);
    LshMono(f.Bias() + 1 - g.Bias(), f.Bias() + g.MaxExponent() - g.Bias(), f.p);
    LshMono(f.Bias() + g.MaxExponent() - g.Bias(), f.MaxExponent(), f.p);
  }

  /** What line 146 of lib/truncdfsf2.c shifts by. */
  function DenormalShift(f: Format, g: Format, abs: nat): int
    requires f.Valid() && g.Valid()
  {
    f.Bias() - g.Bias() - Shr(abs, f.p) + 1
  }

  /** The last branch is meant for what underflows, but the strict comparison at line 133 leaves it one
      magnitude more, whose shift count is negative: the least power of two that overflows, and only that one.
      It should have become infinity. */
  lemma {:induction false} NegativeShift(f: Format, g: Format, abs: nat)
    requires Narrower(f, g) && abs < f.SignBit()
    ensures UnderflowBound(f, g) < OverflowBound(f, g) < f.SignBit() && Pow2(f.Width()) == 2 * f.SignBit()
    ensures
      && !(WrapSub(f.Width(), abs, UnderflowBound(f, g)) < WrapSub(f.Width(), abs, OverflowBound(f, g)))
      && !(abs > f.Inf()) && !(abs > OverflowBound(f, g)) && DenormalShift(f, g, abs) < 0
      <==> abs == OverflowBound(f, g)
    ensures abs == OverflowBound(f, g) ==>
      DenormalShift(f, g, abs) == 1 - g.MaxExponent() && Nearest(g, g.Inf(), Val(f, abs), Pow2(QuantumGap(f, g)))
  {
    hide Lsh, Shr, Nearest, Val;
    RangeTest(f, g, abs);
    if abs < UnderflowBound(f, g) {
      NarrowSubnormal(f, g, abs, f.p - g.p, DenormalShift(f, g, abs));
    } else if abs == OverflowBound(f, g) {
      SplitUnique(f.Bias() + g.MaxExponent() - g.Bias(), 0, f.p);
      InfFacts(g);
      NarrowOverflow(f, g, abs);
    }
  }

  /** Rounding on the bits a right shift drops: lib/truncdfsf2.c:113-121. */
  method RoundShifted(x: nat, k: nat, base: nat) returns (r: nat)
    requires k >= 1
    ensures r == TieEven(base, Low(x, k), Pow2(k - 1))
  {
    var roundBits := And(x, Pow2(k) - 1);
    AndMask(x, k);
    r := base;
    AndOne(r);
    if roundBits > Pow2(k - 1) {
      r := r + 1;
    } else if roundBits == Pow2(k - 1) {
      r := r + And(r, 1);
    }
  }

  /** lib/truncdfsf2.c:101-166.  The strict comparison at line 133 sends the magnitude 2^(emax+1) of
      the narrow format to the last branch, whose shift count is then negative: the language leaves
      the result open, and so does the contract. */
  method Truncate(f: Format, g: Format, a: nat) returns (r: nat)
    requires Narrower(f, g) && a < Pow2(f.Width())
    ensures r < Pow2(g.Width())
    ensures Abs(f, a) != OverflowBound(f, g) ==> IsNarrowed(f, g, a, r)
  {
    hide Lsh, Shr, Low, Or, And, Nearest, Val;
    SignCases(f, a);
    var aAbs := And(a, f.SignBit() - 1);
    RangeTest(f, g, aAbs);
    var absResult;
    if WrapSub(f.Width(), aAbs, UnderflowBound(f, g)) < WrapSub(f.Width(), aAbs, OverflowBound(f, g)) {
      // a normal number of the narrow format, before rounding
      NarrowNormal(f, g, aAbs, f.p - g.p);
      absResult := Shr(aAbs, f.p - g.p) - Lsh(f.Bias() - g.Bias(), g.p);
      absResult := RoundShifted(aAbs, f.p - g.p, absResult);
      EncodingRoom(g, absResult);
    } else if aAbs > f.Inf() {
      // a NaN
      absResult := NarrowNaN(g, aAbs);
    } else if aAbs > OverflowBound(f, g) {
      // too large, or infinite
      NarrowOverflow(f, g, aAbs);
      absResult := g.Inf();
      EncodingRoom(g, absResult);
    } else {
      absResult := TruncateSubnormal(f, g, a);
    }
    if aAbs != OverflowBound(f, g) {
      NarrowedSign(f, g, a, absResult);
    }
    NarrowRange(f, g, a, absResult);
    r := Or(absResult, Shr(And(a, f.SignBit()), f.Width() - g.Width()));
  }

  lemma {:induction false} EncodingRoom(g: Format, abs: nat)
    requires g.Valid() && Encoding(g, abs)
    ensures abs < Pow2(g.Width()) && Low(abs, g.Width()) == abs
  {
    InfFacts(g);
    SplitSmall(abs, g.Width());
  }

  lemma {:induction false} NarrowRange(f: Format, g: Format, a: nat, abs: nat)
    requires Narrower(f, g) && a < Pow2(f.Width()) && abs < Pow2(g.Width())
    ensures Or(abs, Shr(And(a, f.SignBit()), f.Width() - g.Width())) < Pow2(g.Width())
  {
    SignCases(f, a);
    NarrowSignBit(f, g);
    OrBound(abs, Shr(And(a, f.SignBit()), f.Width() - g.Width()), g.Width());
  }

  lemma {:induction false} NarrowedSign(f: Format, g: Format, a: nat, abs: nat)
    requires Narrower(f, g) && a < Pow2(f.Width())
    requires if IsNaN(f, a) then g.Inf() < abs < g.SignBit() && Shr(abs, g.p - 1) % 2 == 1
      else if IsInf(f, a) then abs == g.Inf()
      else Nearest(g, abs, Val(f, Abs(f, a)), Pow2(QuantumGap(f, g)))
    ensures var r := Or(abs, Shr(And(a, f.SignBit()), f.Width() - g.Width()));
      r < Pow2(g.Width()) && IsNarrowed(f, g, a, r)
  {
    hide Shr, Low, Lsh, Or, And, Val;
    var sign := if Negative(f, a) then g.SignBit() else 0;
    SignCases(f, a);
    InfFacts(g);
    NarrowSignBit(f, g);
    SignJoin(g, sign, abs);
    if IsNaN(f, a) {
      HighDigit(g, sign, abs);
    }
  }

  lemma {:induction false} NarrowSignBit(f: Format, g: Format)
    requires Narrower(f, g)
    ensures Shr(f.SignBit(), f.Width() - g.Width()) == g.SignBit() && Shr(0, f.Width() - g.Width()) == 0
  {
    LshPow2(g.p + g.eb, f.Width() - g.Width());
    SplitUnique(g.SignBit(), 0, f.Width() - g.Width());
    LowZero(f.Width() - g.Width());
  }

  /** The sign bit does not disturb the quiet bit. */
  lemma {:induction false} HighDigit(g: Format, sign: nat, abs: nat)
    requires g.Valid() && (sign == 0 || sign == g.SignBit())
    ensures Shr(sign + abs, g.p - 1) % 2 == Shr(abs, g.p - 1) % 2
  {
    var k: nat := g.p - 1;
    if sign != 0 {
      Split(abs, k);
      LshPow2(g.eb + 1, k);
      LshSum(Pow2(g.eb + 1), Shr(abs, k), k);
      SplitUnique(Pow2(g.eb + 1) + Shr(abs, k), Low(abs, k), k);
      LowParity(0, g.eb + 1);
    }
  }

  /** lib/truncdfsf2.c:138-161: the result is subnormal or zero.  It is stored in a narrow word. */
  method TruncateSubnormal(f: Format, g: Format, a: nat) returns (absResult: nat)
    requires Narrower(f, g) && a < Pow2(f.Width())
    ensures absResult < Pow2(g.Width())
    ensures Abs(f, a) < UnderflowBound(f, g) ==>
      Nearest(g, absResult, Val(f, Abs(f, a)), Pow2(QuantumGap(f, g)))
  {
    hide Lsh, Shr, Low, Val, Or, And, ShiftSticky;
    var aAbs := Abs(f, a);
    var shift := DenormalShift(f, g, aAbs);
    if shift > f.p {
      absResult := 0;
    } else {
      FieldsOf(f, a);
      Split(aAbs, f.p);
      ImplicitBit(f, Low(aAbs, f.p));
      var significand := Or(And(a, f.Implicit() - 1), f.Implicit());
      Pow2Mono(f.p + 1, f.Width());
      var denormalized := RightShiftSticky(f, significand, shift);
      absResult := RoundShifted(denormalized, f.p - g.p, Shr(denormalized, f.p - g.p));
    }
    if aAbs < UnderflowBound(f, g) {
      NarrowSubnormal(f, g, aAbs, f.p - g.p, shift);
      EncodingRoom(g, absResult);
    }
    Split(absResult, g.Width());
    absResult := Low(absResult, g.Width());
  }

  lemma {:induction false} DoubleSingle()
    ensures Narrower(Double(), Single())
    ensures QuantumGap(Double(), Single()) == 925
  {
    assert Pow2(7) == 128 by { assert Pow2(4) == 16 by { assert Pow2(2) == 4; } assert Pow2(6) == 64; }
    Pow2Sum(7, 3);
    assert Pow2(8) == 256 && Pow2(3) == 8 && Pow2(11) == 2 * Pow2(10);
  }

  /** __truncdfsf2. */
  method Truncdfsf2(a: nat) returns (r: nat)
    requires a < Pow2(64)
    ensures r < Pow2(32)
    ensures (DoubleSingle(); Abs(Double(), a) != OverflowBound(Double(), Single())
      ==> IsNarrowed(Double(), Single(), a, r))
  {
    DoubleSingle();
    r := Truncate(Double(), Single(), a);
  }

  /** `dstInf | dstQNaN | (aAbs & dstNaNCode)`. */
  method NarrowNaN(g: Format, aAbs: nat) returns (r: nat)
    requires g.Valid()
    ensures g.Inf() < r < g.SignBit() && Shr(r, g.p - 1) % 2 == 1
  {
    hide Shr, Low, Lsh, Or, And;
    AndMask(aAbs, g.p - 1);
    Split(aAbs, g.p - 1);
    NaNFields(g, g.p - 1, Low(aAbs, g.p - 1));
    r := Or(Or(g.Inf(), g.Quiet()), And(aAbs, g.Quiet() - 1));
  }

  lemma {:induction false} NaNFields(g: Format, k: nat, low: nat)
    requires g.Valid() && k == g.p - 1 && low < Pow2(k)
    ensures Or(g.Inf(), Pow2(k)) == g.Inf() + Pow2(k)
    ensures Or(g.Inf() + Pow2(k), low) == g.Inf() + Pow2(k) + low
    ensures g.Inf() + Pow2(k) + low < g.SignBit()
    ensures Shr(g.Inf() + Pow2(k) + low, k) % 2 == 1
  {
    hide Lsh, Shr, Low, Or;
    InfWithQuiet(g, k);
    OrFields(g.MaxExponent(), Pow2(k), g.p);
    OrFields(2 * g.MaxExponent() + 1, low, k);
    InfFacts(g);
    QuietDigit(g.MaxExponent(), low, k);
  }

  lemma {:induction false} QuietDigit(m: nat, low: nat, k: nat)
    requires low < Pow2(k)
    ensures Shr(Lsh(2 * m + 1, k) + low, k) % 2 == 1
  {
    SplitUnique(2 * m + 1, low, k);
  }

  lemma {:induction false} InfWithQuiet(g: Format, k: nat)
    requires g.p == k + 1
    ensures g.Inf() + Pow2(k) == Lsh(2 * g.MaxExponent() + 1, k)
  {
    var m := g.MaxExponent();
    LshLsh(m, 1, k);
    assert Lsh(m, 1) == 2 * m;
    LshSum(2 * m, 1, k);
    LshPow2(0, k);
  }
}
