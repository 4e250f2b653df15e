/** lib/divsf3.c and lib/divdf3.c: soft-float division.

The special cases and the tail of the two files are the same at two widths and are modelled once,
for any format.  The quotients come from different Newton-Raphson iterations: QuotientSingle and
QuotientDouble. */
module SoftDiv {
  import opened Bits
  import opened Floats
  import opened Ieee
  import opened Newton
  import opened Quotient
  import opened SoftFloat
  import opened WideWords

  // ----- The exact quotient of two floats and the quotient of their significands

  /** Both sides are the product of the two significands at the same exponent. */
  lemma {:induction false} CrossMultiply(f: Format, va: nat, sa: nat, ea: int, vb: nat, sb: nat, eb: int, scale: nat, i: nat, j: nat)
    requires 1 - f.p <= ea && Lsh(va, f.p) == Lsh(sa, ea - 1 + f.p)
    requires 1 - f.p <= eb && Lsh(vb, f.p) == Lsh(sb, eb - 1 + f.p)
    requires ea + scale + j == eb + i
    ensures Lsh(va, scale) * Lsh(sb, j) == Lsh(sa, i) * vb
  {
    hide Lsh, Pow2;
    CrossOperand(f.p, va, sa, ea, sb);
    CrossOperand(f.p, vb, sb, eb, sa);
    MulComm(sa, sb);
    MulComm(vb, sa);
    SameExponent(va * sb, sa * sb, sa * vb, f.p + f.p, ea - 1 + f.p + f.p, eb - 1 + f.p + f.p, scale + j, i);
    LshMul(va, scale, sb, j);
    ShiftedTimes(sa, i, vb);
  }

  lemma {:induction false} ShiftedTimes(x: nat, k: nat, y: nat)
    ensures Lsh(x, k) * y == Lsh(x * y, k)
  {
    LshMul(x, k, y, 0);
  }

  lemma {:induction false} CrossOperand(p: nat, v: nat, s: nat, e: int, other: nat)
    requires 1 - p <= e && Lsh(v, p) == Lsh(s, e - 1 + p)
    ensures Lsh(v * other, p + p) == Lsh(s * other, e - 1 + p + p)
  {
    hide Lsh;
    LshMul(v, p, other, p);
    LshMul(s, e - 1 + p, other, p);
  }

  lemma {:induction false} SameExponent(x: nat, s: nat, y: nat, c: nat, ex: nat, ey: nat, i: nat, j: nat)
    requires Lsh(x, c) == Lsh(s, ex) && Lsh(y, c) == Lsh(s, ey) && ex + i == ey + j
    ensures Lsh(x, i) == Lsh(y, j)
  {
    hide Lsh;
    LshLsh(x, c, i);
    LshLsh(s, ex, i);
    LshLsh(y, c, j);
    LshLsh(s, ey, j);
    LshLsh(x, i, c);
    LshLsh(y, j, c);
    LshMono(Lsh(x, i), Lsh(y, j), c);
    LshMono(Lsh(y, j), Lsh(x, i), c);
  }

  /** The division of two significands: lib/divsf3.c computes q and its residual r from
      sa * 2^t and sb, t being one larger when the quotient is below one. */
  datatype Division = Division(sa: nat, ea: int, sb: nat, eb: int, t: nat, q: nat, r: nat) {
    // writtenExponent of the source
    function Exponent(f: Format): int
      requires f.Valid()
    {
      ea - eb + f.Bias() + f.p - t
    }

    ghost predicate Of(f: Format, absA: nat, absB: nat)
    {
      && Parts(f, absA, sa, ea) && Parts(f, absB, sb, eb)
      && (t == f.p || t == f.p + 1)
      && QuotientAt(f, q, r, Lsh(sa, t), sb)
    }
  }

  /** The magnitude packed by the tail of the routine. */
  ghost function PackedQuotient(f: Format, e: int, q: nat, r: nat, b: nat): nat
  {
    if e >= f.MaxExponent() then f.Inf()
    else if e >= 1 then Lsh(e - 1, f.p) + q + (if 2 * r > b then 1 else 0)
    else if 1 - e >= f.Width() then 0
    else TruncatedShift(q, 1 - e)
  }

  /** The magnitude is the correctly rounded one, except in the subnormal family that Misrounds
      describes, where it is not. */
  lemma {:induction false} PackedQuotientNearest(f: Format, absA: nat, absB: nat, d: Division)
    requires f.Valid() && d.Of(f, absA, absB)
    ensures Val(f, absB) > 0
    ensures var e := d.Exponent(f);
      Nearest(f, PackedQuotient(f, e, d.q, d.r, d.sb), Val(f, absA) * Pow2(f.Scale()), Val(f, absB))
      <==> e >= 1 || 1 - e >= f.Width() || !Misrounds(d.q, d.r, d.sb, 1 - e)
  {
    hide Lsh, Pow2, Val, Nearest, QuotientAt, PackedQuotient, Misrounds, Parts;
    PartsPositive(f, absB, d.sb, d.eb);
    if d.Exponent(f) >= 1 {
      PackedNormal(f, absA, absB, d);
    } else {
      PackedSubnormal(f, absA, absB, d);
    }
  }

  lemma {:induction false} PackedNormal(f: Format, absA: nat, absB: nat, d: Division)
    requires f.Valid() && d.Of(f, absA, absB) && d.Exponent(f) >= 1
    ensures Nearest(f, PackedQuotient(f, d.Exponent(f), d.q, d.r, d.sb), Val(f, absA) * Pow2(f.Scale()), Val(f, absB))
  {
    hide Lsh, Pow2, Val, Nearest, QuotientAt;
    var e := d.Exponent(f);
    var va, vb, i: nat := Val(f, absA), Val(f, absB), d.t + e - 1;
    PartsPositive(f, absB, d.sb, d.eb);
    LshTimes(va, f.Scale());
    CrossMultiply(f, va, d.sa, d.ea, vb, d.sb, d.eb, f.Scale(), i, 0);
    NotShifted(d.sb);
    NearestRatio(f, PackedQuotient(f, e, d.q, d.r, d.sb), Lsh(d.sa, i), d.sb, Lsh(va, f.Scale()), vb);
    if e >= f.MaxExponent() {
      OverflowQuotient(f, e, d.q, d.r, d.sa, d.t, d.sb);
    } else {
      NormalQuotient(f, e, d.q, d.r, d.sa, d.t, d.sb);
    }
  }

  lemma {:induction false} NotShifted(x: nat)
    ensures Lsh(x, 0) == x
  {
  }

  lemma {:induction false} PackedSubnormal(f: Format, absA: nat, absB: nat, d: Division)
    requires f.Valid() && d.Of(f, absA, absB) && d.Exponent(f) < 1
    ensures var s := 1 - d.Exponent(f);
      Nearest(f, PackedQuotient(f, 1 - s, d.q, d.r, d.sb), Val(f, absA) * Pow2(f.Scale()), Val(f, absB))
      <==> s >= f.Width() || !Misrounds(d.q, d.r, d.sb, s)
  {
    hide Lsh, Pow2, Val, Nearest, QuotientAt, Misrounds, TruncatedShift;
    var s := 1 - d.Exponent(f);
    var va, vb := Val(f, absA), Val(f, absB);
    InfFacts(f);
    PartsPositive(f, absB, d.sb, d.eb);
    LshTimes(va, f.Scale());
    CrossMultiply(f, va, d.sa, d.ea, vb, d.sb, d.eb, f.Scale(), d.t, s);
    LshGe(d.sb, s);
    NearestRatio(f, PackedQuotient(f, 1 - s, d.q, d.r, d.sb), Lsh(d.sa, d.t), Lsh(d.sb, s), Lsh(va, f.Scale()), vb);
    SubnormalPacked(f, d, s);
  }

  lemma {:induction false} PartsPositive(f: Format, abs: nat, sig: nat, e: int)
    requires Parts(f, abs, sig, e)
    ensures Val(f, abs) > 0
  {
    LshGe(sig, e - 1 + f.p);
    LshZero(f.p);
  }

  lemma {:induction false} SubnormalPacked(f: Format, d: Division, s: nat)
    requires f.Valid() && s >= 1 && QuotientAt(f, d.q, d.r, Lsh(d.sa, d.t), d.sb) && d.sb > 0
    ensures var abs := if s >= f.Width() then 0 else TruncatedShift(d.q, s);
      Nearest(f, abs, Lsh(d.sa, d.t), Lsh(d.sb, s)) <==> s >= f.Width() || !Misrounds(d.q, d.r, d.sb, s)
  {
    var a := Lsh(d.sa, d.t);
    LshGe(d.sb, s);
    if s >= f.Width() {
      TinyQuotient(f, d.q, d.r, a, d.sb, s);
    } else {
      SubnormalQuotient(f, d.q, d.r, a, d.sb, s);
      MisroundsExactly(d.q, d.r, d.sb, s);
      if Nearest(f, TruncatedShift(d.q, s), a, Lsh(d.sb, s)) {
        NearestUnique(f, TruncatedShift(d.q, s), RoundedShift(d.q, d.r, d.sb, s), a, Lsh(d.sb, s));
      }
    }
  }

  lemma {:induction false} TinyQuotient(f: Format, q: nat, r: nat, a: nat, b: nat, s: nat)
    requires f.Valid() && QuotientAt(f, q, r, a, b) && s >= f.Width()
    ensures Nearest(f, 0, a, Lsh(b, s))
  {
    WordRoom(f);
    Pow2Mono(f.Width(), s);
    LshTimes(b, s);
    MulComm(b, Pow2(s));
    MulLe(2 * q + 3, Pow2(s), b);
    Distrib(2 * q, 3, b);
    MulAssoc(2, q, b);
    LshGe(b, s);
    NearestZero(f, a, Lsh(b, s));
  }

  // ----- The tail of the routines

  /** lib/divsf3.c:163-203. */
  method DivTail(f: Format, quotient0: nat, residual0: nat, bSignificand: nat, writtenExponent: int, quotientSign: nat)
    returns (r: nat)
    requires f.Valid() && Pow2(f.p) <= quotient0 < 2 * Pow2(f.p) && bSignificand < 2 * Pow2(f.p)
    requires 0 < residual0 && 2 * residual0 < 3 * bSignificand
    requires quotientSign == 0 || quotientSign == f.SignBit()
    ensures r == quotientSign + PackedQuotient(f, writtenExponent, quotient0, residual0, bSignificand)
  {
    WordRoom(f);
    if writtenExponent >= f.MaxExponent() {
      InfSigned(f, quotientSign);
      return Or(f.Inf(), quotientSign);
    } else if writtenExponent < 1 {
      r := DenormalQuotient(f, quotient0, residual0, 1 - writtenExponent, quotientSign);
    } else {
      var twice := ShiftLeft(f.Width(), residual0, 1);
      SplitSmall(2 * residual0, f.Width());
      assert Lsh(residual0, 1) == 2 * residual0;
      var round := twice > bSignificand;
      var absResult := PackFields(f, writtenExponent, quotient0, 0);
      absResult := absResult + Bool(round);
      BinadeRoom(f, writtenExponent, quotient0);
      SignJoin(f, quotientSign, absResult);
      r := Or(absResult, quotientSign);
    }
  }

  lemma {:induction false} BinadeRoom(f: Format, e: nat, q: nat)
    requires f.Valid() && 1 <= e < f.MaxExponent() && q < 2 * Pow2(f.p)
    ensures Lsh(e - 1, f.p) + q + 1 < f.SignBit()
  {
    InfFacts(f);
    Binades(f, e - 1, 2);
    LshMono(e + 1, f.MaxExponent(), f.p);
  }

  /** The branch of a result that is denormal before rounding. */
  method DenormalQuotient(f: Format, quotient0: nat, residual0: nat, shift: nat, quotientSign: nat) returns (r: nat)
    requires f.Valid() && quotient0 < 2 * Pow2(f.p) && 0 < residual0 < Pow2(f.Width()) && shift >= 1
    requires quotientSign == 0 || quotientSign == f.SignBit()
    ensures r == quotientSign + if shift >= f.Width() then 0 else TruncatedShift(quotient0, shift)
  {
    if shift >= f.Width() { return quotientSign; }
    // the residual word is replaced by the bits shifted out
    Pow2Mono(f.p + 1, f.Width());
    var quotient, residual := WideRightShiftWithSticky(f.Width(), quotient0, residual0, shift);
    SubnormalCode(f.Width(), quotient0, residual0, shift, quotient, residual);
    TruncatedRoom(f, quotient0, shift);
    var absResult := quotient;
    if residual > f.SignBit() { absResult := absResult + 1; }
    AndOne(absResult);
    if residual == f.SignBit() { absResult := absResult + And(absResult, 1); }
    SignJoin(f, quotientSign, absResult);
    r := Or(absResult, quotientSign);
  }

  lemma {:induction false} TruncatedRoom(f: Format, q: nat, s: nat)
    requires f.Valid() && q < 2 * Pow2(f.p) && s >= 1
    ensures TruncatedShift(q, s) < f.SignBit()
  {
    ShrHalf(q, s, f.p);
    InfFacts(f);
  }

  // ----- Special operands

  /** lib/divsf3.c:54-88: NaN, infinity and zero operands. */
  method DivSpecial(f: Format, a: nat, b: nat) returns (done: bool, r: nat)
    requires f.Valid() && a < Pow2(f.Width()) && b < Pow2(f.Width())
    ensures done <==> !(0 < Abs(f, a) < f.Inf() && 0 < Abs(f, b) < f.Inf())
    ensures done ==> r < Pow2(f.Width()) && IsSpecialQuotient(f, a, b, r)
  {
    SignCases(f, a);
    SignCases(f, b);
    InfFacts(f);
    XorSign(f, a, b);
    var aAbs := And(a, f.SignBit() - 1);
    var bAbs := And(b, f.SignBit() - 1);
    var quotientSign := And(Xor(a, b), f.SignBit());
    InfSigned(f, quotientSign);
    if aAbs > f.Inf() {
      QuietNaN(f, a);
      return true, Or(a, f.Quiet());
    }
    if bAbs > f.Inf() {
      QuietNaN(f, b);
      return true, Or(b, f.Quiet());
    }
    if aAbs == f.Inf() {
      return true, if bAbs == f.Inf() then f.QNaN() else Or(aAbs, quotientSign);
    }
    if bAbs == f.Inf() { return true, quotientSign; }
    if aAbs == 0 {
      return true, if bAbs == 0 then f.QNaN() else quotientSign;
    }
    if bAbs == 0 { return true, Or(f.Inf(), quotientSign); }
    return false, 0;
  }

  // ----- Single precision: the quotient of the significands

  /** The truncated quotient is below a * 2^24 / b, by less than five quarters. */
  lemma {:induction false} SingleError(a: nat, b: nat, recip: nat, q: nat)
    requires a < 0x100_0000 && 0x80_0000 <= b
    requires 0 < Q63 - recip * (256 * b) < 0x10_0000_0000
    requires q * Q32 <= recip * (2 * a) < q * Q32 + Q32
    requires a > 0
    ensures 0 < a * 0x100_0000 - q * b && 4 * (a * 0x100_0000 - q * b) < 5 * b
  {
    var g := Q63 - recip * (256 * b);
    // both sides of the truncation times b, and recip * b in terms of its error
    MulLe(q * Q32, recip * (2 * a), b);
    MulLe(recip * (2 * a), q * Q32 + Q32, b);
    Regroup(recip, a, b, g);
    Regroup2(q, b);
    MulLe(1, g, a);
    MulLe(g, 0x10_0000_0000, a);
    MulComm(g, a);
  }

  lemma {:induction false} Regroup(recip: int, a: int, b: int, g: int)
    requires g == Q63 - recip * (256 * b)
    ensures 128 * (recip * (2 * a) * b) == a * Q63 - a * g
  {
    var x := recip * (256 * b);
    Distrib(x, g, a);
    MulComm(a, g);
    assert recip * (2 * a) * b * 128 == x * a;
  }

  lemma {:induction false} Regroup2(q: int, b: int)
    ensures q * Q32 * b == Q32 * (q * b)
    ensures (q * Q32 + Q32) * b == Q32 * (q * b) + Q32 * b
  {
    Distrib(q * Q32, Q32, b);
    MulComm(q, Q32);
    MulAssoc(Q32, q, b);
  }

  lemma {:induction false} SingleRange(a: nat, b: nat, q: nat)
    requires 0x80_0000 <= a < 0x100_0000 && 0x80_0000 <= b < 0x100_0000
    requires 0 < a * 0x100_0000 - q * b && 4 * (a * 0x100_0000 - q * b) < 5 * b
    ensures 0x80_0000 <= q < 0x200_0000
  {
    MulLe(0x80_0000, b, q);
    MulComm(b, q);
    MulLe(b, 0xff_ffff, 4 * q + 5);
    MulComm(b, 4 * q + 5);
    Distrib(4 * q, 5, b);
    MulAssoc(4, q, b);
  }

  /** A quotient of limit and more is halved. */
  function NormalQuotientOf(q: int, limit: int): int { if q < limit then q else q / 2 }

  /** The quotient before it is normalised, as a function of the significands: two units off the
      reciprocal, and the high word of the product. */
  function RawSingle(a: int, b: int): int { (Reciprocal(256 * b) - 2) % Q32 * (2 * a) / Q32 }

  /** lib/divsf3.c:101-161: the reciprocal, the quotient and its residual. */
  method QuotientSingle(aSignificand: nat, bSignificand: nat) returns (quotient: nat, residual: nat, decrement: bool)
    requires 0x80_0000 <= aSignificand < 0x100_0000 && 0x80_0000 <= bSignificand < 0x100_0000
    ensures 0x80_0000 <= quotient < 0x100_0000 && 0 < residual && 2 * residual < 3 * bSignificand
    ensures aSignificand * (if decrement then 0x100_0000 else 0x80_0000) == quotient * bSignificand + residual
    ensures bSignificand == 0x80_0000 < aSignificand ==> !decrement && quotient == aSignificand - 1
    ensures quotient == NormalQuotientOf(RawSingle(aSignificand, bSignificand), 0x100_0000)
  {
    hide Wide, Reciprocal;
    var q31b := 256 * bSignificand;
    var reciprocal := Reciprocal32(q31b);
    ghost var wide := Unwrapped(reciprocal);
    reciprocal := (reciprocal - 2) % Q32;
    ReciprocalSingle(q31b, wide);
    assert reciprocal == wide - 2;
    quotient := reciprocal * (2 * aSignificand) / Q32;
    assert quotient == RawSingle(aSignificand, bSignificand);
    SingleError(aSignificand, bSignificand, reciprocal, quotient);
    SingleRange(aSignificand, bSignificand, quotient);
    if bSignificand == 0x80_0000 { assert reciprocal == Q32 - 2; }
    if quotient < 0x100_0000 {
      residual := ResidualSingle(aSignificand * 0x100_0000, quotient, bSignificand);
      decrement := true;
    } else {
      HalfQuotient(aSignificand * 0x80_0000, quotient, bSignificand);
      quotient := quotient / 2;
      residual := ResidualSingle(aSignificand * 0x80_0000, quotient, bSignificand);
      decrement := false;
    }
  }

  lemma {:induction false} WideRange(b: nat, wide: nat)
    requires Q31 <= b < Q32 && -Q32 <= Q63 - wide * b <= ThreeSteps && (b == Q31 ==> wide == Q32)
    ensures 2 <= wide <= Q32
  {
    MulLe(wide, 1, b);
    MulLe(Q32 + 1, wide, b);
    MulLe(Q31 + 1, b, Q32 + 1);
    MulComm(Q32 + 1, b);
  }

  /** Two units below the third estimate: strictly below the exact reciprocal, and a proper word. */
  lemma {:induction false} ReciprocalSingle(b: nat, wide: nat)
    requires Q31 <= b < Q32 && (b == Q31 || b >= Q31 + 256)
    requires -Q32 <= Q63 - wide * b <= ThreeSteps && (b == Q31 ==> wide == Q32)
    ensures 2 <= wide && (wide % Q32 - 2) % Q32 == wide - 2
    ensures 0 < Q63 - (wide - 2) * b < 0x10_0000_0000
  {
    WideRange(b, wide);
    Distrib(wide - 2, 2, b);
  }

  /** `x - quotient * b` on 32-bit words, where the exact difference fits. */
  method ResidualSingle(x: nat, quotient: nat, b: nat) returns (r: nat)
    requires 0 <= x - quotient * b < Q32
    ensures r == x - quotient * b
  {
    r := (x % Q32 - quotient * b % Q32) % Q32;
  }

  /** Halving a quotient of 25 digits: the bit dropped goes into the residual. */
  lemma {:induction false} HalfQuotient(x: nat, q: nat, b: nat)
    requires 0 < 2 * x - q * b && 4 * (2 * x - q * b) < 6 * b
    ensures 0 < x - q / 2 * b && 2 * (x - q / 2 * b) < 3 * b
  {
    var h, s := q / 2, q % 2;
    Distrib(2 * h, s, b);
    MulAssoc(2, h, b);
    MulLe(s, 1, b);
    MulLe(0, s, b);
  }

  // ----- Double precision: the quotient of the significands

  const P53 := 0x20_0000_0000_0000

  lemma {:induction false} DoubleError(a: nat, b: nat, recip: nat, q: nat)
    requires 0 < a < P53 && P53 <= 2 * b
    requires 0 < Q126 - recip * (2048 * b) < 0x80_0000_0000_0000_0000
    requires q * Q64 <= 4 * a * recip < q * Q64 + Q64
    ensures 0 < a * P53 - q * b && 2 * (a * P53 - q * b) < 3 * b
  {
    var g := Q126 - recip * (2048 * b);
    MulLe(q * Q64, 4 * a * recip, b);
    MulLe(4 * a * recip, q * Q64 + Q64, b);
    RegroupDouble(recip, a, b, g);
    RegroupDouble2(q, b);
    MulLe(1, g, a);
    MulLe(g, 0x80_0000_0000_0000_0000, a);
    MulComm(g, a);
  }

  lemma {:induction false} RegroupDouble(recip: int, a: int, b: int, g: int)
    requires g == Q126 - recip * (2048 * b)
    ensures 512 * (4 * a * recip * b) == a * Q126 - a * g
  {
    var x := recip * (2048 * b);
    Distrib(x, g, a);
    MulComm(a, g);
    assert 4 * a * recip * b * 512 == x * a;
  }

  lemma {:induction false} RegroupDouble2(q: int, b: int)
    ensures q * Q64 * b == Q64 * (q * b)
    ensures (q * Q64 + Q64) * b == Q64 * (q * b) + Q64 * b
  {
    Distrib(q * Q64, Q64, b);
    MulComm(q, Q64);
    MulAssoc(Q64, q, b);
  }

  lemma {:induction false} DoubleRange(a: nat, b: nat, q: nat)
    requires P53 <= 2 * a < 2 * P53 && P53 <= 2 * b < 2 * P53
    requires 0 < a * P53 - q * b && 2 * (a * P53 - q * b) < 3 * b
    ensures P53 <= 2 * q && q < 2 * P53
  {
    MulLe(P53, 2 * b, q);
    MulComm(2 * b, q);
    MulAssoc(2, b, q);
    MulComm(b, q);
    MulLe(b, P53 - 1, 2 * q + 3);
    MulComm(b, 2 * q + 3);
    Distrib(2 * q, 3, b);
    MulAssoc(2, q, b);
  }

  function RawReciprocal(b: int): int {
    (WideEstimate((Reciprocal(b / 0x20_0000) - 1) % Q32, b / 0x20_0000, 2048 * b % Q32) - 2) % Q64
  }

  /** The quotient before it is normalised. */
  function RawDouble(a: int, b: int): int { 4 * a * RawReciprocal(b) / Q64 }

  /** lib/divdf3.c:103-178: the reciprocal, the quotient and its residual. */
  method QuotientDouble(aSignificand: nat, bSignificand: nat) returns (quotient: nat, residual: nat, decrement: bool)
    requires P53 <= 2 * aSignificand < 2 * P53 && P53 <= 2 * bSignificand < 2 * P53
    ensures P53 <= 2 * quotient < 2 * P53 && 0 < residual && 2 * residual < 3 * bSignificand
    ensures aSignificand * (if decrement then P53 else P53 / 2) == quotient * bSignificand + residual
    ensures quotient == NormalQuotientOf(RawDouble(aSignificand, bSignificand), P53)
  {
    hide RawReciprocal;
    var reciprocal := Reciprocal64(bSignificand);
    ghost var quotientLo;
    quotient, quotientLo := HighProduct(4 * aSignificand, reciprocal);
    HighWord(4 * aSignificand * reciprocal, quotient);
    DoubleError(aSignificand, bSignificand, reciprocal, quotient);
    DoubleRange(aSignificand, bSignificand, quotient);
    if quotient < P53 {
      residual := ResidualDouble(aSignificand * P53, quotient, bSignificand);
      decrement := true;
    } else {
      HalfQuotient(aSignificand * (P53 / 2), quotient, bSignificand);
      quotient := quotient / 2;
      residual := ResidualDouble(aSignificand * (P53 / 2), quotient, bSignificand);
      decrement := false;
    }
  }

  /** lib/divdf3.c:103-141: three 32-bit steps and a 64-bit one. */
  method Reciprocal64(bSignificand: nat) returns (reciprocal: nat)
    requires P53 <= 2 * bSignificand < 2 * P53
    ensures reciprocal < Q64
    ensures 0 < Q126 - reciprocal * (2048 * bSignificand) < 0x80_0000_0000_0000_0000
    ensures reciprocal == RawReciprocal(bSignificand)
  {
    hide Wide, Reciprocal, WideEstimate;
    var q31b := bSignificand / 0x20_0000;
    var q63blo := 2048 * bSignificand % Q32;
    var recip32 := Reciprocal32(q31b);
    ghost var wide := Unwrapped(recip32);
    WideRange(q31b, wide);
    recip32 := (recip32 - 1) % Q32;
    assert recip32 == wide - 1;
    SplitDivisor(bSignificand, q31b, q63blo);
    reciprocal := WideStep(recip32, q31b, q63blo);
    ReciprocalDouble(2048 * bSignificand, reciprocal);
    reciprocal := (reciprocal - 2) % Q64;
  }

  lemma {:induction false} SplitDivisor(b: nat, hi: nat, lo: nat)
    requires hi == b / 0x20_0000 && lo == 2048 * b % Q32
    ensures 2048 * b == hi * Q32 + lo
  {
  }

  lemma {:induction false} ReciprocalDouble(b: nat, y: nat)
    requires Q64 <= 2 * b < 2 * Q64 && y < Q64
    requires -Q64 < Q126 - y * b < 0x47_0000_0000_0000_0000 + b
    ensures 2 <= y && (y - 2) % Q64 == y - 2
    ensures 0 < Q126 - (y - 2) * b < 0x80_0000_0000_0000_0000
  {
    MulLe(y, 1, b);
    Distrib(y - 2, 2, b);
  }

  lemma {:induction false} HighWord(product: int, hi: int)
    requires hi * Q64 <= product < hi * Q64 + Q64
    ensures hi == product / Q64
  {
  }

  /** wideMultiply of two 64-bit words. */
  method HighProduct(a: nat, b: nat) returns (hi: nat, lo: nat)
    requires a < Q64 && b < Q64
    ensures hi * Q64 <= a * b < hi * Q64 + Q64
  {
    WordSizes();
    hi, lo := WideMultiplyHalves(32, a, b);
    LshTimes(hi, 64);
  }

  /** `x - quotient * b` on 64-bit words, where the exact difference fits. */
  method ResidualDouble(x: nat, quotient: nat, b: nat) returns (r: nat)
    requires 0 <= x - quotient * b < Q64
    ensures r == x - quotient * b
  {
    r := (x % Q64 - quotient * b % Q64) % Q64;
  }

  // ----- The whole routines

  lemma {:induction false} SignedQuotient(f: Format, a: nat, b: nat, sign: nat, d: Division)
    requires f.Valid() && 0 < Abs(f, a) < f.Inf() && 0 < Abs(f, b) < f.Inf()
    requires sign == if Negative(f, a) != Negative(f, b) then f.SignBit() else 0
    requires d.Of(f, Abs(f, a), Abs(f, b))
    ensures var e := d.Exponent(f);
      var r := sign + PackedQuotient(f, e, d.q, d.r, d.sb);
      r < Pow2(f.Width()) && (IsQuotient(f, a, b, r) <==> e >= 1 || 1 - e >= f.Width() || !Misrounds(d.q, d.r, d.sb, 1 - e))
  {
    var e := d.Exponent(f);
    PackedQuotientNearest(f, Abs(f, a), Abs(f, b), d);
    QuotientRoom(f, e, d.q, d.r, d.sb);
    SignJoin(f, sign, PackedQuotient(f, e, d.q, d.r, d.sb));
  }

  lemma {:induction false} QuotientRoom(f: Format, e: int, q: nat, r: nat, b: nat)
    requires f.Valid() && q < 2 * Pow2(f.p)
    ensures PackedQuotient(f, e, q, r, b) < f.SignBit()
  {
    InfFacts(f);
    if 1 <= e < f.MaxExponent() {
      BinadeRoom(f, e, q);
    } else if e < 1 {
      TruncatedRoom(f, q, 1 - e);
    }
  }

  /** Significands, exponents and sign, before the quotient. */
  method DivOperands(f: Format, a: nat, b: nat) returns (sa: nat, ea: int, sb: nat, eb: int, sign: nat)
    requires f.Valid() && a < Pow2(f.Width()) && b < Pow2(f.Width())
    requires 0 < Abs(f, a) < f.Inf() && 0 < Abs(f, b) < f.Inf()
    ensures Parts(f, Abs(f, a), sa, ea) && Parts(f, Abs(f, b), sb, eb)
    ensures sign == if Negative(f, a) != Negative(f, b) then f.SignBit() else 0
  {
    sign := And(Xor(a, b), f.SignBit());
    XorSign(f, a, b);
    sa, ea := Extract(f, a);
    sb, eb := Extract(f, b);
  }

  /** A normal or overflowing result is the correctly rounded quotient; a subnormal one is exactly
      when Misrounds is false of the quotient and residual computed. */
  ghost predicate Divided(f: Format, a: nat, b: nat, r: nat, d: Division)
    requires f.Valid()
  {
    var e := d.Exponent(f);
    && d.Of(f, Abs(f, a), Abs(f, b))
    && r < Pow2(f.Width())
    && r == WithSign(f, Negative(f, a) != Negative(f, b), PackedQuotient(f, e, d.q, d.r, d.sb))
    && (IsQuotient(f, a, b, r) <==> e >= 1 || 1 - e >= f.Width() || !Misrounds(d.q, d.r, d.sb, 1 - e))
  }

  lemma {:induction false} DividedHolds(f: Format, a: nat, b: nat, sign: nat, d: Division)
    requires f.Valid() && 0 < Abs(f, a) < f.Inf() && 0 < Abs(f, b) < f.Inf()
    requires sign == if Negative(f, a) != Negative(f, b) then f.SignBit() else 0
    requires d.Of(f, Abs(f, a), Abs(f, b))
    ensures Divided(f, a, b, sign + PackedQuotient(f, d.Exponent(f), d.q, d.r, d.sb), d)
  {
    SignedQuotient(f, a, b, sign, d);
  }

  /** lib/divsf3.c:163-204, for either precision: the exponent and the tail. */
  method DivFinish(f: Format, a: nat, b: nat, sa: nat, ea: int, sb: nat, eb: int, sign: nat, quotient: nat, residual: nat, decrement: bool)
    returns (r: nat, ghost d: Division)
    requires f.Valid() && 0 < Abs(f, a) < f.Inf() && 0 < Abs(f, b) < f.Inf()
    requires sign == if Negative(f, a) != Negative(f, b) then f.SignBit() else 0
    requires Parts(f, Abs(f, a), sa, ea) && Parts(f, Abs(f, b), sb, eb)
    requires QuotientAt(f, quotient, residual, Lsh(sa, if decrement then f.p + 1 else f.p), sb)
    ensures d == Division(sa, ea, sb, eb, if decrement then f.p + 1 else f.p, quotient, residual)
    ensures Divided(f, a, b, r, d)
  {
    d := Division(sa, ea, sb, eb, if decrement then f.p + 1 else f.p, quotient, residual);
    // quotientExponent + exponentBias
    var writtenExponent := ea - eb - (if decrement then 1 else 0) + f.Bias();
    r := DivTail(f, quotient, residual, sb, writtenExponent, sign);
    DividedHolds(f, a, b, sign, d);
  }

  lemma {:induction false} SingleSignificand(abs: nat, sig: nat, e: int)
    requires Parts(Single(), abs, sig, e)
    ensures 0x80_0000 <= sig < 0x100_0000
  {
    WordSizes();
  }

  lemma {:induction false} SingleQuotientAt(sa: nat, sb: nat, q: nat, r: nat, decrement: bool)
    requires 0x80_0000 <= q < 0x100_0000 && 0 < r && 2 * r < 3 * sb
    requires sa * (if decrement then 0x100_0000 else 0x80_0000) == q * sb + r
    ensures QuotientAt(Single(), q, r, Lsh(sa, if decrement then Single().p + 1 else Single().p), sb)
  {
    WordSizes();
    LshTimes(sa, 23);
    assert Lsh(sa, 24) == 2 * Lsh(sa, 23);
  }

  lemma {:induction false} DoubleSignificand(abs: nat, sig: nat, e: int)
    requires Parts(Double(), abs, sig, e)
    ensures P53 <= 2 * sig < 2 * P53
  {
    WordSizes();
  }

  lemma {:induction false} DoubleQuotientAt(sa: nat, sb: nat, q: nat, r: nat, decrement: bool)
    requires P53 <= 2 * q < 2 * P53 && 0 < r && 2 * r < 3 * sb
    requires sa * (if decrement then P53 else P53 / 2) == q * sb + r
    ensures QuotientAt(Double(), q, r, Lsh(sa, if decrement then Double().p + 1 else Double().p), sb)
  {
    WordSizes();
    LshTimes(sa, 52);
    assert Lsh(sa, 53) == 2 * Lsh(sa, 52);
  }

  /** The routines on finite operands other than zero. */
  method DivideSingle(a: nat, b: nat) returns (r: nat, ghost d: Division)
    requires a < Pow2(32) && b < Pow2(32) && BothOrdinary(Single(), a, b)
    ensures Divided(Single(), a, b, r, d)
    ensures d.q == NormalQuotientOf(RawSingle(d.sa, d.sb), 0x100_0000)
    ensures d.sb == 0x80_0000 < d.sa ==> d.t == 23 && d.q == d.sa - 1
  {
    hide RawSingle, Divided;
    var sa, ea, sb, eb, sign := DivOperands(Single(), a, b);
    SingleSignificand(Abs(Single(), a), sa, ea);
    SingleSignificand(Abs(Single(), b), sb, eb);
    var quotient, residual, decrement := QuotientSingle(sa, sb);
    SingleQuotientAt(sa, sb, quotient, residual, decrement);
    r, d := DivFinish(Single(), a, b, sa, ea, sb, eb, sign, quotient, residual, decrement);
  }

  method DivideDouble(a: nat, b: nat) returns (r: nat, ghost d: Division)
    requires a < Pow2(64) && b < Pow2(64) && BothOrdinary(Double(), a, b)
    ensures Divided(Double(), a, b, r, d)
    ensures d.q == NormalQuotientOf(RawDouble(d.sa, d.sb), P53)
  {
    hide RawDouble, Divided;
    var sa, ea, sb, eb, sign := DivOperands(Double(), a, b);
    DoubleSignificand(Abs(Double(), a), sa, ea);
    DoubleSignificand(Abs(Double(), b), sb, eb);
    var quotient, residual, decrement := QuotientDouble(sa, sb);
    DoubleQuotientAt(sa, sb, quotient, residual, decrement);
    r, d := DivFinish(Double(), a, b, sa, ea, sb, eb, sign, quotient, residual, decrement);
  }

  /** lib/divsf3.c:45-204.  The quotient that Divided speaks of is a function of the operands. */
  method Divsf3(a: nat, b: nat) returns (r: nat, ghost d: Division)
    requires a < Pow2(32) && b < Pow2(32)
    ensures !BothOrdinary(Single(), a, b) ==> r < Pow2(32) && IsQuotient(Single(), a, b, r)
    ensures BothOrdinary(Single(), a, b) ==>
      Divided(Single(), a, b, r, d) && d.q == NormalQuotientOf(RawSingle(d.sa, d.sb), 0x100_0000)
    ensures BothOrdinary(Single(), a, b) && d.sb == 0x80_0000 < d.sa ==> d.t == 23 && d.q == d.sa - 1
  {
    hide RawSingle, Divided;
    d := Division(0, 0, 0, 0, 0, 0, 0);
    var done;
    done, r := DivSpecial(Single(), a, b);
    if !done {
      r, d := DivideSingle(a, b);
    }
  }

  /** lib/divdf3.c:49-222. */
  method Divdf3(a: nat, b: nat) returns (r: nat, ghost d: Division)
    requires a < Pow2(64) && b < Pow2(64)
    ensures !BothOrdinary(Double(), a, b) ==> r < Pow2(64) && IsQuotient(Double(), a, b, r)
    ensures BothOrdinary(Double(), a, b) ==>
      Divided(Double(), a, b, r, d) && d.q == NormalQuotientOf(RawDouble(d.sa, d.sb), P53)
  {
    hide RawDouble, Divided;
    d := Division(0, 0, 0, 0, 0, 0, 0);
    var done;
    done, r := DivSpecial(Double(), a, b);
    if !done {
      r, d := DivideDouble(a, b);
    }
  }

  /** Finite operands other than zero. */
  predicate BothOrdinary(f: Format, a: nat, b: nat)
  {
    0 < Abs(f, a) < f.Inf() && 0 < Abs(f, b) < f.Inf()
  }

  // ----- When the result is wrong, in terms of the operands

  /** The dividend, shifted so that the quotient of the significands has p + 1 digits. */
  function Dividend(f: Format, sa: nat, sb: nat): nat { Lsh(sa, if sa <= sb then f.p + 1 else f.p) }

  /** How far the quotient is shifted to become subnormal; the exponent it is written with if not positive. */
  function SubnormalBy(f: Format, sa: nat, ea: int, sb: nat, eb: int): int
    requires f.Valid()
  {
    1 - (ea - eb + f.Bias() - (if sa <= sb then 1 else 0))
  }

  /** Only significands and exponents of the operands matter: a wrong result is subnormal, and its true quotient
      is at a rounding boundary; if the division is exact, it is wrong whenever that is so. */
  lemma {:induction false} WrongAtBoundary(f: Format, a: nat, b: nat, r: nat, d: Division, sa: nat, ea: int, sb: nat, eb: int)
    requires f.Valid() && BothOrdinary(f, a, b) && Divided(f, a, b, r, d)
    requires Parts(f, Abs(f, a), sa, ea) && Parts(f, Abs(f, b), sb, eb)
    ensures sb > 0
    ensures var n, s := Dividend(f, sa, sb), SubnormalBy(f, sa, ea, sb, eb);
      && (!IsQuotient(f, a, b, r) ==> 1 <= s < f.Width() && AtBoundary(n, sb, s) && n / sb == d.q + 1)
      && (n % sb == 0 && 1 <= s < f.Width() ==> (IsQuotient(f, a, b, r) <==> !AtBoundary(n, sb, s)))
  {
    PartsUnique(f, Abs(f, a), sa, ea, d.sa, d.ea);
    PartsUnique(f, Abs(f, b), sb, eb, d.sb, d.eb);
    PartsRange(f, Abs(f, b), sb, eb);
    hide Parts, IsQuotient, AtBoundary, Misrounds, QuotientAt, Lsh, PackedQuotient;
    ShiftKnown(f, d.q, d.r, sa, d.t, sb);
    TrueQuotient(f, d.q, d.r, Dividend(f, sa, sb), sb);
    var s := SubnormalBy(f, sa, ea, sb, eb);
    assert s == 1 - d.Exponent(f);
    if s >= 1 {
      MisroundsAtBoundary(f, d.q, d.r, Dividend(f, sa, sb), sb, s);
      if Dividend(f, sa, sb) % sb == 0 { ExactQuotients(f, d.q, d.r, Dividend(f, sa, sb), sb, s); }
    }
  }

  lemma {:induction false} PartsRange(f: Format, abs: nat, sig: nat, e: int)
    requires Parts(f, abs, sig, e)
    ensures sig < 2 * Pow2(f.p)
  {
  }

  // ----- The subnormal branch does round wrongly

  lemma {:induction false} PartsUnique(f: Format, abs: nat, s: nat, e: int, s': nat, e': int)
    requires Parts(f, abs, s, e) && Parts(f, abs, s', e')
    ensures s == s' && e == e'
  {
    PartsOrder(f, abs, s, e, abs, s', e');
    PartsOrder(f, abs, s', e', abs, s, e);
  }

  lemma {:induction false} SingleWords()
    ensures Single().Inf() == 0x7f80_0000 && Single().SignBit() == 0x8000_0000 && Single().MaxExponent() == 255
  {
    WordSizes();
    assert Pow2(4) == 16 by { assert Pow2(2) == 4; }
    Pow2Sum(4, 4);
    Pow2Sum(23, 8);
    LshTimes(255, 23);
  }

  /** A positive normal number from its fields. */
  lemma {:induction false} NormalSingle(abs: nat, e: nat, s: nat)
    requires 1 <= e < 255 && s < 0x80_0000 && abs == e * 0x80_0000 + s
    ensures Abs(Single(), abs) == abs && Parts(Single(), abs, 0x80_0000 + s, e)
  {
    SingleWords();
    WordSizes();
    LshTimes(e, 23);
    SplitUnique(e, s, 23);
    SplitSmall(abs, 31);
    PartsNormal(Single(), abs);
  }

  /** Dividing the float 0x00800003, just above the smallest normal number, by 2.0 is a tie between
      the subnormals 0x00400001 and 0x00400002.  The even one is correct; the routine returns the
      odd one. */
  method MisroundedHalf() returns (r: nat)
    ensures r == 0x0040_0001
    ensures !IsQuotient(Single(), 0x0080_0003, 0x4000_0000, r)
  {
    WordSizes();
    ExampleParts();
    hide Divided, Parts, RawSingle, IsQuotient;
    ghost var d;
    r, d := Divsf3(0x0080_0003, 0x4000_0000);
    ExampleDivided(r, d);
  }

  lemma {:induction false} ExampleParts()
    ensures BothOrdinary(Single(), 0x0080_0003, 0x4000_0000)
    ensures !Negative(Single(), 0x0080_0003) && !Negative(Single(), 0x4000_0000)
    ensures Parts(Single(), Abs(Single(), 0x0080_0003), 0x80_0003, 1)
    ensures Parts(Single(), Abs(Single(), 0x4000_0000), 0x80_0000, 128)
  {
    PositiveNormal(0x0080_0003, 1, 3);
    PositiveNormal(0x4000_0000, 128, 0);
    hide Parts, Abs, Negative, Format.Inf;
  }

  lemma {:induction false} PositiveNormal(abs: nat, e: nat, s: nat)
    requires 1 <= e < 255 && s < 0x80_0000 && abs == e * 0x80_0000 + s
    ensures 0 < Abs(Single(), abs) < Single().Inf() && !Negative(Single(), abs)
    ensures Parts(Single(), Abs(Single(), abs), 0x80_0000 + s, e)
  {
    SingleWords();
    NormalSingle(abs, e, s);
    hide Parts, Abs;
  }

  lemma {:induction false} ExampleDivided(r: nat, d: Division)
    requires Divided(Single(), 0x0080_0003, 0x4000_0000, r, d)
    requires d.sb == 0x80_0000 < d.sa ==> d.t == 23 && d.q == d.sa - 1
    ensures r == 0x0040_0001 && !IsQuotient(Single(), 0x0080_0003, 0x4000_0000, r)
  {
    hide Parts, IsQuotient, Abs, Negative, Misrounds, TruncatedShift, Lsh;
    ExampleParts();
    PartsUnique(Single(), Abs(Single(), 0x0080_0003), d.sa, d.ea, 0x80_0003, 1);
    PartsUnique(Single(), Abs(Single(), 0x4000_0000), d.sb, d.eb, 0x80_0000, 128);
    SingleWords();
    WordSizes();
    ExampleQuotient(d.q, d.r);
    assert d.Exponent(Single()) == 0;
  }

  lemma {:induction false} ExampleQuotient(q: nat, r: nat)
    requires q == 0x80_0002 && Lsh(0x80_0003, 23) == q * 0x80_0000 + r
    ensures Misrounds(q, r, 0x80_0000, 1) && TruncatedShift(q, 1) == 0x40_0001
  {
    WordSizes();
    LshTimes(0x80_0003, 23);
    assert Shr(q, 1) == q / 2 && Low(q, 1) == q % 2 && Pow2(0) == 1;
  }
}
