/** lib/extendsfdf2.c, and the round trip with lib/truncdfsf2.c.  As in Convert, f is the wide format
and g the narrow one. */
module Widen {
  import opened Bits
  import opened Floats
  import opened SoftFloat
  import opened Convert

  /** Widening is exact.  A NaN keeps its quiet bit: a signalling one stays signalling. */
  ghost predicate IsWidened(f: Format, g: Format, a: nat, r: nat)
    requires Narrower(f, g)
  {
    && Negative(f, r) == Negative(g, a)
    && (IsNaN(g, a) <==> IsNaN(f, r))
    && (IsInf(g, a) <==> IsInf(f, r))
    && (IsNaN(g, a) ==> (IsQuietNaN(g, a) <==> IsQuietNaN(f, r)))
    && (IsFinite(g, a) ==> Val(f, Abs(f, r)) == Lsh(Val(g, Abs(g, a)), QuantumGap(f, g)))
  }

  /** The same for the magnitude fields. */
  ghost predicate WidensTo(f: Format, g: Format, abs: nat, r: nat)
    requires Narrower(f, g)
  {
    && r < f.SignBit()
    && (abs < g.Inf() ==> r < f.Inf() && Val(f, r) == Lsh(Val(g, abs), QuantumGap(f, g)))
    && (abs >= g.Inf() ==> r >= f.Inf() && (r == f.Inf() <==> abs == g.Inf()))
    && (abs > g.Inf() ==> Shr(r, f.p - 1) % 2 == Shr(abs, g.p - 1) % 2)
  }

  /** Widening never produces the one magnitude that narrowing mishandles. */
  lemma {:induction false} WideMagnitude(f: Format, g: Format, a: nat, r: nat)
    requires Narrower(f, g) && IsWidened(f, g, a, r)
    ensures !IsNaN(g, a) ==> Abs(f, r) != OverflowBound(f, g)
  {
    var top := f.Bias() + g.MaxExponent() - g.Bias();
    InfFacts(g);
    LshMono(top, f.MaxExponent(), f.p);
    if IsFinite(g, a) {
      ValFields(f, top, 0);
      LshPow2(f.p, top - 1);
      LshPow2(g.p + g.MaxExponent() - 1, QuantumGap(f, g));
      ValMono(g, Abs(g, a), g.Inf());
      LshMono(Val(g, Abs(g, a)), Val(g, g.Inf()), QuantumGap(f, g));
    }
  }

  /** Widening and narrowing back is the identity on everything but NaNs. */
  lemma {:induction false} WidenThenNarrow(f: Format, g: Format, a: nat, r: nat, s: nat)
    requires Narrower(f, g) && a < Pow2(g.Width()) && s < Pow2(g.Width())
    requires IsWidened(f, g, a, r) && IsNarrowed(f, g, r, s) && !IsNaN(g, a)
    ensures s == a
  {
    SignCases(g, a);
    SignCases(g, s);
    if IsFinite(g, a) {
      var abs, d := Abs(g, a), QuantumGap(f, g);
      LshTimes(Val(g, abs), d);
      NearestExact(g, abs);
      NearestScaled(g, abs, Val(g, abs), Pow2(d));
      NearestUnique(g, abs, Abs(g, s), Val(f, Abs(f, r)), Pow2(d));
    }
  }

  /** A representable magnitude stays exact when numerator and denominator are scaled. */
  lemma {:induction false} NearestScaled(g: Format, abs: nat, n: nat, d: nat)
    requires abs < g.Inf() && n == Val(g, abs) && d > 0
    ensures Nearest(g, abs, n * d, d)
  {
    ValStep(g, abs);
    MulLe(n, Val(g, abs + 1), d);
    NearestBelow(g, abs, n * d, d);
  }

  // ----- The three kinds of magnitude

  lemma {:induction false} WidenNormal(f: Format, g: Format, abs: nat, k: nat)
    requires Narrower(f, g) && k == f.p - g.p && g.Implicit() <= abs < g.Inf()
    ensures Lsh(abs, k) < f.SignBit()
    ensures WidensTo(f, g, abs, Lsh(abs, k) + Lsh(f.Bias() - g.Bias(), f.p))
  {
    hide Lsh, Shr, Low;
    var e, s, d := Shr(abs, g.p), Low(abs, g.p), f.Bias() - g.Bias();
    Split(abs, g.p);
    ShrLt(abs, g.p, 1);
    LshPow2(0, g.p);
    ShrLt(abs, g.p, g.MaxExponent());
    WidenFields(f, g, e, s, k, d);
    BinadeFits(f, e + d, Lsh(Pow2(g.p) + s, k));
    ValPack(f, e + d - 1, Lsh(Pow2(g.p) + s, k));
    LshLsh(Pow2(g.p) + s, k, e + d - 1);
    LshLsh(Pow2(g.p) + s, e - 1, QuantumGap(f, g));
    InfFacts(f);
  }

  /** Moving a normal encoding into the wide fields. */
  lemma {:induction false} WidenFields(f: Format, g: Format, e: nat, s: nat, k: nat, d: nat)
    requires k == f.p - g.p && g.p <= f.p && e >= 1 && s < Pow2(g.p)
    ensures Lsh(Lsh(e, g.p) + s, k) + Lsh(d, f.p) == Lsh(e + d - 1, f.p) + Lsh(Pow2(g.p) + s, k)
    ensures Pow2(f.p) <= Lsh(Pow2(g.p) + s, k) < 2 * Pow2(f.p)
  {
    hide Lsh, Shr, Low;
    LshSum(Lsh(e, g.p), s, k);
    LshLsh(e, g.p, k);
    LshSum(Pow2(g.p), s, k);
    LshPow2(g.p, k);
    Binades(f, e + d - 1, 1);
    LshSum(e, d, f.p);
    LshMono(s, Pow2(g.p), k);
  }

  lemma {:induction false} WidenSubnormal(f: Format, g: Format, abs: nat, scale: nat, k: nat)
    requires Narrower(f, g) && k == f.p - g.p && 0 < abs < g.Implicit()
    requires scale <= g.p && Pow2(g.p) <= Lsh(abs, scale) < 2 * Pow2(g.p)
    ensures var d := f.Bias() - g.Bias();
      && Pow2(f.p) <= Lsh(abs, k + scale) < 2 * Pow2(f.p)
      && WidensTo(f, g, abs, Lsh(d - scale + 1, f.p) + (Lsh(abs, k + scale) - Pow2(f.p)))
  {
    hide Lsh, Shr, Low, Pow2;
    var d := f.Bias() - g.Bias();
    var sig := Lsh(abs, k + scale);
    LshLsh(abs, scale, k);
    LshMono(Pow2(g.p), Lsh(abs, scale), k);
    LshMono(Lsh(abs, scale), 2 * Pow2(g.p), k);
    LshSum(Pow2(g.p), Pow2(g.p), k);
    LshPow2(g.p, k);
    Binades(f, d - scale, 1);
    ValPack(f, d - scale, sig);
    LshLsh(abs, k + scale, d - scale);
    SplitSmall(abs, g.p);
    SubnormalRoom(f, g, d, scale, sig);
  }

  lemma {:induction false} SubnormalRoom(f: Format, g: Format, d: nat, scale: nat, sig: nat)
    requires Narrower(f, g) && d == f.Bias() - g.Bias() && scale <= g.p && sig < 2 * Pow2(f.p)
    ensures Lsh(d - scale, f.p) + sig < f.Inf() < f.SignBit() && Pow2(g.p) < g.Inf()
  {
    hide Lsh;
    InfFacts(g);
    InfFacts(f);
    BinadeFits(f, d - scale + 1, sig);
  }

  /** The exponent field all ones: the quiet bit moves to the top of the wide fraction, the payload
      below it keeps its place. */
  lemma {:induction false} WidenSpecial(f: Format, g: Format, abs: nat)
    requires Narrower(f, g) && g.Inf() <= abs < g.SignBit()
    ensures var quiet, code := And(abs, g.Quiet()), And(abs, g.Quiet() - 1);
      && Lsh(quiet, f.p - g.p) < f.SignBit()
      && WidensTo(f, g, abs, Or(Or(f.Inf(), Lsh(quiet, f.p - g.p)), code))
  {
    var s: nat := abs - g.Inf();
    var b, low := Shr(s, g.p - 1), Low(s, g.p - 1);
    InfFacts(g);
    SpecialFields(g, abs, s, g.p - 1, f.p - g.p);
    SpecialJoin(f, g, abs, b, low);
  }

  lemma {:induction false} SpecialJoin(f: Format, g: Format, abs: nat, b: nat, low: nat)
    requires Narrower(f, g) && b <= 1 && low < Pow2(g.p - 1)
    requires abs == g.Inf() + (if b == 1 then Pow2(g.p - 1) else 0) + low
    requires Shr(abs, g.p - 1) % 2 == b
    ensures var quiet := if b == 1 then Pow2(f.p - 1) else 0;
      quiet < f.SignBit() && WidensTo(f, g, abs, Or(Or(f.Inf(), quiet), low))
  {
    Pow2Mono(g.p - 1, f.p - 1);
    Pow2Mono(f.p - 1, f.p + f.eb);
    NaNJoin(f, f.p - 1, b, low);
  }

  /** The two pieces of the trailing field that the code moves. */
  lemma {:induction false} SpecialFields(g: Format, abs: nat, s: nat, k: nat, j: nat)
    requires g.p == k + 1 && abs == g.Inf() + s && s < Pow2(g.p)
    ensures Lsh(And(abs, Pow2(k)), j) == if Shr(s, k) == 1 then Pow2(k + j) else 0
    ensures And(abs, Pow2(k) - 1) == Low(s, k) < Pow2(k)
    ensures s == (if Shr(s, k) == 1 then Pow2(k) else 0) + Low(s, k)
    ensures Shr(abs, k) % 2 == Shr(s, k) <= 1
  {
    NaNSplit(g, s, k);
    BitTest(abs, k);
    AndMask(abs, k);
    LshZero(j);
    LshPow2(k, j);
  }

  lemma {:induction false} NaNSplit(g: Format, s: nat, k: nat)
    requires g.p == k + 1 && s < Pow2(g.p)
    ensures Shr(s, k) <= 1 && s == Lsh(Shr(s, k), k) + Low(s, k) && Low(s, k) < Pow2(k)
    ensures Lsh(0, k) == 0 && Lsh(1, k) == Pow2(k)
    ensures Shr(g.Inf() + s, k) % 2 == Shr(s, k) && Low(g.Inf() + s, k) == Low(s, k)
  {
    var m := g.MaxExponent();
    Split(s, k);
    LshZero(k);
    LshPow2(0, k);
    SplitSmall(s, k);
    LshLsh(m, 1, k);
    assert Lsh(m, 1) == 2 * m;
    LshSum(2 * m, Shr(s, k), k);
    SplitUnique(2 * m + Shr(s, k), Low(s, k), k);
  }

  lemma {:induction false} NaNJoin(f: Format, k: nat, b: nat, low: nat)
    requires f.Valid() && f.p == k + 1 && b <= 1 && low < Pow2(k)
    ensures var quiet := if b == 1 then Pow2(k) else 0;
      && Or(Or(f.Inf(), quiet), low) == f.Inf() + quiet + low < f.SignBit()
      && Shr(f.Inf() + quiet + low, k) % 2 == b
  {
    InfFacts(f);
    if b == 1 {
      NaNFields(f, k, low);
    } else {
      LowLess(f, k, low);
    }
  }

  lemma {:induction false} LowLess(f: Format, k: nat, low: nat)
    requires f.p == k + 1 && low < Pow2(k)
    ensures Or(Or(f.Inf(), 0), low) == f.Inf() + low
    ensures Shr(f.Inf() + low, k) % 2 == 0
  {
    OrFields(f.MaxExponent(), low, f.p);
    NaNSplit(f, low, k);
    SplitSmall(low, k);
    OrFields(f.MaxExponent(), 0, f.p);
  }

  // ----- __extendsfdf2

  lemma {:induction false} NormalTest(g: Format, abs: nat)
    requires g.Valid() && abs < g.SignBit()
    ensures g.Implicit() < g.Inf() < Pow2(g.Width())
    ensures WrapSub(g.Width(), abs, g.Implicit()) < WrapSub(g.Width(), g.Inf(), g.Implicit())
      <==> g.Implicit() <= abs < g.Inf()
  {
    InfFacts(g);
  }

  /** Clearing the leading bit by exclusive or. */
  lemma {:induction false} ClearLeading(x: nat, k: nat)
    requires Pow2(k) <= x < 2 * Pow2(k)
    ensures Xor(x, Pow2(k)) == x - Pow2(k)
  {
    var y := Xor(x, Pow2(k));
    SplitSmall(x, k);
    SplitSmall(Pow2(k), k);
    XorHigh(x, Pow2(k), k);
    XorLow(x, Pow2(k), k);
    XorZero(1, 1);
    Split(y, k);
    LshZero(k);
  }

  /** lib/extendsfdf2.c:118-127. */
  method ExtendSubnormal(f: Format, g: Format, aAbs: nat) returns (absResult: nat)
    requires Narrower(f, g) && 0 < aAbs < g.Implicit()
    ensures WidensTo(f, g, aAbs, absResult)
  {
    hide Lsh, Shr, Low, Or, And, Xor, WidensTo, Clz;
    SubnormalScale(g, aAbs);
    var scale := Clz(g.Width(), aAbs) - Clz(g.Width(), g.Implicit());
    absResult := ShiftLeft(f.Width(), aAbs, f.p - g.p + scale);
    WidenSubnormal(f, g, aAbs, scale, f.p - g.p);
    LeadingDigit(f, Lsh(aAbs, f.p - g.p + scale));
    absResult := Xor(absResult, f.Implicit());
    var resultExponent := f.Bias() - g.Bias() - scale + 1;
    FieldRoom(f, resultExponent);
    var field := ShiftLeft(f.Width(), resultExponent, f.p);
    OrFields(resultExponent, absResult, f.p);
    absResult := Or(absResult, field);
  }

  lemma {:induction false} SubnormalScale(g: Format, abs: nat)
    requires g.Valid() && 0 < abs < g.Implicit()
    ensures g.Implicit() < Pow2(g.Width())
    ensures var scale := Clz(g.Width(), abs) - Clz(g.Width(), g.Implicit());
      1 <= scale <= g.p && Pow2(g.p) <= Lsh(abs, scale) < 2 * Pow2(g.p)
  {
    Pow2Mono(g.p + 1, g.Width());
    BitLenUnique(g.Implicit(), g.p + 1);
    BitLenLe(abs, g.p);
    BitLenLe(abs, 0);
    Normalised(abs, g.p);
  }

  lemma {:induction false} LeadingDigit(f: Format, sig: nat)
    requires Pow2(f.p) <= sig < 2 * Pow2(f.p)
    ensures Low(sig, f.Width()) == sig && Xor(sig, f.Implicit()) == sig - Pow2(f.p)
  {
    Pow2Mono(f.p + 1, f.Width());
    SplitSmall(sig, f.Width());
    ClearLeading(sig, f.p);
  }

  /** lib/extendsfdf2.c:95-136. */
  method Extend(f: Format, g: Format, a: nat) returns (r: nat)
    requires Narrower(f, g) && a < Pow2(g.Width())
    ensures r < Pow2(f.Width())
    ensures IsWidened(f, g, a, r)
  {
    SignCases(g, a);
    InfFacts(g);
    var aAbs := And(a, g.SignBit() - 1);
    NormalTest(g, aAbs);
    var absResult;
    if WrapSub(g.Width(), aAbs, g.Implicit()) < WrapSub(g.Width(), g.Inf(), g.Implicit()) {
      // normal
      absResult := ExtendNormal(f, g, aAbs);
    } else if aAbs >= g.Inf() {
      // infinite or NaN
      absResult := ExtendSpecial(f, g, aAbs);
    } else if aAbs != 0 {
      absResult := ExtendSubnormal(f, g, aAbs);
    } else {
      ExtendZero(f, g);
      absResult := 0;
    }
    WidenedSign(f, g, a, absResult);
    var sign := ShiftLeft(f.Width(), And(a, g.SignBit()), f.Width() - g.Width());
    r := Or(absResult, sign);
  }

  lemma {:induction false} ExtendZero(f: Format, g: Format)
    requires Narrower(f, g)
    ensures WidensTo(f, g, 0, 0)
  {
    InfFacts(f);
    InfFacts(g);
    LowZero(f.p);
    LowZero(g.p);
    LshZero(QuantumGap(f, g));
  }

  /** lib/extendsfdf2.c:100-106. */
  method ExtendNormal(f: Format, g: Format, aAbs: nat) returns (absResult: nat)
    requires Narrower(f, g) && g.Implicit() <= aAbs < g.Inf()
    ensures WidensTo(f, g, aAbs, absResult)
  {
    hide Lsh, Shr, Low, Or, And, Xor;
    WidenNormal(f, g, aAbs, f.p - g.p);
    SplitSmall(Lsh(aAbs, f.p - g.p), f.Width());
    absResult := ShiftLeft(f.Width(), aAbs, f.p - g.p);
    FieldRoom(f, f.Bias() - g.Bias());
    var rebias := ShiftLeft(f.Width(), f.Bias() - g.Bias(), f.p);
    absResult := absResult + rebias;
  }

  /** lib/extendsfdf2.c:108-116. */
  method ExtendSpecial(f: Format, g: Format, aAbs: nat) returns (absResult: nat)
    requires Narrower(f, g) && g.Inf() <= aAbs < g.SignBit()
    ensures WidensTo(f, g, aAbs, absResult)
  {
    WidenSpecial(f, g, aAbs);
    absResult := f.Inf();
    SplitSmall(Lsh(And(aAbs, g.Quiet()), f.p - g.p), f.Width());
    var quiet := ShiftLeft(f.Width(), And(aAbs, g.Quiet()), f.p - g.p);
    absResult := Or(absResult, quiet);
    absResult := Or(absResult, And(aAbs, g.Quiet() - 1));
  }

  lemma {:induction false} WidenedSign(f: Format, g: Format, a: nat, abs: nat)
    requires Narrower(f, g) && a < Pow2(g.Width()) && WidensTo(f, g, Abs(g, a), abs)
    ensures var r := Or(abs, Low(Lsh(And(a, g.SignBit()), f.Width() - g.Width()), f.Width()));
      r < Pow2(f.Width()) && IsWidened(f, g, a, r)
  {
    hide Lsh, Shr, Low, Val, Or, And, IsWidened, WidensTo, Abs;
    var k := f.Width() - g.Width();
    var sign := if Negative(g, a) then f.SignBit() else 0;
    SignCases(g, a);
    LshZero(k);
    LshPow2(g.p + g.eb, k);
    SplitSmall(sign, f.Width());
    NarrowSide(f, g, a, abs);
    SignJoin(f, sign, abs);
    WidenedFields(f, g, a, abs, sign, sign + abs);
  }

  lemma {:induction false} NarrowSide(f: Format, g: Format, a: nat, abs: nat)
    requires Narrower(f, g) && WidensTo(f, g, Abs(g, a), abs)
    ensures abs < f.SignBit()
  {
  }

  lemma {:induction false} WidenedFields(f: Format, g: Format, a: nat, abs: nat, sign: nat, r: nat)
    requires Narrower(f, g) && a < Pow2(g.Width()) && WidensTo(f, g, Abs(g, a), abs)
    requires sign == (if Negative(g, a) then f.SignBit() else 0) && r == sign + abs
    requires Abs(f, r) == abs && (Negative(f, r) <==> sign != 0)
    ensures IsWidened(f, g, a, r)
  {
    hide Lsh, Shr, Low, Val;
    QuietDigits(f, g, a, sign, abs);
  }

  lemma {:induction false} QuietDigits(f: Format, g: Format, a: nat, sign: nat, abs: nat)
    requires Narrower(f, g) && a < Pow2(g.Width()) && (sign == 0 || sign == f.SignBit())
    ensures Shr(sign + abs, f.p - 1) % 2 == Shr(abs, f.p - 1) % 2
    ensures Shr(a, g.p - 1) % 2 == Shr(Abs(g, a), g.p - 1) % 2
  {
    SignCases(g, a);
    HighDigit(f, sign, abs);
    HighDigit(g, if Negative(g, a) then g.SignBit() else 0, Abs(g, a));
  }

  /** __extendsfdf2. */
  method Extendsfdf2(a: nat) returns (r: nat)
    requires a < Pow2(32)
    ensures r < Pow2(64)
    ensures (DoubleSingle(); IsWidened(Double(), Single(), a, r))
  {
    DoubleSingle();
    r := Extend(Double(), Single(), a);
  }

  /** Converting a float to double and back gives the same float, NaNs apart. */
  method RoundTrip(a: nat) returns (r: nat)
    requires a < Pow2(32)
    ensures !IsNaN(Single(), a) ==> r == a
  {
    DoubleSingle();
    var wide := Extendsfdf2(a);
    r := Truncdfsf2(wide);
    WideMagnitude(Double(), Single(), a, wide);
    if !IsNaN(Single(), a) {
      WidenThenNarrow(Double(), Single(), a, wide, r);
    }
  }
}
