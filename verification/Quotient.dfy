/** Rounding a quotient from its integer part and its residual.

The division routines hold q and r with a = q * b + r, where q may be one too small: all that is
known is 0 < r < 3/2 b.  This module says what each way of rounding from q and r delivers. */
module Quotient {
  import opened Bits
  import opened Floats
  import opened Rounding
  import opened SoftFloat
  import opened WideWords

  ghost predicate QuotientAt(f: Format, q: nat, r: nat, a: nat, b: nat)
  {
    && a == q * b + r && 0 < r && 2 * r < 3 * b
    && Pow2(f.p) <= q < 2 * Pow2(f.p)
  }

  // ----- Ratios

  /** Rounding depends on the ratio only. */
  lemma {:induction false} NearestRatio(f: Format, abs: nat, n: nat, d: nat, n2: nat, d2: nat)
    requires d > 0 && d2 > 0 && n * d2 == n2 * d
    ensures Nearest(f, abs, n, d) <==> Nearest(f, abs, n2, d2)
  {
    if Nearest(f, abs, n, d) { NearestRatioOneWay(f, abs, n, d, n2, d2); }
    if Nearest(f, abs, n2, d2) { NearestRatioOneWay(f, abs, n2, d2, n, d); }
  }

  lemma {:induction false} NearestRatioOneWay(f: Format, abs: nat, n: nat, d: nat, n2: nat, d2: nat)
    requires d > 0 && d2 > 0 && n * d2 == n2 * d
    requires Nearest(f, abs, n, d)
    ensures Nearest(f, abs, n2, d2)
  {
    forall s: nat | Encoding(f, s) && s != abs
      ensures Distance(Val(f, abs) * d2, n2) < Distance(Val(f, s) * d2, n2)
        || (Distance(Val(f, abs) * d2, n2) == Distance(Val(f, s) * d2, n2) && abs % 2 == 0)
    {
      CompareDistances(Val(f, abs), Val(f, s), n, d, n2, d2);
    }
  }

  lemma {:induction false} CompareDistances(v: nat, w: nat, n: nat, d: nat, n2: nat, d2: nat)
    requires d > 0 && d2 > 0 && n * d2 == n2 * d
    ensures Distance(v * d, n) < Distance(w * d, n) <==> Distance(v * d2, n2) < Distance(w * d2, n2)
    ensures Distance(v * d, n) == Distance(w * d, n) <==> Distance(v * d2, n2) == Distance(w * d2, n2)
  {
    ScaleDistance(v, n, d, n2, d2);
    ScaleDistance(w, n, d, n2, d2);
    var x, y := Distance(v * d, n), Distance(w * d, n);
    var x2, y2 := Distance(v * d2, n2), Distance(w * d2, n2);
    MulLe(x, y, d2);
    MulLe(x2, y2, d);
    MulLe(y, x, d2);
    MulLe(y2, x2, d);
  }

  lemma {:induction false} ScaleDistance(v: nat, n: nat, d: nat, n2: nat, d2: nat)
    requires n * d2 == n2 * d
    ensures Distance(v * d, n) * d2 == Distance(v * d2, n2) * d
  {
    var e, e2 := v * d - n, v * d2 - n2;
    Distrib(e, n, d2);
    Distrib(e2, n2, d);
    MulAssoc(v, d, d2);
    MulAssoc(v, d2, d);
    MulComm(d, d2);
    assert e * d2 == e2 * d;
    ScaleAbs(e, d2, e2, d);
  }

  lemma {:induction false} ScaleAbs(e: int, d2: nat, e2: int, d: nat)
    requires e * d2 == e2 * d
    ensures (if e < 0 then -e else e) * d2 == (if e2 < 0 then -e2 else e2) * d
  {
    MulLe(0, e, d2);
    MulLe(e, 0, d2);
    MulLe(0, e2, d);
    MulLe(e2, 0, d);
    Distrib(-e, e, d2);
    Distrib(-e2, e2, d);
  }

  // ----- No ties among normal quotients

  /** An odd factor leaves all the twos to the other one. */
  lemma {:induction false} OddFactor(k: nat, b: nat, n: nat, t: nat)
    requires k % 2 == 1 && b > 0 && k * b == Lsh(n, t)
    ensures b >= Pow2(t)
  {
    if t > 0 {
      var h := Lsh(n, t - 1);
      assert k * b == 2 * h;
      OddTimes(k, b);
      MulSwap(k, 2, b / 2);
      assert k * (b / 2) == h;
      MulComm(b / 2, k);
      OddFactor(k, b / 2, n, t - 1);
    }
  }

  lemma {:induction false} OddTimes(k: nat, b: nat)
    requires k % 2 == 1
    ensures k * b % 2 == b % 2
  {
    var j := k / 2;
    Distrib(2 * j, 1, b);
    MulAssoc(2, j, b);
    assert k * b == 2 * (j * b) + b;
  }

  /** lib/divsf3.c:195: the exact halfway case cannot occur. */
  lemma {:induction false} NoHalfway(f: Format, q: nat, r: nat, sa: nat, t: nat, b: nat)
    requires QuotientAt(f, q, r, Lsh(sa, t), b) && t >= f.p && b < 2 * Pow2(f.p)
    ensures 2 * r != b
  {
    if 2 * r == b {
      Distrib(2 * q, 1, b);
      MulAssoc(2, q, b);
      assert Lsh(sa, t + 1) == 2 * Lsh(sa, t);
      OddFactor(2 * q + 1, b, sa, t + 1);
      Pow2Mono(f.p + 1, t + 1);
    }
  }

  // ----- A normal quotient

  /** The quotient shifted up to its binade, as multiples of the divisor. */
  lemma {:induction false} ShiftedQuotient(q: nat, r: nat, a: nat, b: nat, e: nat)
    requires a == q * b + r
    ensures Lsh(a, e) == Lsh(q, e) * b + Lsh(r, e)
    ensures Lsh(q + 1, e) * b == Lsh(q, e) * b + Lsh(b, e)
  {
    LshSum(q * b, r, e);
    LshMul(q, e, b, 0);
    LshMul(q + 1, e, b, 0);
    Distrib(q, 1, b);
    LshSum(q * b, b, e);
  }

  /** lib/divsf3.c:194-203: the quotient rounds up exactly when twice the residual exceeds the
      divisor, even when the quotient was one too small. */
  lemma {:induction false} NormalQuotient(f: Format, e: nat, q: nat, r: nat, sa: nat, t: nat, b: nat)
    requires f.Valid() && 1 <= e < f.MaxExponent()
    requires QuotientAt(f, q, r, Lsh(sa, t), b) && t >= f.p && b < 2 * Pow2(f.p)
    ensures Nearest(f, Lsh(e - 1, f.p) + q + (if 2 * r > b then 1 else 0), Lsh(sa, t + e - 1), b)
  {
    hide Lsh, Val, Pow2, Nearest;
    var a, k: nat := Lsh(sa, t), e - 1;
    LshLsh(sa, t, k);
    ShiftedQuotient(q, r, a, b, k);
    NoHalfway(f, q, r, sa, t, b);
    Binades(f, k, 2);
    LshMono(k + 2, f.MaxExponent(), f.p);
    if r < b {
      LshMono(r, b, k);
      LshSum(r, r, k);
      LshMono(r + r, b, k);
      LshMono(b, r + r, k);
      NearestInBinade(f, k, q, Lsh(a, k), b);
      TieEvenAgrees(Lsh(k, f.p) + q, 2 * r, b, 2 * Lsh(a, k), Lsh(q, k) * b + Lsh(q + 1, k) * b);
    } else {
      OneTooSmall(f, k, q, r, a, b);
    }
  }

  /** A residual of b or more: the exact quotient is between q + 1 and q + 3/2. */
  lemma {:induction false} OneTooSmall(f: Format, k: nat, q: nat, r: nat, a: nat, b: nat)
    requires f.Valid() && QuotientAt(f, q, r, a, b) && r >= b
    requires Lsh(k, f.p) + q < f.Inf()
    ensures Nearest(f, Lsh(k, f.p) + q + 1, Lsh(a, k), b)
  {
    hide Lsh, Val, Pow2, Nearest;
    var r0 := Lsh(k, f.p) + q + 1;
    ShiftedQuotient(q, r, a, b, k);
    LshMono(b, r, k);
    ValPack(f, k, q + 1);
    if r0 == f.Inf() {
      NearestInf(f, Lsh(a, k), b);
    } else {
      ValGap(f, k, q + 1);
      LshSum(r, r, k);
      LshSum(b, b, k);
      LshSum(b + b, b, k);
      LshMono(r + r, b + b + b, k);
      LshTimes(b, k);
      MulLe(Val(f, r0) + Pow2(k), Val(f, r0 + 1), b);
      Distrib(Val(f, r0), Pow2(k), b);
      MulComm(Pow2(k), b);
      NearestBelow(f, r0, Lsh(a, k), b);
    }
  }

  lemma {:induction false} ValGap(f: Format, e: nat, sig: nat)
    requires Pow2(f.p) <= sig <= 2 * Pow2(f.p)
    ensures Val(f, Lsh(e, f.p) + sig + 1) >= Lsh(sig, e) + Pow2(e)
  {
    LshSum(sig, 1, e);
    LshPow2(0, e);
    if sig < 2 * Pow2(f.p) {
      ValPack(f, e, sig + 1);
    } else {
      Binades(f, e, 1);
      ValPack(f, e + 1, Pow2(f.p) + 1);
      LshSum(Pow2(f.p) + 1, Pow2(f.p) + 1, e);
      LshSum(sig + 1, 1, e);
    }
  }

  /** A quotient at or above 2^(emax+1). */
  lemma {:induction false} OverflowQuotient(f: Format, e: nat, q: nat, r: nat, sa: nat, t: nat, b: nat)
    requires f.Valid() && e >= f.MaxExponent()
    requires QuotientAt(f, q, r, Lsh(sa, t), b)
    ensures Nearest(f, f.Inf(), Lsh(sa, t + e - 1), b)
  {
    InfFacts(f);
    LshLsh(sa, t, e - 1);
    ShiftedQuotient(q, r, Lsh(sa, t), b, e - 1);
    LshMono(Pow2(f.p), q, e - 1);
    LshPow2(f.p, e - 1);
    Pow2Mono(f.p + f.MaxExponent() - 1, f.p + e - 1);
    MulLe(Val(f, f.Inf()), Lsh(q, e - 1), b);
    NearestInf(f, Lsh(sa, t + e - 1), b);
  }

  // ----- A subnormal quotient

  /** What rounding q + r/b, shifted right by s, to an integer has to deliver. */
  function RoundedShift(q: nat, r: nat, b: nat, s: nat): nat
    requires s >= 1
  {
    var k, g, h := Shr(q, s), Low(q, s), Pow2(s - 1);
    if g >= h then k + 1
    else if g + 1 == h && r > b then k + 1
    else if g + 1 == h && r == b then k + k % 2
    else k
  }

  /** What the source delivers: it treats the residual as a fraction below one. */
  function TruncatedShift(q: nat, s: nat): nat
    requires s >= 1
  {
    Shr(q, s) + (if Low(q, s) >= Pow2(s - 1) then 1 else 0)
  }

  /** Exactly the operands that the subnormal branch rounds wrongly: the quotient was one too small
      (its residual is at least the divisor), and one more lands on or passes a rounding boundary. */
  predicate Misrounds(q: nat, r: nat, b: nat, s: nat)
    requires s >= 1
  {
    r >= b && Low(q, s) + 1 == Pow2(s - 1) && (r > b || Shr(q, s) % 2 == 1)
  }

  lemma {:induction false} MisroundsExactly(q: nat, r: nat, b: nat, s: nat)
    requires s >= 1
    ensures TruncatedShift(q, s) == RoundedShift(q, r, b, s) <==> !Misrounds(q, r, b, s)
  {
  }

  // ----- The same in terms of the operands

  /** The true integer quotient ends one half above a multiple of 2^s, which is where rounding turns: exactly,
      with an odd multiple, or by less than half a unit more. */
  predicate AtBoundary(a: nat, b: nat, s: nat)
    requires s >= 1 && b > 0
  {
    Low(a / b, s) == Pow2(s - 1) && 2 * (a % b) < b && (a % b > 0 || Shr(a / b, s) % 2 == 1)
  }

  lemma {:induction false} TrueQuotient(f: Format, q: nat, r: nat, a: nat, b: nat)
    requires QuotientAt(f, q, r, a, b)
    ensures b > 0 && a / b == (if r >= b then q + 1 else q) && a % b == (if r >= b then r - b else r)
  {
    Distrib(q, 1, b);
    DivModUnique(a, b, if r >= b then q + 1 else q, if r >= b then r - b else r);
  }

  /** A quotient is misrounded exactly when it is one too small at a rounding boundary. */
  lemma {:induction false} MisroundsAtBoundary(f: Format, q: nat, r: nat, a: nat, b: nat, s: nat)
    requires s >= 1 && QuotientAt(f, q, r, a, b)
    ensures b > 0 && (Misrounds(q, r, b, s) <==> q < a / b && AtBoundary(a, b, s))
  {
    TrueQuotient(f, q, r, a, b);
    if r >= b { OneMore(q, s); }
  }

  lemma {:induction false} OneMore(q: nat, s: nat)
    requires s >= 1
    ensures Low(q, s) + 1 == Pow2(s - 1) <==> Low(q + 1, s) == Pow2(s - 1)
    ensures Low(q, s) + 1 == Pow2(s - 1) ==> Shr(q + 1, s) == Shr(q, s)
  {
    Split(q, s);
    Split(q + 1, s);
    if Low(q, s) + 1 < Pow2(s) {
      SplitUnique(Shr(q, s), Low(q, s) + 1, s);
    } else {
      LshSum(Shr(q, s), 1, s);
      LshPow2(0, s);
      SplitUnique(Shr(q, s) + 1, 0, s);
    }
  }

  /** An exact quotient is always computed one too small, so there the operands decide alone. */
  lemma {:induction false} ExactQuotients(f: Format, q: nat, r: nat, a: nat, b: nat, s: nat)
    requires s >= 1 && QuotientAt(f, q, r, a, b) && b > 0 && a % b == 0
    ensures q + 1 == a / b
    ensures Misrounds(q, r, b, s) <==> Low(a / b, s) == Pow2(s - 1) && Shr(a / b, s) % 2 == 1
  {
    TrueQuotient(f, q, r, a, b);
    MisroundsAtBoundary(f, q, r, a, b, s);
  }

  /** The comparison of the significands tells how far the dividend was shifted. */
  lemma {:induction false} ShiftKnown(f: Format, q: nat, r: nat, sa: nat, t: nat, b: nat)
    requires QuotientAt(f, q, r, Lsh(sa, t), b) && (t == f.p || t == f.p + 1) && b < 2 * Pow2(f.p)
    ensures t == if sa <= b then f.p + 1 else f.p
  {
    var m := Pow2(f.p);
    LshTimes(sa, t);
    assert Pow2(f.p + 1) == 2 * m;
    if t == f.p {
      MulLe(m, q, b);
      if sa <= b {
        MulLe(sa, b, m);
        MulComm(b, m);
      }
    } else if sa > b {
      MulComm(b, 2 * m);
      Distrib(b, 1, 2 * m);
      Distrib(q, 1, b);
      MulLe(b + 1, sa, 2 * m);
      MulLe(q + 1, 2 * m, b);
    }
  }

  /** q * b + r, as a multiple of b shifted by s, and the remainder. */
  lemma {:induction false} SplitQuotient(q: nat, r: nat, a: nat, b: nat, s: nat)
    requires a == q * b + r && s >= 1
    ensures a == Shr(q, s) * Lsh(b, s) + (Low(q, s) * b + r)
    ensures Lsh(b, s) == 2 * (Pow2(s - 1) * b)
    ensures (Shr(q, s) + 1) * Lsh(b, s) == Shr(q, s) * Lsh(b, s) + Lsh(b, s)
  {
    Split(q, s);
    Distrib(Lsh(Shr(q, s), s), Low(q, s), b);
    LshMul(Shr(q, s), s, b, 0);
    LshMul(Shr(q, s), 0, b, s);
    LshTimes(b, s - 1);
    MulComm(b, Pow2(s - 1));
    Distrib(Shr(q, s), 1, Lsh(b, s));
  }

  /** The subnormal result that the standard asks for. */
  lemma {:induction false} SubnormalQuotient(f: Format, q: nat, r: nat, a: nat, b: nat, s: nat)
    requires f.Valid() && s >= 1 && b > 0 && QuotientAt(f, q, r, a, b)
    ensures Nearest(f, RoundedShift(q, r, b, s), a, Lsh(b, s))
  {
    var k, g, h := Shr(q, s), Low(q, s), Pow2(s - 1);
    assert b > 0;
    LshGe(b, s);
    ShrHalf(q, s, f.p);
    SplitQuotient(q, r, a, b, s);
    assert g < 2 * h by { Split(q, s); }
    RemainderSize(g, r, b, h);
    NearestSmall(f, k, g * b + r, a, Lsh(b, s));
    RoundedRemainder(k, g, r, b, h, g * b + r, h * b);
  }

  /** A value of k quanta and a fraction of up to one half more. */
  lemma {:induction false} NearestSmall(f: Format, k: nat, rem: nat, a: nat, d: nat)
    requires f.Valid() && k < Pow2(f.p) && d > 0 && a == k * d + rem && 2 * rem < 3 * d
    ensures Nearest(f, if rem <= d then TieEven(k, 2 * rem, d) else k + 1, a, d)
  {
    InfFacts(f);
    LshZero(f.p);
    ValPack(f, 0, k);
    ValPack(f, 0, k + 1);
    Distrib(k, 1, d);
    if rem <= d {
      NearestBetween(f, k, a, d, k * d + (k + 1) * d);
      TieEvenAgrees(k, 2 * rem, d, 2 * a, k * d + (k + 1) * d);
    } else {
      ValPack(f, 0, k + 2);
      Distrib(k + 1, 1, d);
      NearestBelow(f, k + 1, a, d);
    }
  }

  lemma {:induction false} RoundedRemainder(k: nat, g: nat, r: nat, b: nat, h: nat, rem: nat, half: nat)
    requires g >= h ==> rem > half
    requires g + 1 == h ==> rem - r + b == half
    requires g + 1 < h ==> rem < half
    requires r <= rem
    ensures (if rem <= 2 * half then TieEven(k, 2 * rem, 2 * half) else k + 1)
         == if g >= h then k + 1
            else if g + 1 == h && r > b then k + 1
            else if g + 1 == h && r == b then k + k % 2
            else k
  {
  }

  /** The remainder g * b + r against h * b, where g < 2 h and r is below three halves of b. */
  lemma {:induction false} RemainderSize(g: nat, r: nat, b: nat, h: nat)
    requires 0 < r && 2 * r < 3 * b && g < 2 * h
    ensures g >= h ==> g * b + r > h * b
    ensures g + 1 == h ==> g * b + b == h * b
    ensures g + 1 < h ==> g * b + r < h * b
    ensures 2 * (g * b + r) < 4 * (h * b) + b
    ensures b <= h * b && r <= g * b + r
  {
    MulLe(0, g, b);
    MulLe(h, g, b);
    Distrib(g, 1, b);
    Distrib(g, 2, b);
    MulLe(g + 2, h, b);
    MulLe(g + 1, 2 * h, b);
    MulAssoc(2, h, b);
    MulLe(1, h, b);
  }

  /** lib/divsf3.c:182-188: the two words shifted right, and the rounding on the low one. */
  lemma {:induction false} SubnormalCode(w: nat, q: nat, r: nat, s: nat, hi: nat, lo: nat)
    requires 1 <= s < w && 0 < r < Pow2(w)
    requires Lsh(hi, w) + lo == ShiftSticky(Lsh(q, w) + r, s) && lo < Pow2(w)
    ensures TieEven(hi, lo, Pow2(w - 1)) == TruncatedShift(q, s)
  {
    hide Lsh, Shr, Low, Or, Pow2;
    var k, mid := Shr(q, s), Lsh(Low(q, s), w - s) + Shr(r, s);
    WideSplit(w, q, r, s);
    StickyLow(w, k, mid, Low(r, s) != 0);
    SplitUnique(hi, lo, w);
    SplitUnique(k, Or(mid, Bool(Low(r, s) != 0)), w);
    assert hi == k && lo == Or(mid, Bool(Low(r, s) != 0));
    StickyHalves(w, q, r, s);
  }

  /** The low word against one half: no tie, because the residual is not zero. */
  lemma {:induction false} StickyHalves(w: nat, q: nat, r: nat, s: nat)
    requires 1 <= s < w && 0 < r < Pow2(w)
    ensures var lo := Or(Lsh(Low(q, s), w - s) + Shr(r, s), Bool(Low(r, s) != 0));
      if Low(q, s) >= Pow2(s - 1) then lo > Pow2(w - 1) else lo < Pow2(w - 1)
  {
    hide Shr, Or;
    var g, h, j := Low(q, s), Pow2(s - 1), w - s;
    var mid := Lsh(g, j) + Shr(r, s);
    OrBool(mid, Low(r, s) != 0);
    LshPow2(s - 1, j);
    LshMono(h, g, j);
    LshMono(g, h, j);
    LshEven(g, j);
    LowParity(0, w - 1);
    LshPow2(j, s);
    ShrLt(r, s, Pow2(j));
    Split(r, s);
    LshZero(s);
  }
}
