/** The double-word helpers of lib/fp_lib.h. */
module WideWords {
  import opened Bits
  import opened Floats
  import opened Rounding
  import opened SoftFloat

  /** fp_lib.h:43-47: one wide multiplication. */
  method WideMultiplyDirect(w: nat, a: nat, b: nat) returns (hi: nat, lo: nat)
    requires a < Pow2(w) && b < Pow2(w)
    ensures Lsh(hi, w) + lo == a * b && hi < Pow2(w) && lo < Pow2(w)
  {
    var product := a * b;
    hi := Shr(product, w);
    lo := Low(product, w);
    Split(product, w);
    ProductBound(a, b, w);
  }

  lemma {:induction false} ProductBound(a: nat, b: nat, w: nat)
    requires a < Pow2(w) && b < Pow2(w)
    ensures a * b < Pow2(w + w) && Shr(a * b, w) < Pow2(w)
  {
    MulLe(a, Pow2(w), b);
    MulLe(b, Pow2(w), Pow2(w));
    LshPow2(w, w);
    LshTimes(Pow2(w), w);
    ShrLt(a * b, w, Pow2(w));
  }

  /** loWord() and hiWord() of fp_lib.h, for words of 2h bits. */
  method Halve(h: nat, x: nat) returns (low: nat, high: nat)
    ensures low == Low(x, h) && high == Shr(x, h)
  {
    low := And(x, Pow2(h) - 1);
    AndMask(x, h);
    high := Shr(x, h);
  }

  /** fp_lib.h:74-86: the product of two words of 2h bits from four products of half words. */
  method WideMultiplyHalves(h: nat, a: nat, b: nat) returns (hi: nat, lo: nat)
    requires h >= 2 && a < Pow2(h + h) && b < Pow2(h + h)
    ensures Lsh(hi, h + h) + lo == a * b && hi < Pow2(h + h) && lo < Pow2(h + h)
  {
    var al, ah := Halve(h, a);
    var bl, bh := Halve(h, b);
    var plolo := al * bl;
    var plohi := al * bh;
    var philo := ah * bl;
    var phihi := ah * bh;
    hi, lo := SumHalves(h, plolo, plohi, philo, phihi);
    HalvesSum(h, a, b);
    HighBound(h, a, b, hi, lo);
  }

  /** Adds the four products, each in its place. */
  method SumHalves(h: nat, plolo: nat, plohi: nat, philo: nat, phihi: nat) returns (hi: nat, lo: nat)
    requires h >= 2
    ensures lo < Pow2(h + h)
    ensures Lsh(hi, h + h) + lo == Lsh(phihi, h + h) + Lsh(philo, h) + Lsh(plohi, h) + plolo
  {
    // r1 collects what lies across the middle, carry included
    var r0, c0 := Halve(h, plolo);
    var m1, c1 := Halve(h, plohi);
    var m2, c2 := Halve(h, philo);
    var r1 := c0 + m1 + m2;
    var shifted := ShiftLeft(h + h, r1, h);
    Split(plolo, h);
    HalvesLow(h, r0, r1);
    lo := r0 + shifted;
    var _, c3 := Halve(h, r1);
    hi := c1 + c2 + c3 + phihi;
    CollectMiddle(h, plolo, plohi, philo, phihi, r1);
  }

  /** `r0 + (r1 << h)` never wraps: the shift drops the carries. */
  lemma {:induction false} HalvesLow(h: nat, r0: nat, r1: nat)
    requires r0 < Pow2(h)
    ensures Low(Lsh(r1, h), h + h) == Lsh(Low(r1, h), h)
    ensures r0 + Lsh(Low(r1, h), h) < Pow2(h + h)
  {
    LowLsh(r1, h, h + h);
    Split(r1, h);
    LshPow2(h, h);
    LshMono(Low(r1, h), Pow2(h), h);
  }

  lemma {:induction false} HalvesSum(h: nat, a: nat, b: nat)
    ensures a * b == Lsh(Shr(a, h) * Shr(b, h), h + h) + Lsh(Shr(a, h) * Low(b, h), h)
                   + Lsh(Low(a, h) * Shr(b, h), h) + Low(a, h) * Low(b, h)
  {
    var al, ah, bl, bh := Low(a, h), Shr(a, h), Low(b, h), Shr(b, h);
    Split(a, h);
    Split(b, h);
    Distrib(Lsh(ah, h), al, b);
    CrossTerm(ah, bh, bl, b, h);
    CrossTerm2(al, bh, bl, b, h);
  }

  lemma {:induction false} CrossTerm(ah: nat, bh: nat, bl: nat, b: nat, h: nat)
    requires b == Lsh(bh, h) + bl
    ensures Lsh(ah, h) * b == Lsh(ah * bh, h + h) + Lsh(ah * bl, h)
  {
    Distrib(Lsh(bh, h), bl, Lsh(ah, h));
    LshMul(ah, h, bh, h);
    LshMul(ah, h, bl, 0);
  }

  lemma {:induction false} CrossTerm2(al: nat, bh: nat, bl: nat, b: nat, h: nat)
    requires b == Lsh(bh, h) + bl
    ensures al * b == Lsh(al * bh, h) + al * bl
  {
    Distrib(Lsh(bh, h), bl, al);
    LshMul(al, 0, bh, h);
  }

  lemma {:induction false} CollectMiddle(h: nat, plolo: nat, plohi: nat, philo: nat, phihi: nat, r1: nat)
    requires r1 == Shr(plolo, h) + Low(plohi, h) + Low(philo, h)
    ensures Lsh(phihi, h + h) + Lsh(philo, h) + Lsh(plohi, h) + plolo
         == Lsh(Shr(plohi, h) + Shr(philo, h) + Shr(r1, h) + phihi, h + h) + Lsh(Low(r1, h), h) + Low(plolo, h)
  {
    Split(plolo, h);
    SplitShifted(plohi, h);
    SplitShifted(philo, h);
    SplitShifted(r1, h);
    LshSum(Shr(plolo, h) + Low(plohi, h), Low(philo, h), h);
    LshSum(Shr(plolo, h), Low(plohi, h), h);
    LshSum(Shr(plohi, h) + Shr(philo, h) + Shr(r1, h), phihi, h + h);
    LshSum(Shr(plohi, h) + Shr(philo, h), Shr(r1, h), h + h);
    LshSum(Shr(plohi, h), Shr(philo, h), h + h);
  }

  lemma {:induction false} SplitShifted(x: nat, h: nat)
    ensures Lsh(x, h) == Lsh(Shr(x, h), h + h) + Lsh(Low(x, h), h)
  {
    Split(x, h);
    LshSum(Lsh(Shr(x, h), h), Low(x, h), h);
    LshLsh(Shr(x, h), h, h);
  }

  lemma {:induction false} HighBound(h: nat, a: nat, b: nat, hi: nat, lo: nat)
    requires a < Pow2(h + h) && b < Pow2(h + h) && a * b == Lsh(hi, h + h) + lo && lo < Pow2(h + h)
    ensures hi < Pow2(h + h)
  {
    ProductBound(a, b, h + h);
    SplitUnique(hi, lo, h + h);
  }

  /** wideMultiply(): fp_lib.h has one version for each precision. */
  method WideMultiply(f: Format, a: nat, b: nat) returns (hi: nat, lo: nat)
    requires f.Valid() && f.Width() % 2 == 0 && a < Pow2(f.Width()) && b < Pow2(f.Width())
    ensures Lsh(hi, f.Width()) + lo == a * b && hi < Pow2(f.Width()) && lo < Pow2(f.Width())
  {
    if f == Single() {
      hi, lo := WideMultiplyDirect(f.Width(), a, b);
    } else {
      var h := f.Width() / 2;
      assert h + h == f.Width();
      hi, lo := WideMultiplyHalves(h, a, b);
    }
  }

  /** wideLeftShift() by one place, of a double word with room for it. */
  method WideLeftShift(w: nat, hi0: nat, lo0: nat, count: nat) returns (hi: nat, lo: nat)
    requires 1 <= count < w && lo0 < Pow2(w) && Lsh(hi0, count) + Pow2(count) <= Pow2(w)
    ensures Lsh(hi, w) + lo == Lsh(Lsh(hi0, w) + lo0, count) && hi < Pow2(w) && lo < Pow2(w)
  {
    var up := ShiftLeft(w, hi0, count);
    var down := ShiftRight(w, lo0, w - count);
    hi := Or(up, down);
    lo := ShiftLeft(w, lo0, count);
    WideLeft(w, hi0, lo0, count);
  }

  lemma {:induction false} WideLeft(w: nat, hi0: nat, lo0: nat, count: nat)
    requires 1 <= count < w && lo0 < Pow2(w) && Lsh(hi0, count) + Pow2(count) <= Pow2(w)
    ensures var hi := Or(Low(Lsh(hi0, count), w), Shr(lo0, w - count));
      hi < Pow2(w) && Lsh(hi, w) + Low(Lsh(lo0, count), w) == Lsh(Lsh(hi0, w) + lo0, count)
  {
    hide Lsh, Shr, Low;
    var out := Shr(lo0, w - count);
    SplitSmall(Lsh(hi0, count), w);
    LshPow2(count, w - count);
    ShrLt(lo0, w - count, Pow2(count));
    OrFields(hi0, out, count);
    LowLsh(lo0, count, w);
    Split(lo0, w - count);
    LshSum(Lsh(out, w - count), Low(lo0, w - count), count);
    LshLsh(out, w - count, count);
    LshSum(Lsh(hi0, w), lo0, count);
    LshLsh(hi0, w, count);
    LshLsh(hi0, count, w);
    LshSum(Lsh(hi0, count), out, w);
  }

  /** wideRightShiftWithSticky().  At count == w the source shifts hi by the full width, so whether
      the sticky bit is set is left open there; everywhere else the result is exact. */
  method WideRightShiftWithSticky(w: nat, hi0: nat, lo0: nat, count: nat) returns (hi: nat, lo: nat)
    requires w >= 1 && count >= 1 && hi0 < Pow2(w) && lo0 < Pow2(w)
    ensures count != w ==> Lsh(hi, w) + lo == ShiftSticky(Lsh(hi0, w) + lo0, count) && lo < Pow2(w)
    ensures count == w ==> hi == 0 && (lo == hi0 || lo == Or(hi0, 1))
  {
    if count < w {
      var out := ShiftLeft(w, lo0, w - count);
      var sticky := out != 0;
      var across := ShiftLeft(w, hi0, w - count);
      var down := ShiftRight(w, lo0, count);
      lo := Or(Or(across, down), Bool(sticky));
      hi := ShiftRight(w, hi0, count);
      WideShiftShort(w, hi0, lo0, count);
    } else if count < 2 * w {
      var out := ShiftLeft(w, hi0, 2 * w - count);
      var sticky := Or(out, lo0) != 0;
      var down := ShiftRight(w, hi0, count - w);
      lo := Or(down, Bool(sticky));
      hi := 0;
      if count > w {
        WideShiftLong(w, hi0, lo0, count);
      } else {
        OrBool(hi0, true);
        OrBool(hi0, false);
      }
    } else {
      var sticky := Or(hi0, lo0) != 0;
      lo := Bool(sticky);
      hi := 0;
      WideShiftAll(w, hi0, lo0, count);
    }
  }

  lemma {:induction false} WideShiftShort(w: nat, hi0: nat, lo0: nat, count: nat)
    requires 1 <= count < w && lo0 < Pow2(w)
    ensures var lo := Or(Or(Low(Lsh(hi0, w - count), w), Shr(lo0, count)), Bool(Low(Lsh(lo0, w - count), w) != 0));
      lo < Pow2(w) && Lsh(Shr(hi0, count), w) + lo == ShiftSticky(Lsh(hi0, w) + lo0, count)
  {
    hide Or, And;
    var q, mid := Shr(hi0, count), Lsh(Low(hi0, count), w - count) + Shr(lo0, count);
    assert Low(Lsh(lo0, w - count), w) != 0 <==> Low(lo0, count) != 0 by { ShiftedOut(lo0, w, count); }
    assert Low(Lsh(hi0, w - count), w) == Lsh(Low(hi0, count), w - count) by { LowLsh(hi0, w - count, w); }
    WideSplit(w, hi0, lo0, count);
    OrFields(Low(hi0, count), Shr(lo0, count), w - count);
    StickyLow(w, q, mid, Low(lo0, count) != 0);
  }

  /** Setting the sticky bit in the low word sets it in the double word. */
  lemma {:induction false} StickyLow(w: nat, q: nat, mid: nat, sticky: bool)
    requires w >= 1 && mid < Pow2(w)
    ensures Or(mid, Bool(sticky)) < Pow2(w)
    ensures Lsh(q, w) + Or(mid, Bool(sticky)) == Or(Lsh(q, w) + mid, Bool(sticky))
  {
    OrBool(mid, sticky);
    OrBool(Lsh(q, w) + mid, sticky);
    LshEven(q, w);
    LowParity(0, w);
  }

  /** The quotient and remainder of a double word by Pow2(count). */
  lemma {:induction false} WideSplit(w: nat, hi0: nat, lo0: nat, count: nat)
    requires 1 <= count < w && lo0 < Pow2(w)
    ensures Shr(lo0, count) < Pow2(w - count)
    ensures Lsh(Low(hi0, count), w - count) + Shr(lo0, count) < Pow2(w)
    ensures Shr(Lsh(hi0, w) + lo0, count) == Lsh(Shr(hi0, count), w) + (Lsh(Low(hi0, count), w - count) + Shr(lo0, count))
    ensures Low(Lsh(hi0, w) + lo0, count) == Low(lo0, count)
  {
    hide Lsh, Shr, Low;
    var j := w - count;
    Split(lo0, count);
    Split(hi0, count);
    ShrLt(lo0, count, Pow2(j));
    LshPow2(j, count);
    LshPow2(count, j);
    LshMono(Low(hi0, count), Pow2(count), j);
    LshLsh(hi0, j, count);
    LshSum(Lsh(hi0, j), Shr(lo0, count), count);
    SplitUnique(Lsh(hi0, j) + Shr(lo0, count), Low(lo0, count), count);
    LshSum(Lsh(Shr(hi0, count), count), Low(hi0, count), j);
    LshLsh(Shr(hi0, count), count, j);
  }

  lemma {:induction false} WideShiftLong(w: nat, hi0: nat, lo0: nat, count: nat)
    requires w < count < 2 * w && hi0 < Pow2(w) && lo0 < Pow2(w)
    ensures var lo := Or(Shr(hi0, count - w), Bool(Or(Low(Lsh(hi0, 2 * w - count), w), lo0) != 0));
      lo < Pow2(w) && Lsh(0, w) + lo == ShiftSticky(Lsh(hi0, w) + lo0, count)
  {
    var j: nat := count - w;
    LshZero(w);
    ShiftedOut(hi0, w, j);
    OrZero(Low(Lsh(hi0, w - j), w), lo0);
    LongSplit(w, hi0, lo0, j);
    ShiftStickyValue(Lsh(hi0, w) + lo0, count);
    OrBool(Shr(hi0, j), Or(Low(Lsh(hi0, w - j), w), lo0) != 0);
    ShrHalf(hi0, j, w - 1);
    LowParity(0, w);
  }

  lemma {:induction false} LongSplit(w: nat, hi0: nat, lo0: nat, j: nat)
    requires lo0 < Pow2(w)
    ensures Shr(Lsh(hi0, w) + lo0, w + j) == Shr(hi0, j)
    ensures Low(Lsh(hi0, w) + lo0, w + j) == 0 <==> Low(hi0, j) == 0 && lo0 == 0
  {
    var x := Lsh(hi0, w) + lo0;
    SplitUnique(hi0, lo0, w);
    ShrShr(x, w, j);
    LowLow(x, w, j);
    Split(Low(x, w + j), w);
    LshZero(w);
    LshMono(0, Low(hi0, j), w);
  }

  lemma {:induction false} WideShiftAll(w: nat, hi0: nat, lo0: nat, count: nat)
    requires w >= 1 && count >= 2 * w && hi0 < Pow2(w) && lo0 < Pow2(w)
    ensures var lo := Bool(Or(hi0, lo0) != 0);
      lo < Pow2(w) && Lsh(0, w) + lo == ShiftSticky(Lsh(hi0, w) + lo0, count)
  {
    var x := Lsh(hi0, w) + lo0;
    LshZero(w);
    OrZero(hi0, lo0);
    LshMono(0, hi0, w);
    LshMono(hi0, Pow2(w), w);
    LshPow2(w, w);
    Pow2Mono(w + w, count);
    Pow2Mono(1, w);
    SplitSmall(x, count);
    ShiftStickyValue(x, count);
  }
}
