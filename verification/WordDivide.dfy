/** Unsigned division of words: the normalised loop of lib/udivsi3.c, and the bit-serial loop of
lib/patmos/udivsi3.c and lib/patmos/udivmodsi4.c. */
module WordDivide {
  import opened Bits
  import opened ShiftSubtract

  // ----- lib/udivsi3.c

  lemma {:induction false} ClzDifference(w: nat, n: nat, d: nat)
    requires 0 < n < Pow2(w) && 0 < d < Pow2(w)
    ensures var count := Clz(w, d) - Clz(w, n);
      && count == BitLen(n) - BitLen(d) <= w - 1
      && (count < 0 ==> n < d)
      && (count == w - 1 ==> d == 1)
  {
    BitLenLe(n, w);
    BitLenLe(d, 0);
    BitLenLe(d, 1);
    if BitLen(n) < BitLen(d) {
      ShorterIsLess(n, d);
    }
  }

  /** lib/udivsi3.c:50-62. */
  method LoopTurn(w: nat, ghost n: nat, d: nat, ghost sr: nat, q0: nat, r0: nat, carry0: nat)
    returns (q: nat, r: nat, carry: nat)
    requires Dividing(w, n, d, sr, q0, r0, carry0) && sr > 0
    ensures Dividing(w, n, d, sr - 1, q, r, carry)
  {
    hide Lsh, Shr, Low, Or, Pow2;
    Turn(w, n, d, sr, q0, r0, carry0);
    NextBit(w, n, sr, q0);
    ShiftWord(w, r0, Shr(q0, w - 1));
    ShiftWord(w, q0, carry0);
    r := Or(Low(Lsh(r0, 1), w), Shr(q0, w - 1));
    q := Or(Low(Lsh(q0, 1), w), carry0);
    r, carry := Subtract(w, d, r);
  }

  method Loop(w: nat, n: nat, d: nat, q0: nat, r0: nat, sr0: nat) returns (q: nat)
    requires w >= 1 && Dividing(w, n, d, sr0, q0, r0, 0)
    ensures d > 0 && q == n / d
  {
    var r, carry, sr := r0, 0, sr0;
    q := q0;
    while sr > 0
      invariant Dividing(w, n, d, sr, q, r, carry)
    {
      q, r, carry := LoopTurn(w, n, d, sr, q, r, carry);
      sr := sr - 1;
    }
    Finish(w, n, d, q, r, carry);
    ShiftWord(w, q, carry);
    q := Or(Low(Lsh(q, 1), w), carry);
  }

  /** lib/udivsi3.c:26-65.  Dividing by zero gives zero. */
  method Udivsi3(w: nat, n: nat, d: nat) returns (q: nat)
    requires w >= 1 && n < Pow2(w) && d < Pow2(w)
    ensures q == if d == 0 then 0 else n / d
  {
    if d == 0 {
      return 0;
    }
    if n == 0 {
      return 0;
    }
    ClzDifference(w, n, d);
    // sr is unsigned: a negative count is large
    var count := Clz(w, d) - Clz(w, n);
    if count < 0 || count > w - 1 {
      MulComm(0, d);
      DivModUnique(n, d, 0, n);
      return 0;
    }
    if count == w - 1 {
      return n;
    }
    var sr: nat := count + 1;
    Start(w, n, d, sr);
    LowLsh(n, w - sr, w);
    q := ShiftLeft(w, n, w - sr);
    var r := ShiftRight(w, n, sr);
    q := Loop(w, n, d, q, r, sr);
  }

  // ----- lib/patmos

  /** After the bits from i up have been used. */
  ghost predicate Serial(w: nat, n: nat, d: nat, i: nat, quotient: nat, r: nat)
  {
    && i <= w && n < Pow2(w) && r <= Shr(n, i)
    && quotient * d + r == Shr(n, i)
    && (if d == 0 then quotient == Pow2(w - i) - 1 else r < d)
  }

  /** One more bit: `r <<= 1` loses nothing because r <= n >> (i + 1). */
  lemma {:induction false} SerialStep(w: nat, n: nat, d: nat, i: nat, quotient: nat, r: nat)
    requires Serial(w, n, d, i + 1, quotient, r)
    ensures var bit := Shr(n, i) % 2;
      var r1 := 2 * r + bit;
      && r1 < Pow2(w)
      && (r1 >= d ==> Serial(w, n, d, i, 2 * quotient + 1, r1 - d))
      && (r1 < d ==> Serial(w, n, d, i, 2 * quotient, r1))
  {
    ShrShr(n, i, 1);
    OneDigit(Shr(n, i));
    assert Low(Shr(n, i), 1) == Shr(n, i) % 2;
    ShrLe(n, i);
    Distrib(quotient, quotient, d);
    Distrib(2 * quotient, 1, d);
    MulSign(2 * quotient + 1, d + (if d == 0 then 1 else 0));
    MulComm(quotient, d);
  }

  lemma {:induction false} SetQuotientBit(quotient: nat, i: nat)
    ensures Lsh(quotient, i + 1) == Lsh(2 * quotient, i)
    ensures Or(Lsh(quotient, i + 1), Pow2(i)) == Lsh(2 * quotient + 1, i)
  {
    LshLsh(quotient, 1, i);
    assert Lsh(quotient, 1) == 2 * quotient;
    LshSum(2 * quotient, 1, i);
    LshPow2(0, i);
    SplitUnique(2 * quotient, 0, i);
    OrBit(Lsh(quotient, i + 1), i);
  }

  /** lib/patmos/udivmodsi4.c:28-39.  A zero divisor gives all ones and returns the dividend. */
  method Udivmodsi4(w: nat, n: nat, d: nat) returns (q: nat, rem: nat)
    requires w >= 1 && n < Pow2(w) && d < Pow2(w)
    ensures d > 0 ==> q == n / d && rem == n % d
    ensures d == 0 ==> q == Pow2(w) - 1 && rem == n
  {
    hide Or, And;
    var r: nat, i := 0, w;
    q := 0;
    ghost var quotient: nat := 0;
    SplitSmall(n, w);
    LshZero(w);
    while i > 0
      invariant Serial(w, n, d, i, quotient, r) && q == Lsh(quotient, i)
    {
      i := i - 1;
      SerialStep(w, n, d, i, quotient, r);
      SetQuotientBit(quotient, i);
      ShiftWord(w, r, Shr(n, i) % 2);
      AndOne(Shr(n, i));
      r := ShiftInBit(w, r, And(Shr(n, i), 1));
      quotient := 2 * quotient;
      if r >= d {
        r := r - d;
        q := Or(q, Pow2(i));
        quotient := quotient + 1;
      }
    }
    assert Shr(n, 0) == n;
    if d > 0 { DivModUnique(n, d, q, r); }
    rem := r;
  }

  /** `r <<= 1; r |= bit;`. */
  method ShiftInBit(w: nat, r0: nat, bit: nat) returns (r: nat)
    requires w >= 1 && bit <= 1 && 2 * r0 + bit < Pow2(w)
    ensures r == 2 * r0 + bit
  {
    ShiftWord(w, r0, bit);
    r := Low(Lsh(r0, 1), w);
    r := Or(r, bit);
  }

  /** lib/patmos/udivsi3.c:26-38 runs the same loop and returns the quotient only. */
  method PatmosUdivsi3(n: nat, d: nat) returns (q: nat)
    requires n < Pow2(32) && d < Pow2(32)
    ensures q == if d == 0 then Pow2(32) - 1 else n / d
  {
    var rem;
    q, rem := Udivmodsi4(32, n, d);
  }
}
