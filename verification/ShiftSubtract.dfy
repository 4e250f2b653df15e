/** The normalised shift-subtract division of Figure 3-40 of The PowerPC Compiler Writer's Guide,
shared by lib/udivsi3.c, lib/udivmoddi4.c and lib/udivmodti4.c.

A pair r:q of words is shifted left once a turn.  The bits of the dividend not yet used sit at the
top of q, the quotient bits found so far at its bottom, and the last of these is held back one turn
in carry. */
module ShiftSubtract {
  import opened Bits

  /** The sign of a word spread over all its bits: `(int)x >> (w - 1)`. */
  function SignMask(w: nat, negative: bool): nat
  {
    if negative then Pow2(w) - 1 else 0
  }

  lemma {:induction false} Masked(w: nat, x: nat, negative: bool)
    requires x < Pow2(w)
    ensures And(x, SignMask(w, negative)) == if negative then x else 0
  {
    AndMask(x, w);
    SplitSmall(x, w);
  }

  /** What the loop keeps with sr turns to go, for w-bit words. */
  ghost predicate Dividing(w: nat, n: nat, d: nat, sr: nat, q: nat, r: nat, carry: nat)
  {
    && sr <= w && n < Pow2(w) && d < Pow2(w) && q < Pow2(w)
    && r < d && carry <= 1
    && Shr(q, w - sr) == Low(n, sr)
    && (2 * Low(q, w - sr) + carry) * d + r == Shr(n, sr)
    && (2 * d <= Pow2(w) || sr == 0 || OnlyTurn(w, n, sr, q, carry))
  }

  /** A divisor with the top bit set takes one turn, for a dividend with the top bit set. */
  ghost predicate OnlyTurn(w: nat, n: nat, sr: nat, q: nat, carry: nat)
  {
    sr == 1 <= w && carry == 0 && Low(q, w - 1) == 0 && 2 * n >= Pow2(w)
  }

  // ----- Before the loop

  /** The shift count that leaves r one bit shorter than d. */
  lemma {:induction false} Start(w: nat, n: nat, d: nat, sr: nat)
    requires n < Pow2(w) && 0 < d < Pow2(w) && sr == BitLen(n) - BitLen(d) + 1 && sr >= 1
    ensures sr <= w
    ensures Dividing(w, n, d, sr, Lsh(Low(n, sr), w - sr), Shr(n, sr), 0)
  {
    BitLenLe(n, w);
    BitLenLe(d, w);
    BitLenLe(d, 0);
    StartRemainder(n, d, sr);
    StartQuotient(w, n, sr);
    MulComm(0, d);
    if 2 * d > Pow2(w) {
      BitLenLe(d, w - 1);
      BitLenLe(n, w - 1);
    }
  }

  lemma {:induction false} StartQuotient(w: nat, n: nat, sr: nat)
    requires sr <= w
    ensures var q := Lsh(Low(n, sr), w - sr);
      q < Pow2(w) && Shr(q, w - sr) == Low(n, sr) && Low(q, w - sr) == 0
  {
    Split(n, sr);
    LshMono(Low(n, sr), Pow2(sr), w - sr);
    LshPow2(sr, w - sr);
    SplitUnique(Low(n, sr), 0, w - sr);
  }

  lemma {:induction false} StartRemainder(n: nat, d: nat, sr: nat)
    requires d > 0 && BitLen(n) + 1 == BitLen(d) + sr
    ensures Shr(n, sr) < d
  {
    BitLenBounds(n);
    BitLenBounds(d);
    LshPow2(BitLen(d) - 1, sr);
    ShrLt(n, sr, Pow2(BitLen(d) - 1));
  }

  /** Fewer digits mean a smaller number. */
  lemma {:induction false} ShorterIsLess(n: nat, d: nat)
    requires BitLen(n) < BitLen(d)
    ensures n < d
  {
    BitLenBounds(n);
    BitLenBounds(d);
    Pow2Mono(BitLen(n), BitLen(d) - 1);
  }

  // ----- One turn

  /** The next dividend bit is the top bit of q, and nothing is lost off the top of r. */
  lemma {:induction false} ShiftIn(w: nat, n: nat, d: nat, sr: nat, q: nat, r: nat, carry: nat)
    requires Dividing(w, n, d, sr, q, r, carry) && sr > 0
    ensures 2 * r + Shr(q, w - 1) < Pow2(w) && 2 * Low(q, w - 1) + carry < Pow2(w)
    ensures Shr(n, sr - 1) == 2 * Shr(n, sr) + Shr(q, w - 1)
    ensures r <= Shr(n, sr)
  {
    hide Lsh, Shr, Low;
    var p, k := w - sr, 2 * Low(q, w - sr) + carry;
    NextBit(w, n, sr, q);
    MulSign(k, d);
    LshPow2(w - sr, sr);
    ShrLt(n, sr, Pow2(w - sr));
    Pow2Mono(w - sr, w - 1);
    assert Pow2(w) == 2 * Pow2(w - 1);
    Split(q, w - 1);
  }

  lemma {:induction false} NextBit(w: nat, n: nat, sr: nat, q: nat)
    requires 0 < sr <= w && Shr(q, w - sr) == Low(n, sr) && q < Pow2(w)
    ensures Shr(n, sr - 1) == 2 * Shr(n, sr) + Shr(q, w - 1)
    ensures Shr(q, w - 1) <= 1
  {
    ShrShr(q, w - sr, sr - 1);
    ShrShr(n, sr - 1, 1);
    LowLow(n, sr - 1, 1);
    OneDigit(Shr(n, sr - 1));
    SplitSmall(q, w - 1);
    LshPow2(0, w - 1);
  }

  lemma {:induction false} OneDigit(x: nat)
    ensures x == 2 * Shr(x, 1) + Low(x, 1) && Low(x, 1) <= 1
  {
    assert Shr(x, 1) == Shr(x / 2, 0) == x / 2;
    assert Low(x, 1) == 2 * Low(x / 2, 0) + x % 2 == x % 2;
  }

  /** The quotient bits below the dividend bits. */
  lemma {:induction false} ShiftQuotient(w: nat, sr: nat, q: nat, n: nat, carry: nat)
    requires 0 < sr <= w && Shr(q, w - sr) == Low(n, sr) && carry <= 1
    ensures var q1 := 2 * Low(q, w - 1) + carry;
      && Shr(q1, w - (sr - 1)) == Low(n, sr - 1)
      && Low(q1, w - (sr - 1)) == 2 * Low(q, w - sr) + carry
  {
    var k := w - sr;
    LowLow(q, k, sr - 1);
    LowLow(n, sr - 1, 1);
    Half(2 * Low(q, w - 1) + carry, Low(q, w - 1), carry);
    LowLow(Low(n, sr), sr - 1, 1);
    assert Shr(Low(q, w - 1), k) == Low(Shr(q, k), sr - 1) == Low(Low(n, sr), sr - 1);
  }

  lemma {:induction false} Half(x: nat, y: nat, b: nat)
    requires x == 2 * y + b && b <= 1
    ensures x / 2 == y && x % 2 == b
    ensures forall k: nat :: Shr(x, k + 1) == Shr(y, k) && Low(x, k + 1) == 2 * Low(y, k) + b
  {
  }

  /** The sign of d - r - 1 tells whether d goes into r, the wrap-around notwithstanding. */
  lemma {:induction false} SignTest(w: nat, d: nat, r: nat)
    requires w >= 1 && r < 2 * d && r < Pow2(w) && d < Pow2(w)
    requires 2 * d <= Pow2(w) || 2 * r >= Pow2(w)
    ensures var x := WrapSub(w, WrapSub(w, d, r), 1);
      x < Pow2(w) && (2 * x >= Pow2(w) <==> r >= d)
  {
    assert Pow2(w) == 2 * Pow2(w - 1);
  }

  /** `s = (int)(d - r - 1) >> (w - 1); carry = s & 1; r -= d & s;`. */
  method Subtract(w: nat, d: nat, r0: nat) returns (r: nat, carry: nat)
    requires w >= 1 && r0 < Pow2(w) && d < Pow2(w) && r0 < 2 * d
    requires 2 * d <= Pow2(w) || 2 * r0 >= Pow2(w)
    ensures r == if r0 >= d then r0 - d else r0
    ensures carry == if r0 >= d then 1 else 0
  {
    SignTest(w, d, r0);
    var x := WrapSub(w, WrapSub(w, d, r0), 1);
    var s := SignMask(w, 2 * x >= Pow2(w));
    AndOne(s);
    LowParity(0, w);
    carry := And(s, 1);
    Masked(w, d, r0 >= d);
    r := r0 - And(d, s);
  }

  /** `(x << 1) | bit`, the bit coming from the word below. */
  lemma {:induction false} ShiftWord(w: nat, x: nat, bit: nat)
    requires w >= 1 && bit <= 1
    ensures Or(Low(Lsh(x, 1), w), bit) == 2 * Low(x, w - 1) + bit < Pow2(w)
    ensures 2 * x + bit < Pow2(w) ==> Low(x, w - 1) == x
  {
    hide Low, Or, Shr;
    LowLsh(x, 1, w);
    assert Lsh(Low(x, w - 1), 1) == 2 * Low(x, w - 1);
    OrFields(Low(x, w - 1), bit, 1);
    Split(x, w - 1);
    SplitSmall(x, w - 1);
  }

  /** One turn keeps the loop's promise. */
  lemma {:induction false} Turn(w: nat, n: nat, d: nat, sr: nat, q: nat, r: nat, carry: nat)
    requires Dividing(w, n, d, sr, q, r, carry) && sr > 0
    ensures var r1, q1 := 2 * r + Shr(q, w - 1), 2 * Low(q, w - 1) + carry;
      && r1 < Pow2(w) && q1 < Pow2(w) && r1 < 2 * d
      && (2 * d <= Pow2(w) || 2 * r1 >= Pow2(w))
      && Dividing(w, n, d, sr - 1, q1, if r1 >= d then r1 - d else r1, if r1 >= d then 1 else 0)
  {
    var r1, q1 := 2 * r + Shr(q, w - 1), 2 * Low(q, w - 1) + carry;
    var k := 2 * Low(q, w - sr) + carry;
    ShiftIn(w, n, d, sr, q, r, carry);
    NextBit(w, n, sr, q);
    ShiftQuotient(w, sr, q, n, carry);
    Distrib(k, k, d);
    Distrib(2 * k, 1, d);
    if 2 * d > Pow2(w) {
      MulComm(0, d);
      assert Shr(n, 0) == n;
    }
  }

  /** After the last turn. */
  lemma {:induction false} Finish(w: nat, n: nat, d: nat, q: nat, r: nat, carry: nat)
    requires Dividing(w, n, d, 0, q, r, carry)
    ensures 2 * q + carry < Pow2(w)
    ensures 2 * q + carry == n / d && r == n % d
  {
    var k := 2 * q + carry;
    SplitSmall(q, w);
    assert Shr(n, 0) == n;
    DivModUnique(n, d, k, r);
    MulSign(k, d - 1 + 1);
    MulLe(1, d, k);
    MulComm(d, k);
  }
}
