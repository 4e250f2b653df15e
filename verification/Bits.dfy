/** Machine words as natural numbers.

A word of width w is a natural number below Pow2(w).  Shifts, fields and the bitwise operators are
defined digit by digit, so that reasoning about them stays linear; ShiftMeaning relates them to
multiplication, division and remainder.  The other lemmas turn the few shapes the runtime uses
(masking the low bits, combining disjoint fields, setting a sticky bit) into arithmetic. */
module Bits {

  function Pow2(n: nat): (r: nat)
    ensures r > 0
  {
    if n == 0 then 1 else 2 * Pow2(n - 1)
  }

  /** x times Pow2(k). */
  function Lsh(x: nat, k: nat): nat
  {
    if k == 0 then x else 2 * Lsh(x, k - 1)
  }

  /** x divided by Pow2(k), rounded down. */
  function Shr(x: nat, k: nat): nat
  {
    if k == 0 then x else Shr(x / 2, k - 1)
  }

  /** The low k bits of x. */
  function Low(x: nat, k: nat): nat
  {
    if k == 0 then 0 else 2 * Low(x / 2, k - 1) + x % 2
  }

  function And(x: nat, y: nat): nat
  {
    if x == 0 || y == 0 then 0
    else 2 * And(x / 2, y / 2) + (if x % 2 == 1 && y % 2 == 1 then 1 else 0)
  }

  function Or(x: nat, y: nat): nat
  {
    if x == 0 then y
    else if y == 0 then x
    else 2 * Or(x / 2, y / 2) + (if x % 2 == 1 || y % 2 == 1 then 1 else 0)
  }

  function Xor(x: nat, y: nat): nat
  {
    if x == 0 then y
    else if y == 0 then x
    else 2 * Xor(x / 2, y / 2) + (if x % 2 != y % 2 then 1 else 0)
  }

  /** The number of binary digits of x. */
  function BitLen(x: nat): nat
  {
    if x == 0 then 0 else 1 + BitLen(x / 2)
  }

  /** C's `bool` in an arithmetic context. */
  function Bool(b: bool): nat
  {
    if b then 1 else 0
  }

  /** `x - y` on unsigned w-bit words. */
  function WrapSub(w: nat, x: nat, y: nat): nat
    requires y <= Pow2(w)
  {
    if x >= y then x - y else x + Pow2(w) - y
  }

  // ----- C operators whose result the language leaves open in some cases

  /** `x << k` on a w-bit word: any word at all when the count is not below the width. */
  method ShiftLeft(w: nat, x: nat, k: int) returns (r: nat)
    ensures r < Pow2(w)
    ensures 0 <= k < w ==> r == Low(Lsh(x, k), w)
  {
    if 0 <= k < w {
      r := Low(Lsh(x, k), w);
      Split(Lsh(x, k), w);
    } else {
      r := 0;
    }
  }

  /** `x >> k` on an unsigned w-bit word: any word at all when the count is not below the width. */
  method ShiftRight(w: nat, x: nat, k: int) returns (r: nat)
    requires x < Pow2(w)
    ensures r < Pow2(w)
    ensures 0 <= k < w ==> r == Shr(x, k)
  {
    if 0 <= k < w {
      r := Shr(x, k);
      ShrLe(x, k);
    } else {
      r := 0;
    }
  }

  /** `__builtin_clz` on a w-bit word, undefined at zero. */
  function Clz(w: nat, x: nat): (r: nat)
    requires 0 < x < Pow2(w)
    ensures r == w - BitLen(x) < w
  {
    BitLenLe(x, w);
    w - BitLen(x)
  }

  // ----- Powers of two and left shifts

  lemma {:induction false} Pow2Mono(a: nat, b: nat)
    requires a <= b
    ensures Pow2(a) <= Pow2(b)
    ensures a < b ==> 2 * Pow2(a) <= Pow2(b)
  {
    if a < b {
      Pow2Mono(a, b - 1);
    }
  }

  lemma {:induction false} LshPow2(j: nat, k: nat)
    ensures Lsh(Pow2(j), k) == Pow2(j + k)
    ensures Lsh(1, k) == Pow2(k)
  {
    if k > 0 {
      LshPow2(j, k - 1);
    }
  }

  lemma {:induction false} LshLsh(x: nat, j: nat, k: nat)
    ensures Lsh(Lsh(x, j), k) == Lsh(x, j + k)
  {
    if k > 0 {
      LshLsh(x, j, k - 1);
    }
  }

  lemma {:induction false} LshSum(x: nat, y: nat, k: nat)
    ensures Lsh(x + y, k) == Lsh(x, k) + Lsh(y, k)
  {
    if k > 0 {
      LshSum(x, y, k - 1);
    }
  }

  lemma {:induction false} LshDiff(x: nat, y: nat, k: nat)
    requires y <= x
    ensures Lsh(y, k) <= Lsh(x, k)
    ensures Lsh(x - y, k) == Lsh(x, k) - Lsh(y, k)
  {
    LshSum(x - y, y, k);
  }

  lemma {:induction false} LshMono(x: nat, y: nat, k: nat)
    ensures x < y <==> Lsh(x, k) < Lsh(y, k)
    ensures x <= y <==> Lsh(x, k) <= Lsh(y, k)
    ensures x < y ==> Lsh(x, k) + Pow2(k) <= Lsh(y, k)
  {
    if k > 0 {
      LshMono(x, y, k - 1);
    }
  }

  lemma {:induction false} LshZero(k: nat)
    ensures Lsh(0, k) == 0
  {
    if k > 0 {
      LshZero(k - 1);
    }
  }

  lemma {:induction false} LshGe(x: nat, k: nat)
    ensures x <= Lsh(x, k)
    ensures k > 0 ==> 2 * x <= Lsh(x, k)
  {
    if k > 0 {
      LshGe(x, k - 1);
    }
  }

  lemma {:induction false} LshEven(x: nat, k: nat)
    requires k > 0
    ensures Lsh(x, k) % 2 == 0
  {
    var half := Lsh(x, k - 1);
    assert Lsh(x, k) == 2 * half;
  }

  // ----- The two fields of a number split at bit k

  lemma {:induction false} Split(x: nat, k: nat)
    ensures x == Lsh(Shr(x, k), k) + Low(x, k)
    ensures Low(x, k) < Pow2(k)
  {
    if k > 0 {
      Split(x / 2, k - 1);
    }
  }

  lemma {:induction false} SplitUnique(q: nat, r: nat, k: nat)
    requires r < Pow2(k)
    ensures Shr(Lsh(q, k) + r, k) == q
    ensures Low(Lsh(q, k) + r, k) == r
  {
    if k > 0 {
      SplitUnique(q, r / 2, k - 1);
    }
  }

  /** A number below Pow2(k) is its own low field; one bit more and the high field is that bit. */
  lemma {:induction false} SplitSmall(x: nat, k: nat)
    ensures x < Pow2(k) ==> Shr(x, k) == 0 && Low(x, k) == x
    ensures Pow2(k) <= x < 2 * Pow2(k) ==> Shr(x, k) == 1 && Low(x, k) == x - Pow2(k)
  {
    LshZero(k);
    LshPow2(0, k);
    if x < Pow2(k) {
      SplitUnique(0, x, k);
    } else if x < 2 * Pow2(k) {
      SplitUnique(1, x - Pow2(k), k);
    }
  }

  lemma {:induction false} ShrLt(x: nat, k: nat, b: nat)
    ensures Shr(x, k) < b <==> x < Lsh(b, k)
  {
    Split(x, k);
    LshMono(Shr(x, k), b, k);
  }

  lemma {:induction false} ShrLe(x: nat, k: nat)
    ensures Shr(x, k) <= x
  {
    Split(x, k);
    LshGe(Shr(x, k), k);
  }

  lemma {:induction false} ShrShr(x: nat, j: nat, k: nat)
    ensures Shr(Shr(x, j), k) == Shr(x, j + k)
  {
    if j > 0 {
      ShrShr(x / 2, j - 1, k);
    }
  }

  lemma {:induction false} LowLow(x: nat, j: nat, k: nat)
    ensures Low(Low(x, j + k), j) == Low(x, j)
    ensures Shr(Low(x, j + k), j) == Low(Shr(x, j), k)
  {
    if j > 0 {
      LowLow(x / 2, j - 1, k);
    }
  }

  lemma {:induction false} LowParity(x: nat, k: nat)
    requires k > 0
    ensures Low(x, k) % 2 == x % 2
    ensures Pow2(k) % 2 == 0
  {
  }

  lemma {:induction false} LowDouble(y: nat, w: nat)
    requires w > 0
    ensures Low(2 * y, w) == 2 * Low(y, w - 1)
  {
    assert 2 * y / 2 == y;
  }

  /** Shifting left past the end of a w-bit word keeps the low w - k bits. */
  lemma {:induction false} LowLsh(x: nat, k: nat, w: nat)
    requires k <= w
    ensures Low(Lsh(x, k), w) == Lsh(Low(x, w - k), k)
  {
    if k > 0 {
      var y := Lsh(x, k - 1);
      LowLsh(x, k - 1, w - 1);
      assert Lsh(x, k) == 2 * y && 2 * y / 2 == y;
      LowDouble(y, w);
    }
  }

  lemma {:induction false} ShiftMeaning(x: nat, k: nat)
    ensures Lsh(x, k) == x * Pow2(k)
    ensures Shr(x, k) == x / Pow2(k)
    ensures Low(x, k) == x % Pow2(k)
  {
    LshTimes(x, k);
    LshTimes(Shr(x, k), k);
    Split(x, k);
    DivModUnique(x, Pow2(k), Shr(x, k), Low(x, k));
  }

  lemma {:induction false} LshTimes(x: nat, k: nat)
    ensures Lsh(x, k) == x * Pow2(k)
  {
    if k > 0 {
      LshTimes(x, k - 1);
      MulSwap(2, x, Pow2(k - 1));
    }
  }

  lemma {:induction false} LshMul(x: nat, i: nat, y: nat, j: nat)
    ensures Lsh(x, i) * Lsh(y, j) == Lsh(x * y, i + j)
  {
    LshTimes(x, i);
    LshTimes(y, j);
    LshTimes(x * y, i);
    LshTimes(Lsh(x * y, i), j);
    LshLsh(x * y, i, j);
    MulSwap(x * Pow2(i), y, Pow2(j));
    MulSwap(y, x, Pow2(i));
    MulAssoc(y, x, Pow2(i));
    MulAssoc(x * y, Pow2(i), Pow2(j));
    MulAssoc(y, x * Pow2(i), Pow2(j));
  }

  lemma {:induction false} Pow2Sum(j: nat, k: nat)
    ensures Pow2(j + k) == Pow2(j) * Pow2(k)
  {
    LshPow2(j, k);
    LshTimes(Pow2(j), k);
  }

  lemma {:induction false} WordSizes()
    ensures Pow2(23) == 0x80_0000 && Pow2(32) == 0x1_0000_0000
    ensures Pow2(52) == 0x10_0000_0000_0000 && Pow2(64) == 0x1_0000_0000_0000_0000
  {
    assert Pow2(4) == 16 by { assert Pow2(2) == 4; }
    assert Pow2(7) == 128 by { assert Pow2(6) == 64 by { assert Pow2(5) == 32; } }
    Pow2Sum(4, 4);
    Pow2Sum(8, 8);
    Pow2Sum(16, 7);
    Pow2Sum(16, 16);
    Pow2Sum(16, 4);
    Pow2Sum(32, 20);
    Pow2Sum(32, 32);
  }

  // ----- Bit lengths

  lemma {:induction false} BitLenBounds(x: nat)
    ensures x < Pow2(BitLen(x))
    ensures x > 0 ==> BitLen(x) > 0 && Pow2(BitLen(x) - 1) <= x
  {
    if x > 0 {
      BitLenBounds(x / 2);
    }
  }

  lemma {:induction false} BitLenLe(x: nat, w: nat)
    ensures x < Pow2(w) <==> BitLen(x) <= w
  {
    BitLenBounds(x);
    if BitLen(x) > w {
      Pow2Mono(w, BitLen(x) - 1);
    } else {
      Pow2Mono(BitLen(x), w);
    }
  }

  lemma {:induction false} BitLenUnique(x: nat, n: nat)
    requires n > 0 && Pow2(n - 1) <= x < Pow2(n)
    ensures BitLen(x) == n
  {
    BitLenLe(x, n);
    BitLenLe(x, n - 1);
  }

  /** Shifting the leading bit up to place p. */
  lemma {:induction false} Normalised(x: nat, p: nat)
    requires 0 < x && BitLen(x) <= p + 1
    ensures Pow2(p) <= Lsh(x, p + 1 - BitLen(x)) < 2 * Pow2(p)
  {
    var n := BitLen(x);
    BitLenBounds(x);
    LshPow2(n - 1, p + 1 - n);
    LshPow2(n, p + 1 - n);
    LshMono(x, Pow2(n - 1), p + 1 - n);
    LshMono(x, Pow2(n), p + 1 - n);
  }

  // ----- Multiplication and division

  lemma {:induction false} Distrib(a: int, b: int, c: int)
    ensures (a + b) * c == a * c + b * c
  {
  }

  lemma {:induction false} MulAssoc(a: int, b: int, c: int)
    ensures a * b * c == a * (b * c)
  {
  }

  lemma {:induction false} MulSwap(a: int, b: int, c: int)
    ensures a * (b * c) == b * (a * c)
  {
  }

  lemma {:induction false} MulComm(a: int, b: int)
    ensures a * b == b * a
    ensures a == 0 ==> a * b == 0
  {
  }

  lemma {:induction false} MulSign(k: int, c: int)
    requires c > 0
    ensures k >= 0 ==> k * c >= 0
    ensures k > 0 ==> k * c >= c
    ensures k < 0 ==> k * c <= -c
  {
  }

  lemma {:induction false} MulLe(a: int, b: int, c: int)
    requires c >= 0
    ensures a <= b ==> a * c <= b * c
    ensures c > 0 ==> (a < b <==> a * c < b * c)
  {
    Distrib(b - a, a, c);
    if c > 0 {
      MulSign(b - a, c);
    }
  }

  lemma {:induction false} SmallMultiple(k: int, m: int)
    requires m > 0
    ensures -m < k * m < m ==> k == 0
  {
    MulSign(k, m);
  }

  lemma {:induction false} DivModUnique(x: nat, m: nat, q: nat, r: nat)
    requires r < m && x == q * m + r
    ensures x / m == q && x % m == r
  {
    DivMod(x, m);
    Distrib(x / m - q, q, m);
    SmallMultiple(x / m - q, m);
  }

  lemma {:induction false} DivMod(x: nat, m: nat)
    requires m > 0
    ensures x == (x / m) * m + x % m
    ensures 0 <= x % m < m
    ensures x / m >= 0
  {
  }

  // ----- Bitwise operators as arithmetic

  lemma {:induction false} AndMask(x: nat, k: nat)
    ensures And(x, Pow2(k) - 1) == Low(x, k)
  {
    if k > 0 {
      AndMask(x / 2, k - 1);
      assert (Pow2(k) - 1) / 2 == Pow2(k - 1) - 1 && (Pow2(k) - 1) % 2 == 1;
      if x == 0 { LowZero(k); }
    }
  }

  lemma {:induction false} LowZero(k: nat)
    ensures Low(0, k) == 0 && Shr(0, k) == 0
  {
    if k > 0 {
      LowZero(k - 1);
    }
  }

  lemma {:induction false} AndOne(x: nat)
    ensures And(x, 1) == x % 2
  {
    if x != 0 {
      assert And(x / 2, 0) == 0;
    }
  }

  lemma {:induction false} BitTest(x: nat, k: nat)
    ensures And(x, Pow2(k)) == if Shr(x, k) % 2 == 1 then Pow2(k) else 0
  {
    if k == 0 {
      AndOne(x);
    } else {
      BitTest(x / 2, k - 1);
      if x == 0 { LowZero(k); }
    }
  }

  lemma {:induction false} AndSelf(x: nat)
    ensures And(x, x) == x
  {
    if x != 0 {
      AndSelf(x / 2);
    }
  }

  lemma {:induction false} AndBound(x: nat, y: nat)
    ensures And(x, y) <= x && And(x, y) <= y
  {
    if x != 0 && y != 0 {
      AndBound(x / 2, y / 2);
    }
  }

  /** A word split at bit k: the two fields are combined independently of each other. */
  lemma {:induction false} OrFields(hi: nat, lo: nat, k: nat)
    requires lo < Pow2(k)
    ensures Or(Lsh(hi, k), lo) == Lsh(hi, k) + lo
    ensures Or(lo, Lsh(hi, k)) == Lsh(hi, k) + lo
  {
    if k > 0 {
      OrFields(hi, lo / 2, k - 1);
    }
  }

  lemma {:induction false} OrBool(x: nat, b: bool)
    ensures Or(x, Bool(b)) == x + (if b && x % 2 == 0 then 1 else 0)
  {
    if x != 0 && b {
      assert Or(x / 2, 0) == x / 2;
    }
  }

  lemma {:induction false} OrBit(x: nat, k: nat)
    ensures Or(x, Pow2(k)) == x + (if Shr(x, k) % 2 == 1 then 0 else Pow2(k))
  {
    if k == 0 {
      OrBool(x, true);
    } else {
      OrBit(x / 2, k - 1);
      if x == 0 { LowZero(k); }
    }
  }

  lemma {:induction false} OrZero(x: nat, y: nat)
    ensures Or(x, y) == 0 <==> x == 0 && y == 0
  {
    if x != 0 && y != 0 {
      OrZero(x / 2, y / 2);
    }
  }

  lemma {:induction false} OrBound(x: nat, y: nat, k: nat)
    requires x < Pow2(k) && y < Pow2(k)
    ensures Or(x, y) < Pow2(k)
  {
    if x != 0 && y != 0 {
      OrBound(x / 2, y / 2, k - 1);
    }
  }

  lemma {:induction false} OrHalf(x: nat, y: nat)
    ensures Or(x, y) / 2 == Or(x / 2, y / 2)
    ensures Or(x, y) % 2 == if x % 2 == 1 || y % 2 == 1 then 1 else 0
  {
  }

  /** Setting a bit of the low field. */
  lemma {:induction false} OrBitFields(x: nat, j: nat, k: nat)
    requires j < k
    ensures Low(Or(x, Pow2(j)), k) == Or(Low(x, k), Pow2(j))
    ensures Shr(Or(x, Pow2(j)), j) % 2 == 1
  {
    OrHalf(x, Pow2(j));
    LowHalf(x, k);
    OrHalf(Low(x, k), Pow2(j));
    if j > 0 {
      OrBitFields(x / 2, j - 1, k - 1);
    } else {
      OrBool(x / 2, false);
      OrBool(Low(x / 2, k - 1), false);
    }
  }

  lemma {:induction false} XorZero(x: nat, y: nat)
    ensures Xor(x, y) == 0 <==> x == y
  {
    if x != 0 && y != 0 {
      XorZero(x / 2, y / 2);
    }
  }

  lemma {:induction false} XorHalf(x: nat, y: nat)
    ensures Xor(x, y) / 2 == Xor(x / 2, y / 2)
    ensures Xor(x, y) % 2 == if x % 2 != y % 2 then 1 else 0
  {
  }

  /** Exclusive or works on the fields above and below bit k independently. */
  lemma {:induction false} XorHigh(x: nat, y: nat, k: nat)
    ensures Shr(Xor(x, y), k) == Xor(Shr(x, k), Shr(y, k))
  {
    if k > 0 {
      XorHigh(x / 2, y / 2, k - 1);
      XorHalf(x, y);
    }
  }

  lemma {:induction false} XorLow(x: nat, y: nat, k: nat)
    ensures Low(Xor(x, y), k) == Xor(Low(x, k), Low(y, k))
  {
    if k > 0 {
      XorLow(x / 2, y / 2, k - 1);
      XorHalf(x, y);
      XorHalf(Low(x, k), Low(y, k));
      LowHalf(x, k);
      LowHalf(y, k);
    }
  }

  lemma {:induction false} LowHalf(x: nat, k: nat)
    requires k > 0
    ensures Low(x, k) / 2 == Low(x / 2, k - 1) && Low(x, k) % 2 == x % 2
  {
  }

  // ----- Powers of two

  /** __builtin_ctz(). */
  function Ctz(x: nat): nat
    requires x > 0
  {
    if x % 2 == 1 then 0 else 1 + Ctz(x / 2)
  }

  /** `(x & (x - 1)) == 0` tests for a power of two. */
  lemma {:induction false} PowerTest(x: nat)
    requires x > 0
    ensures And(x, x - 1) == 0 <==> x == Pow2(Ctz(x))
  {
    if x % 2 == 1 {
      AndSelf(x / 2);
    } else {
      PowerTest(x / 2);
      assert (x - 1) / 2 == x / 2 - 1 && (x - 1) % 2 == 1;
      var rest := And(x / 2, x / 2 - 1);
      assert And(x, x - 1) == 2 * rest;
    }
  }
}
