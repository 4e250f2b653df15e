/** Why a sticky bit is enough.

The soft-float routines never hold an exact result.  They hold an integer whose lowest bit is set
whenever anything was shifted out below it.  `Sticky` says what such an integer stands for; the
lemmas show that the relation survives sums and further sticky shifts, and that it leaves every
roundTiesToEven decision unchanged. */
module Rounding {
  import opened Bits
  import opened Floats

  /** x stands for n / 2^k: exactly, or x is odd and n / 2^k lies strictly between its even
      neighbours. */
  ghost predicate Sticky(x: nat, n: nat, k: nat)
  {
    n == Lsh(x, k) || (x % 2 == 1 && Lsh(x, k) - Pow2(k) < n < Lsh(x, k) + Pow2(k))
  }

  /** `x >> k | sticky`, where sticky tells whether a set bit is shifted out. */
  function ShiftSticky(x: nat, k: nat): nat
  {
    Or(Shr(x, k), Bool(Low(x, k) != 0))
  }

  lemma {:induction false} ShiftStickyValue(x: nat, k: nat)
    ensures ShiftSticky(x, k) == Shr(x, k) + (if Low(x, k) != 0 && Shr(x, k) % 2 == 0 then 1 else 0)
  {
    OrBool(Shr(x, k), Low(x, k) != 0);
  }

  /** Multiples of Pow2(k), shifted left by j, written as multiples of Pow2(j + k). */
  lemma {:induction false} LshSplit(x: nat, j: nat, k: nat)
    ensures Lsh(x, j) == Lsh(Shr(x, k), j + k) + Lsh(Low(x, k), j)
    ensures Lsh(Low(x, k), j) + Pow2(j) <= Pow2(j + k)
    ensures Low(x, k) > 0 ==> Pow2(j) <= Lsh(Low(x, k), j)
    ensures Low(x, k) == 0 ==> Lsh(Low(x, k), j) == 0
  {
    Split(x, k);
    LshSum(Lsh(Shr(x, k), k), Low(x, k), j);
    LshLsh(Shr(x, k), k, j);
    LshMono(Low(x, k), Pow2(k), j);
    LshPow2(k, j);
    LshMono(0, Low(x, k), j);
    LshZero(j);
  }

  /** A right shift with sticky bit. */
  lemma {:induction false} StickyShift(x: nat, n: nat, j: nat, k: nat)
    requires Sticky(x, n, j)
    ensures Sticky(ShiftSticky(x, k), n, j + k)
  {
    var q := Shr(x, k);
    ShiftStickyValue(x, k);
    LshSplit(x, j, k);
    LshSum(q, 1, j + k);
    LshPow2(0, j + k);
    if Low(x, k) == 0 && k > 0 {
      LowParity(x, k);
    }
  }

  /** Adding an exact even integer keeps the relation. */
  lemma {:induction false} StickyAdd(c: nat, x: nat, n: nat, k: nat)
    requires Sticky(x, n, k) && c % 2 == 0
    ensures Sticky(c + x, Lsh(c, k) + n, k)
  {
    LshSum(c, x, k);
  }

  /** Subtracting from an exact even integer keeps it too. */
  lemma {:induction false} StickySub(c: nat, x: nat, n: nat, k: nat)
    requires Sticky(x, n, k) && c % 2 == 0 && x <= c
    ensures n <= Lsh(c, k)
    ensures Sticky(c - x, Lsh(c, k) - n, k)
  {
    var y := c - x;
    LshSum(y, x, k);
    LshMono(x, c, k);
    assert y % 2 == x % 2;
  }

  /** The relation depends on the rational only. */
  lemma {:induction false} StickyCancel(x: nat, n: nat, k: nat, c: nat)
    ensures Sticky(x, Lsh(n, c), k + c) <==> Sticky(x, n, k)
  {
    LshLsh(x, k, c);
    LshPow2(k, c);
    var y, p := Lsh(x, k), Pow2(k);
    LshSum(y, p, c);
    LshMono(n, y + p, c);
    LshMono(n, y, c);
    LshMono(y, n, c);
    LshSum(n, p, c);
    LshMono(y, n + p, c);
  }

  lemma {:induction false} StickyAbove(x: nat, n: nat, k: nat, b: nat)
    requires Sticky(x, n, k) && b <= x && b % 2 == 0
    ensures Lsh(b, k) <= n
  {
    LshMono(b, x, k);
  }

  /** The sticky bit preserves rounding: comparing the low k >= 2 bits of x with one half decides
      how the exact value compares with the midpoint, ties included. */
  lemma {:induction false} StickyCompare(x: nat, n: nat, j: nat, k: nat)
    requires Sticky(x, n, j) && k >= 2
    ensures Lsh(Shr(x, k), j + k) <= n <= Lsh(Shr(x, k), j + k) + Pow2(j + k)
    ensures Low(x, k) < Pow2(k - 1) <==> n < Lsh(Shr(x, k), j + k) + Pow2(j + k - 1)
    ensures Low(x, k) > Pow2(k - 1) <==> n > Lsh(Shr(x, k), j + k) + Pow2(j + k - 1)
  {
    var g, h := Low(x, k), Pow2(k - 1);
    LshSplit(x, j, k);
    LshPow2(k - 1, j);
    LshMono(g, h, j);
    LshMono(h, g, j);
    LowParity(x, k);
    LowParity(0, k - 1);
  }

  /** The same with a common factor Pow2(c) cancelled. */
  lemma {:induction false} StickyCompareScaled(x: nat, n: nat, u: nat, c: nat, k: nat)
    requires k >= 2 && u + c >= k
    requires Sticky(x, Lsh(n, c), u + c - k)
    ensures Lsh(Shr(x, k), u) <= n <= Lsh(Shr(x, k) + 1, u)
    ensures Low(x, k) < Pow2(k - 1) <==> 2 * n < Lsh(Shr(x, k), u) + Lsh(Shr(x, k) + 1, u)
    ensures Low(x, k) > Pow2(k - 1) <==> 2 * n > Lsh(Shr(x, k), u) + Lsh(Shr(x, k) + 1, u)
  {
    var q := Shr(x, k);
    StickyCompare(x, Lsh(n, c), u + c - k, k);
    LshLsh(q, u, c);
    LshLsh(q + 1, u, c);
    LshSum(q, 1, u + c);
    LshPow2(0, u + c);
    CancelBetween(Lsh(q, u), Lsh(q + 1, u), n, c);
  }

  /** Bounds and midpoint comparison survive the cancellation of a common factor. */
  lemma {:induction false} CancelBetween(lo: nat, hi: nat, n: nat, c: nat)
    ensures Lsh(lo, c) <= Lsh(n, c) <==> lo <= n
    ensures Lsh(n, c) <= Lsh(hi, c) <==> n <= hi
    ensures 2 * Lsh(n, c) < Lsh(lo, c) + Lsh(hi, c) <==> 2 * n < lo + hi
    ensures 2 * Lsh(n, c) > Lsh(lo, c) + Lsh(hi, c) <==> 2 * n > lo + hi
  {
    LshMono(lo, n, c);
    LshMono(n, hi, c);
    CancelSum(n, n, lo, hi, c);
    CancelSum(lo, hi, n, n, c);
  }

  lemma {:induction false} CancelSum(x: nat, y: nat, z: nat, w: nat, c: nat)
    ensures Lsh(x, c) + Lsh(y, c) < Lsh(z, c) + Lsh(w, c) <==> x + y < z + w
  {
    LshSum(x, y, c);
    LshSum(z, w, c);
    LshMono(x + y, z + w, c);
  }

  /** The rounding step shared by the routines.  The exact magnitude is n / 2^d quanta.  x carries
      k >= 2 bits below the last place of the binade with exponent e, and stands for the magnitude
      in units of 2^(e - k), up to a common scaling by 2^c.  Packing x >> k and rounding on the low
      bits of x gives the nearest float. */
  lemma {:induction false} RoundSticky(f: Format, e: nat, x: nat, k: nat, n: nat, d: nat, c: nat)
    requires k >= 2 && e + d + c >= k
    requires Sticky(x, Lsh(n, c), e + d + c - k)
    requires Shr(x, k) < 2 * Pow2(f.p) && (e == 0 || Shr(x, k) >= Pow2(f.p))
    requires Lsh(e, f.p) + Shr(x, k) < f.Inf()
    ensures Nearest(f, TieEven(Lsh(e, f.p) + Shr(x, k), Low(x, k), Pow2(k - 1)), n, Pow2(d))
  {
    var q := Shr(x, k);
    StickyCompareScaled(x, n, e + d, c, k);
    LshLsh(q, e, d);
    LshLsh(q + 1, e, d);
    LshTimes(Lsh(q, e), d);
    LshTimes(Lsh(q + 1, e), d);
    NearestInBinade(f, e, q, n, Pow2(d));
    TieEvenAgrees(Lsh(e, f.p) + q, Low(x, k), Pow2(k - 1), 2 * n, Lsh(q, e) * Pow2(d) + Lsh(q + 1, e) * Pow2(d));
  }
}
