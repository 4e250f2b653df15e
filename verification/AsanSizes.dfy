/** The size arithmetic of lib/asan/asan_allocator.cc.

Boundaries are powers of two and are given by their logarithms: rz is the logarithm of REDZONE. */
module AsanSizes {
  import opened Bits

  const STEP_LOG := 26           // kMallocSizeClassStepLog
  const STEP := 0x400_0000       // kMallocSizeClassStep
  const CLASSES := 255           // kNumberOfSizeClasses
  const MAX_ALLOWED := 0x2_0000_0000  // kMaxAllowedMallocSize
  const PAGE := 4096

  lemma {:induction false} Constants()
    ensures Pow2(STEP_LOG) == STEP && Pow2(33) == MAX_ALLOWED && Pow2(12) == PAGE && Pow2(22) == 0x40_0000
  {
    WordSizes();
    assert Pow2(23) == 2 * Pow2(22);
    assert Pow2(26) == 2 * Pow2(25) == 4 * Pow2(24) == 8 * Pow2(23);
    assert Pow2(33) == 2 * Pow2(32);
    Pow2Sum(6, 6);
    assert Pow2(6) == 64;
  }

  /** IsAligned(x, 1 << k). */
  predicate IsAligned(x: nat, k: nat) { Low(x, k) == 0 }

  /** RoundUpTo(x, 1 << k): `(x + boundary - 1) & ~(boundary - 1)`. */
  function RoundUp(x: nat, k: nat): nat { Lsh(Shr(x + Pow2(k) - 1, k), k) }

  /** The least multiple that is no smaller. */
  lemma {:induction false} RoundUpLeast(x: nat, k: nat)
    ensures x <= RoundUp(x, k) < x + Pow2(k) && IsAligned(RoundUp(x, k), k)
    ensures forall y: nat :: IsAligned(y, k) && x <= y ==> RoundUp(x, k) <= y
  {
    var q := Shr(x + Pow2(k) - 1, k);
    Split(x + Pow2(k) - 1, k);
    SplitUnique(q, 0, k);
    forall y: nat | IsAligned(y, k) && x <= y ensures RoundUp(x, k) <= y {
      Split(y, k);
      LshMono(q, Shr(y, k), k);
      LshMono(Shr(y, k), q, k);
    }
  }

  lemma {:induction false} AlignedSum(x: nat, y: nat, k: nat)
    requires IsAligned(x, k) && IsAligned(y, k)
    ensures IsAligned(x + y, k)
    ensures y <= x ==> IsAligned(x - y, k)
  {
    Split(x, k);
    Split(y, k);
    LshSum(Shr(x, k), Shr(y, k), k);
    SplitUnique(Shr(x, k) + Shr(y, k), 0, k);
    if y <= x {
      LshMono(Shr(y, k), Shr(x, k), k);
      LshDiff(Shr(x, k), Shr(y, k), k);
      SplitUnique(Shr(x, k) - Shr(y, k), 0, k);
    }
  }

  lemma {:induction false} AlignedCoarser(x: nat, j: nat, k: nat)
    requires IsAligned(x, j + k)
    ensures IsAligned(x, j)
  {
    LowLow(x, j, k);
    LowZero(j);
  }

  lemma {:induction false} AlignedPower(j: nat, k: nat)
    requires k <= j
    ensures IsAligned(Pow2(j), k) && IsAligned(0, k)
  {
    LshPow2(j - k, k);
    SplitUnique(Pow2(j - k), 0, k);
    LowZero(k);
  }

  lemma {:induction false} AlignedRounds(x: nat, k: nat)
    requires IsAligned(x, k)
    ensures RoundUp(x, k) == x
    ensures RoundUp(x + 1, k) == x + Pow2(k)
  {
    RoundUpLeast(x, k);
    RoundUpLeast(x + 1, k);
    AlignedPower(k, k);
    AlignedSum(x, Pow2(k), k);
    AlignedSum(RoundUp(x + 1, k), x, k);
    SplitSmall(RoundUp(x + 1, k) - x, k);
  }

  // ----- Size classes

  /** RoundUpToPowerOfTwo(). */
  function RoundUpToPowerOfTwo(size: nat): nat
    requires size > 0
  {
    if And(size, size - 1) == 0 then size else Pow2(BitLen(size))
  }

  function SizeClassToSize(sizeClass: nat): nat
  {
    if sizeClass <= STEP_LOG then Pow2(sizeClass) else (sizeClass - STEP_LOG) * STEP
  }

  /** SizeToSizeClass(). */
  function SizeToSizeClass(size: nat): nat
    requires size > 0
  {
    if size <= STEP then Ctz(RoundUpToPowerOfTwo(size))
    else (size + STEP - 1) / STEP + STEP_LOG
  }

  lemma {:induction false} CtzPower(k: nat)
    ensures Ctz(Pow2(k)) == k
  {
    if k > 0 {
      CtzPower(k - 1);
      assert Pow2(k) == 2 * Pow2(k - 1);
    }
  }

  /** The CHECKs of RoundUpToPowerOfTwo(): its result is the least power of two that is no smaller. */
  lemma {:induction false} PowerLeast(size: nat)
    requires size > 0
    ensures var k := Ctz(RoundUpToPowerOfTwo(size));
      RoundUpToPowerOfTwo(size) == Pow2(k) >= size && (k > 0 ==> Pow2(k - 1) < size)
  {
    PowerTest(size);
    CtzPower(BitLen(size));
    BitLenBounds(size);
    if And(size, size - 1) != 0 {
      CtzPower(BitLen(size) - 1);
    }
  }

  /** Classes 26 and 27 have the same size; all others differ. */
  lemma {:induction false} SizesGrow(c: nat, d: nat)
    requires c < d
    ensures SizeClassToSize(c) <= SizeClassToSize(d)
    ensures SizeClassToSize(c) == SizeClassToSize(d) <==> c == STEP_LOG && d == STEP_LOG + 1
  {
    Constants();
    if d <= STEP_LOG {
      Pow2Mono(c, d);
    } else if c <= STEP_LOG {
      Pow2Mono(c, STEP_LOG);
    }
  }

  /** The class chosen is the least whose size suffices, and both CHECKs of SizeToSizeClass() hold. */
  lemma {:induction false} LeastClass(size: nat)
    requires 0 < size <= MAX_ALLOWED
    ensures var c := SizeToSizeClass(size);
      c < CLASSES && size <= SizeClassToSize(c) && (c > 0 ==> SizeClassToSize(c - 1) < size)
    ensures forall d: nat :: size <= SizeClassToSize(d) ==> SizeToSizeClass(size) <= d
  {
    var c := SizeToSizeClass(size);
    Constants();
    if size <= STEP {
      PowerLeast(size);
      if c > STEP_LOG { Pow2Mono(STEP_LOG, c - 1); }
    }
    forall d: nat | size <= SizeClassToSize(d) ensures c <= d {
      if d < c - 1 { SizesGrow(d, c - 1); }
    }
  }

  /** Sizes of classes from k up are multiples of 1 << k. */
  lemma {:induction false} ClassAligned(c: nat, k: nat)
    requires k <= c && k <= STEP_LOG
    ensures IsAligned(SizeClassToSize(c), k) && SizeClassToSize(c) >= Pow2(k)
  {
    if c <= STEP_LOG {
      AlignedPower(c, k);
      Pow2Mono(k, c);
    } else {
      Constants();
      Pow2Mono(k, STEP_LOG);
      var n := c - STEP_LOG;
      LshTimes(n, STEP_LOG);
      SplitUnique(n, 0, STEP_LOG);
      AlignedCoarser(n * STEP, k, STEP_LOG - k);
    }
  }

  /** The logarithm of what chunks of a class are aligned to: their size, as far as pages are. */
  function Grain(sizeClass: nat): nat { if sizeClass < 12 then sizeClass else 12 }

  // ----- Where the user's memory starts

  /** ChunkBase::Beg(): `RoundUpTo(this + 1, 1 << alignment_log)`. */
  function Beg(m: nat, alignLog: nat): nat { RoundUp(m + 1, alignLog) }

  /** Allocate(): the first address past the redzone with the alignment asked for; align is absent
      when the alignment argument is 0. */
  function Placed(m: nat, rz: nat, al: nat): nat
  {
    if al > rz && !IsAligned(m + Pow2(rz), al) then RoundUp(m + Pow2(rz), al) else m + Pow2(rz)
  }

  /** The alignment_log that Allocate() records. */
  function PlacedLog(m: nat, rz: nat, al: nat): nat
  {
    if al > rz && !IsAligned(m + Pow2(rz), al) then al else rz
  }

  /** CHECK(m->Beg() == addr): the address can be computed back from the chunk, and it leaves room for
      the redzone below it. */
  lemma {:induction false} BegIsPlaced(m: nat, rz: nat, al: nat)
    requires IsAligned(m, rz)
    ensures Beg(m, PlacedLog(m, rz, al)) == Placed(m, rz, al)
    ensures m + Pow2(rz) <= Placed(m, rz, al) && IsAligned(Placed(m, rz, al), rz)
    ensures if al > rz then IsAligned(Placed(m, rz, al), al) && Placed(m, rz, al) < m + Pow2(rz) + Pow2(al)
      else Placed(m, rz, al) == m + Pow2(rz)
  {
    var z := m + Pow2(rz);
    AlignedPower(rz, rz);
    AlignedSum(m, Pow2(rz), rz);
    AlignedRounds(m, rz);
    if al > rz && !IsAligned(z, al) {
      var a := RoundUp(z, al);
      RoundUpLeast(z, al);
      RoundUpLeast(m + 1, al);
      AlignedCoarser(a, rz, al - rz);
      var b := RoundUp(m + 1, al);
      AlignedCoarser(b, rz, al - rz);
      // b is a multiple of the redzone above m, so not below z
      RoundUpLeast(m + 1, rz);
      assert RoundUp(m + 1, rz) == z;
    } else if al > rz {
      RoundUpLeast(z, al);
    }
  }
}
