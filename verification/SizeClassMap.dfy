/** DefaultSizeClassMap of lib/sanitizer_common/sanitizer_allocator64.h.

The class sizes are five stretches of arithmetic progressions: stretch i starts at l_i, a power of two,
and climbs by s_i, a power of two that divides it. */
module SizeClassMap {
  import opened Bits
  import opened AsanSizes

  const NUM_CLASSES := 256
  const MAX_SIZE := 0x20_0000
  const WORD := 0x1_0000_0000_0000_0000

  function Size(class_id: nat): nat
  {
    if class_id <= 31 then 16 + 16 * class_id
    else if class_id <= 87 then 512 + 64 * (class_id - 31)
    else if class_id <= 143 then 4096 + 512 * (class_id - 87)
    else if class_id <= 199 then 0x8000 + 4096 * (class_id - 143)
    else if class_id <= 255 then 0x4_0000 + 0x8000 * (class_id - 199)
    else 0
  }

  /** uptr arithmetic: sizes below 16 wrap down and up again, 0 does not come back. */
  function ClassID(size: nat): nat
    requires size < WORD
  {
    if size <= 512 then ((size + WORD - 16) % WORD + 15) % WORD / 16
    else if size <= 4096 then 31 + (size - 512 + 63) / 64
    else if size <= 0x8000 then 87 + (size - 4096 + 511) / 512
    else if size <= 0x4_0000 then 143 + (size - 0x8000 + 4095) / 4096
    else if size <= MAX_SIZE then 199 + (size - 0x4_0000 + 0x7fff) / 0x8000
    else 0
  }

  function MaxCached(class_id: nat): nat
  {
    if class_id <= 31 then 256
    else if class_id <= 87 then 64
    else if class_id <= 143 then 16
    else if class_id <= 199 then 4
    else if class_id <= 255 then 1
    else 0
  }

  /** Classes and sizes are inverse to each other. */
  lemma {:induction false} ClassOfSize(c: nat)
    requires c < NUM_CLASSES
    ensures ClassID(Size(c)) == c && Size(c) <= MAX_SIZE
    ensures c < NUM_CLASSES - 1 ==> ClassID(Size(c) + 1) == c + 1
    ensures ClassID(Size(c) - 1) == c
    ensures c > 0 ==> Size(c - 1) < Size(c)
  {
    if c <= 31 {
      SmallClass(16 + 16 * c);
      SmallClass(15 + 16 * c);
      if c < 31 { SmallClass(17 + 16 * c); }
    }
  }

  lemma {:induction false} SmallClass(size: nat)
    requires 1 <= size <= 512
    ensures ClassID(size) == (size - 1) / 16
  {
  }

  lemma {:induction false} SizesClimb(c: nat, d: nat)
    requires c < d < NUM_CLASSES
    ensures Size(c) < Size(d)
  {
    if c < d - 1 {
      SizesClimb(c, d - 1);
    }
    ClassOfSize(d);
  }

  /** The class of a size is the smallest that holds it. */
  lemma {:induction false} LeastClass(size: nat)
    requires 1 <= size <= MAX_SIZE
    ensures var c := ClassID(size);
      c < NUM_CLASSES && Size(c) >= size && (c > 0 ==> Size(c - 1) < size)
    ensures forall d: nat :: d < NUM_CLASSES && Size(d) >= size ==> ClassID(size) <= d
  {
    var c := ClassID(size);
    ClassBounds(size);
    forall d: nat | d < NUM_CLASSES && Size(d) >= size ensures c <= d {
      if d < c - 1 { SizesClimb(d, c - 1); }
    }
  }

  lemma {:induction false} ClassBounds(size: nat)
    requires 1 <= size <= MAX_SIZE
    ensures var c := ClassID(size);
      c < NUM_CLASSES && Size(c) >= size && (c > 0 ==> Size(c - 1) < size)
  {
    if size <= 512 { SmallClass(size); }
  }

  // ----- Alignment

  /** size rounded up from l in steps of 1 << t. */
  lemma {:induction false} StretchAligned(l: nat, t: nat, n: nat, size: nat, k: nat)
    requires IsAligned(l, t) && IsAligned(size, k) && l <= size <= l + n * Pow2(t) < size + Pow2(t)
    ensures IsAligned(l + n * Pow2(t), k)
  {
    var x := l + n * Pow2(t);
    LshTimes(n, t);
    SplitUnique(n, 0, t);
    AlignedSum(l, n * Pow2(t), t);
    if k <= t {
      AlignedCoarser(x, k, t - k);
    } else {
      AlignedCoarser(size, t, k - t);
      AlignedSum(x, size, t);
      SplitSmall(x - size, t);
    }
  }

  lemma {:induction false} Steps()
    ensures Pow2(4) == 16 && Pow2(6) == 64 && Pow2(9) == 512 && Pow2(12) == 4096 && Pow2(15) == 0x8000
  {
    Pow2Sum(6, 6);
    Pow2Sum(6, 9);
    assert Pow2(6) == 64;
    assert Pow2(9) == 8 * Pow2(6);
  }

  lemma {:induction false} StretchStart(l: nat, j: nat, t: nat)
    requires l == Pow2(j) && t <= j
    ensures IsAligned(l, t)
  {
    AlignedPower(j, t);
  }

  /** A size that is a multiple of a power of two gets a class size that is one too. */
  lemma {:induction false} AlignmentKept(size: nat, k: nat)
    requires 1 <= size <= MAX_SIZE && IsAligned(size, k) && k >= 4
    ensures IsAligned(Size(ClassID(size)), k)
  {
    Steps();
    ClassBounds(size);
    var c := ClassID(size);
    if size <= 512 {
      SmallClass(size);
      AlignedCoarser(size, 4, k - 4);
      AtLeastPower(size, k, 4);
      AlignedPower(4, 4);
      StretchAligned(16, 4, c, size, k);
    } else if size <= 4096 {
      StretchStart(512, 9, 6);
      StretchAligned(512, 6, c - 31, size, k);
    } else if size <= 0x8000 {
      StretchStart(4096, 12, 9);
      StretchAligned(4096, 9, c - 87, size, k);
    } else if size <= 0x4_0000 {
      StretchStart(0x8000, 15, 12);
      StretchAligned(0x8000, 12, c - 143, size, k);
    } else {
      Constants();
      assert 0x4_0000 == Pow2(18) by { Pow2Sum(9, 9); }
      StretchStart(0x4_0000, 18, 15);
      StretchAligned(0x4_0000, 15, c - 199, size, k);
    }
  }

  lemma {:induction false} AtLeastPower(size: nat, k: nat, t: nat)
    requires size > 0 && IsAligned(size, t)
    ensures size >= Pow2(t)
  {
    if size < Pow2(t) { SplitSmall(size, t); }
  }

  /** Half of what a full cache holds is at least one chunk. */
  lemma {:induction false} CachesHold(class_id: nat)
    requires class_id < NUM_CLASSES
    ensures MaxCached(class_id) >= 1 && MaxCached(class_id) * Size(class_id) <= MAX_SIZE
  {
  }
}
