/** The pages of the ASan heap: what GetNewChunks() of lib/asan/asan_allocator.cc maps, and how it carves
the pages up.  All of it follows from the address that mmap returns and the size class. */
module AsanPages {
  import opened Bits
  import Shadow
  import opened AsanSizes
  import opened AsanChunks
  import opened AsanLayout
  import opened Partition

  const MIN_MMAP := 0x40_0000           // kMinMmapSize

  /** Behind the chunks: the place of one more small chunk, or a page. */
  function Spare(sizeClass: nat): nat
  {
    if SizeClassToSize(sizeClass) < PAGE then SizeClassToSize(sizeClass) else PAGE
  }

  /** The bytes that chunks of the class, and behind them the PageGroup record, are mapped in. */
  function MapBytes(sizeClass: nat): nat
  {
    var size := SizeClassToSize(sizeClass);
    (if size > MIN_MMAP then size else MIN_MMAP) + (if size < PAGE then 0 else PAGE)
  }

  function MapCount(sizeClass: nat): nat { (MapBytes(sizeClass) - Spare(sizeClass)) / SizeClassToSize(sizeClass) }

  ghost predicate MapFits(sizeClass: nat, n: nat)
  {
    && n > 0 && n * SizeClassToSize(sizeClass) + Spare(sizeClass) == MapBytes(sizeClass)
    && MapBytes(sizeClass) >= MIN_MMAP && IsAligned(MapBytes(sizeClass), 12) && Spare(sizeClass) >= RECORD_SIZE
  }

  /** Chunks fill the mapping but for the spare room, which takes the record. */
  lemma {:induction false} MapNumbers(sizeClass: nat)
    requires 6 <= sizeClass
    ensures MapFits(sizeClass, MapCount(sizeClass))
  {
    hide SizeClassToSize, Spare, MapBytes, IsAligned;
    if sizeClass <= 22 { SmallMap(sizeClass); } else { LargeMap(sizeClass); }
  }

  lemma {:induction false} SmallMap(sizeClass: nat)
    requires 6 <= sizeClass <= 22
    ensures MapFits(sizeClass, MapCount(sizeClass))
  {
    hide IsAligned;
    Constants();
    SmallNumbers(sizeClass);
    AlignedPower(12, 12);
    AlignedSum(Pow2(22), PAGE, 12);
    var size := SizeClassToSize(sizeClass);
    var n := Pow2(22) / size;
    if size < PAGE {
      DivModUnique((n - 1) * size, size, n - 1, 0);
    } else {
      DivModUnique(n * size, size, n, 0);
    }
  }

  lemma {:induction false} LargeMap(sizeClass: nat)
    requires 22 < sizeClass
    ensures MapFits(sizeClass, MapCount(sizeClass))
  {
    hide IsAligned;
    Constants();
    var size := SizeClassToSize(sizeClass);
    ClassAligned(sizeClass, 22);
    ClassAligned(sizeClass, 12);
    AlignedPower(12, 12);
    AlignedSum(size, PAGE, 12);
    DivModUnique(size, size, 1, 0);
  }

  lemma {:induction false} SmallNumbers(k: nat)
    requires 6 <= k <= 22
    ensures Pow2(22) / Pow2(k) * Pow2(k) == Pow2(22) && Pow2(22) / Pow2(k) > 0 && Pow2(k) <= Pow2(22) && Pow2(k) >= 64
    ensures Pow2(k) < Pow2(12) ==> Pow2(22) / Pow2(k) > 1
    ensures Pow2(22) / Pow2(k) > 1 ==> (Pow2(22) / Pow2(k) - 1) * Pow2(k) + Pow2(k) == Pow2(22)
    ensures IsAligned(Pow2(22), 12)
  {
    AlignedPower(22, 12);
    assert Pow2(6) == 64;
    PowerQuotient(22 - k, k, 22);
    Pow2Mono(k, 22);
    Pow2Mono(6, k);
    if k >= 12 { Pow2Mono(12, k); } else { Pow2Mono(1, 22 - k); }
  }

  lemma {:induction false} PowerQuotient(j: nat, k: nat, n: nat)
    requires n == j + k
    ensures Pow2(n) / Pow2(k) == Pow2(j) && Pow2(j) * Pow2(k) == Pow2(n) && (Pow2(j) - 1) * Pow2(k) + Pow2(k) == Pow2(n)
  {
    Pow2Sum(j, k);
    DivModUnique(Pow2(n), Pow2(k), Pow2(j), 0);
    Distrib(Pow2(j) - 1, 1, Pow2(k));
  }

  function NewChunks(order: seq<nat>, sizeClass: nat): Chunks
  {
    map a | a in order :: Chunk(Available, sizeClass, 0, 0)
  }

  /** The chunks carved out of the pages at mem, as the loop at line 554 links them up. */
  function RowOf(mem: nat, sizeClass: nat): seq<nat>
  {
    Row(mem, SizeClassToSize(sizeClass), MapCount(sizeClass))
  }

  /** And their PageGroup. */
  function GroupOf(mem: nat, sizeClass: nat): Group
  {
    var size, n := SizeClassToSize(sizeClass), MapCount(sizeClass);
    Group(mem, mem + MapBytes(sizeClass), size, if n == 0 then mem else mem + Times(n - 1, size), mem + Times(n, size))
  }

  lemma {:induction false} MultipleAligned(n: nat, size: nat, k: nat)
    requires IsAligned(size, k)
    ensures IsAligned(n * size, k)
  {
    if n == 0 {
      LowZero(k);
    } else {
      MultipleAligned(n - 1, size, k);
      Distrib(n - 1, 1, size);
      AlignedSum((n - 1) * size, size, k);
    }
  }

  /** Chunks of the class from a page on are aligned to their size, or at least to pages. */
  lemma {:induction false} RowAligned(rz: nat, mem: nat, sizeClass: nat, n: nat)
    requires rz < sizeClass && rz <= 12 && IsAligned(mem, 12)
    ensures forall a :: a in Row(mem, SizeClassToSize(sizeClass), n) ==> IsAligned(a, rz) && IsAligned(a, Grain(sizeClass))
  {
    hide IsAligned, SizeClassToSize, Pow2;
    var size, grain := SizeClassToSize(sizeClass), Grain(sizeClass);
    var r := Row(mem, size, n);
    ClassAligned(sizeClass, grain);
    AlignedCoarser(mem, grain, 12 - grain);
    forall j | 0 <= j < n ensures IsAligned(r[j], rz) && IsAligned(r[j], grain) {
      RowAt(mem, size, n, j);
      MultipleAligned(n - 1 - j, size, grain);
      AlignedSum(mem, (n - 1 - j) * size, grain);
      AlignedCoarser(r[j], rz, grain - rz);
    }
  }

  /** What the loop of GetNewChunks() makes of a mapping. */
  ghost predicate Carving(rz: nat, g: Group, carved: Chunks, order: seq<nat>, sizeClass: nat)
  {
    && CarvedOk(rz, carved, g) && (forall a :: a in carved ==> carved[a].sizeClass == sizeClass)
    && NoDuplicates(order) && order != [] && (forall a: nat :: a in order <==> a in carved)
  }

  lemma {:induction false} PageGranule(mem: nat)
    requires IsAligned(mem, 12)
    ensures Shadow.Aligned(mem)
  {
    AlignedCoarser(mem, 3, 9);
    ShiftMeaning(mem, 3);
    assert Pow2(3) == 8;
  }

  lemma {:induction false} PagesCarved(rz: nat, mem: nat, sizeClass: nat)
    requires 5 <= rz <= 12 && rz < sizeClass < CLASSES && IsAligned(mem, 12)
    ensures Carving(rz, GroupOf(mem, sizeClass), NewChunks(RowOf(mem, sizeClass), sizeClass), RowOf(mem, sizeClass), sizeClass)
  {
    hide IsAligned, SizeClassToSize, MapCount, MapBytes, Spare, Row;
    MapNumbers(sizeClass);
    PageGranule(mem);
    SizePositive(Chunk(Available, sizeClass, 0, 0));
    RowApart(mem, SizeClassToSize(sizeClass), MapCount(sizeClass));
    RowAligned(rz, mem, sizeClass, MapCount(sizeClass));
    MulSign(MapCount(sizeClass), SizeClassToSize(sizeClass));
    RowFront(mem, SizeClassToSize(sizeClass), MapCount(sizeClass));
  }
}
