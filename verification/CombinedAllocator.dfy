/** CombinedAllocator of lib/sanitizer_common/sanitizer_allocator64.h: small blocks from size classes
through a thread's cache, the rest from mmap. */
module CombinedAllocator {
  import opened Bits
  import opened AsanSizes
  import opened Options
  import opened SizeClassMap
  import opened SizeClassRuns
  import opened SizeClassState
  import opened SizeClassAllocator
  import opened LargeAllocator

  /** A multiple of an aligned number is aligned. */
  lemma {:induction false} AlignedMultiple(n: nat, size: nat, k: nat)
    requires size > 0 && n % size == 0 && IsAligned(size, k)
    ensures IsAligned(n, k)
  {
    Split(size, k);
    DivMod(n, size);
    LshMul(n / size, 0, Shr(size, k), k);
    assert Lsh(n / size, 0) == n / size;
    SplitUnique(n / size * Shr(size, k), 0, k);
  }

  /** The chunks of a class are aligned as far as its size is. */
  lemma {:induction false} ChunkAligned(cfg: Config, user: seq<nat>, p: nat, k: nat)
    requires cfg.Valid() && |user| == NUM_CLASSES && Starts(cfg, user, p) && k <= cfg.r
    requires IsAligned(Size(cfg.ClassOf(p)), k)
    ensures IsAligned(p, k)
  {
    PartsRegion(cfg, p);
    var c := cfg.ClassOf(p);
    AlignedMultiple(cfg.Offset(p), Size(c), k);
    var beg := cfg.RegionBeg(c);
    SplitUnique(256 * cfg.space + c, 0, cfg.r);
    AlignedCoarser(beg, k, cfg.r - k);
    AlignedSum(beg, cfg.Offset(p), k);
  }

  /** `if (alignment > 8) size = RoundUpTo(size, alignment)`. */
  function Rounded(size: nat, al: nat): nat { if al > 3 then RoundUp(size, al) else size }

  lemma {:induction false} RoundedFits(size: nat, al: nat)
    requires 1 <= size && al < 64
    ensures size <= Rounded(size, al) < size + Pow2(al)
    ensures al > 3 ==> IsAligned(Rounded(size, al), al)
  {
    Pow2Mono(0, al);
    RoundUpLeast(size, al);
  }

  /** CanAllocate(): alignments up to the largest class size. */
  lemma {:induction false} SmallAlignment(al: nat)
    requires al < 64
    ensures Pow2(al) <= MAX_SIZE <==> al <= 21
  {
    Constants();
    assert Pow2(22) == 2 * Pow2(21);
    if al <= 21 { Pow2Mono(al, 21); } else { Pow2Mono(22, al); }
  }

  /** The class chosen for a small block is big enough, and CHECK_EQ(res & (alignment - 1), 0) holds. */
  lemma {:induction false} SmallBlock(cfg: Config, user: seq<nat>, p: nat, size: nat, al: nat)
    requires cfg.Valid() && |user| == NUM_CLASSES && Starts(cfg, user, p) && 1 <= size && al <= 21
    requires Rounded(size, al) <= MAX_SIZE && cfg.ClassOf(p) == ClassID(Rounded(size, al))
    ensures size <= Rounded(size, al) <= Size(cfg.ClassOf(p))
    ensures IsAligned(p, al)
  {
    var rounded := Rounded(size, al);
    RoundedFits(size, al);
    SizeClassMap.LeastClass(rounded);
    if al > 3 {
      AlignmentKept(rounded, al);
      ChunkAligned(cfg, user, p, al);
    } else {
      SixteenAligned(cfg.ClassOf(p));
      ChunkAligned(cfg, user, p, 4);
      AlignedCoarser(p, al, 4 - al);
    }
  }

  lemma {:induction false} SixteenAligned(c: nat)
    requires c < NUM_CLASSES
    ensures IsAligned(Size(c), 4)
  {
    Steps();
    ShiftMeaning(Size(c), 4);
  }

  datatype Block = Null | Small(p: nat) | Large(p: nat)

  class Combined {
    const primary: Primary
    const secondary: LargeMmapAllocator

    constructor (primary: Primary, secondary: LargeMmapAllocator)
      ensures this.primary == primary && this.secondary == secondary
    {
      this.primary := primary;
      this.secondary := secondary;
    }

    /** lib/sanitizer_common/sanitizer_allocator64.h:487-506, the alignment being 1 << al.  When the
        process does not die (ok), nothing is returned exactly when the size overflows; a small block
        comes from the least class that is big enough; and every block is aligned. */
    method Allocate(thread: nat, requested: nat, al: nat, os: Os) returns (ok: bool, r: Block)
      requires primary.Valid() && secondary.Valid() && GoodOs(os) && requested < WORD && al < 64
      modifies primary, secondary
      ensures ok ==> primary.Valid() && secondary.Valid()
      ensures ok ==> var size := if requested == 0 then 1 else requested;
        && (r.Null? <==> size + Pow2(al) >= WORD || (TooLarge(size, al) && TrueMapSize(Rounded(size, al), al) >= WORD))
        && (r.Small? <==> size + Pow2(al) < WORD && !TooLarge(size, al))
      ensures !ok ==> var size := if requested == 0 then 1 else requested;
        if TooLarge(size, al) then Fails(os, old(secondary.list), TrueMapSize(Rounded(size, al), al))
        else ClassID(Rounded(size, al)) < NUM_CLASSES && old(primary.Dry(ClassID(Rounded(size, al))))
      ensures ok && r.Small? ==>
        SmallGrant(primary.cfg, old(primary.where), primary.where, primary.user, r.p, if requested == 0 then 1 else requested, al)
      ensures ok && r.Small? ==>
        CacheTook(old(primary.lists), old(primary.Stock(primary.cfg.ClassOf(r.p))), primary.lists, thread, primary.cfg.ClassOf(r.p), r.p)
      ensures ok && !r.Small? ==> primary.lists == old(primary.lists) && primary.where == old(primary.where)
      ensures ok && !r.Large? ==> secondary.list == old(secondary.list)
      ensures ok && r.Large? ==>
        LargeGrant(old(secondary.list), secondary.list, r.p, if requested == 0 then 1 else requested, al)
    {
      hide Fails, Primary.Dry, RoundUp, Starts, Reached, Owned, CachesOk, HandedOut, TrueMapSize, Config.ClassOf, ClassID, IsAligned;
      hide SmallGrant, ListOk, Size;
      primary.Known();
      Shape(primary.cfg, primary.lists, primary.where, primary.user, primary.meta);
      var size := if requested == 0 then 1 else requested;
      if (size + Pow2(al)) % WORD < size {
        SumOverflows(size, al);
        return true, Null;
      }
      SumOverflows(size, al);
      RoundedFits(size, al);
      SmallAlignment(al);
      var rounded := Rounded(size, al);
      if rounded <= MAX_SIZE && Pow2(al) <= MAX_SIZE {
        SizeClassMap.LeastClass(rounded);
        ghost var before := primary.where;
        var p;
        ok, p := primary.CacheAllocate(thread, ClassID(rounded));
        r := Small(p);
        if ok {
          SmallGranted(primary.cfg, before, primary.where, primary.user, p, size, al);
        }
      } else {
        var res;
        ok, res := secondary.Allocate(rounded, al, os);
        r := match res case None => Null case Some(p) => Large(p);
      }
    }

    /** Deallocate(): the address tells which of the two a block is from. */
    method Deallocate(thread: nat, p: nat, ghost k: nat)
      requires primary.Valid() && secondary.Valid()
      requires p != 0 ==> if primary.cfg.Mine(p) then p in primary.where && primary.where[p] == InUse
        else k < |secondary.list| && secondary.list[k].user == p
      modifies primary, secondary
      ensures primary.Valid() && secondary.Valid()
      ensures p != 0 && primary.cfg.Mine(p) ==> TakenBack(old(primary.where), primary.where, p)
      ensures p != 0 && primary.cfg.Mine(p) ==>
        CacheGave(old(primary.lists), primary.lists, thread, primary.cfg.ClassOf(p), p)
      ensures p == 0 || primary.cfg.Mine(p) ==> secondary.list == old(secondary.list)
      ensures p == 0 || !primary.cfg.Mine(p) ==> primary.lists == old(primary.lists)
      ensures p != 0 && !primary.cfg.Mine(p) ==>
        secondary.list == old(secondary.list[..k] + secondary.list[k + 1..]) && primary.where == old(primary.where)
    {
      hide Reached, CachesOk, TakenBack, ListOk;
      if p == 0 {
        return;
      }
      if primary.cfg.Mine(p) {
        primary.CacheDeallocate(thread, p);
      } else {
        secondary.Deallocate(p, k);
      }
    }
  }

  /** Not for the size classes. */
  predicate TooLarge(size: nat, al: nat) { !(Rounded(size, al) <= MAX_SIZE && Pow2(al) <= MAX_SIZE) }

  lemma {:induction false} SumOverflows(size: nat, al: nat)
    requires 1 <= size < WORD && al < 64
    ensures (size + Pow2(al)) % WORD < size <==> size + Pow2(al) >= WORD
  {
    AlignmentRange(al);
    WrapOnce(size + Pow2(al));
  }

  /** A chunk that was free, of the least class that holds the rounded size, aligned as asked. */
  ghost predicate SmallGrant(cfg: Config, where: Places, where': Places, user: seq<nat>, p: nat, size: nat, al: nat)
    requires 1 <= size < WORD && al < 64
  {
    && HandedOut(cfg, where, where', user, p, cfg.ClassOf(p))
    && size <= Rounded(size, al) <= Size(cfg.ClassOf(p)) && IsAligned(p, al)
    && forall d: nat :: d < NUM_CLASSES && Rounded(size, al) <= Size(d) ==> cfg.ClassOf(p) <= d
  }

  lemma {:induction false} SmallGranted(cfg: Config, where: Places, where': Places, user: seq<nat>, p: nat, size: nat, al: nat)
    requires cfg.Valid() && 1 <= size < WORD && al <= 21 && Rounded(size, al) <= MAX_SIZE
    requires HandedOut(cfg, where, where', user, p, ClassID(Rounded(size, al)))
    ensures SmallGrant(cfg, where, where', user, p, size, al)
  {
    SmallBlock(cfg, user, p, size, al);
    RoundedFits(size, al);
    SizeClassMap.LeastClass(Rounded(size, al));
  }

  /** A new mapping of its own, with a page for the header and room for the alignment. */
  ghost predicate LargeGrant(list: seq<Header>, list': seq<Header>, p: nat, size: nat, al: nat)
    requires 1 <= size && al < 64
  {
    && |list'| == |list| + 1 && list'[1..] == list && list'[0].user == p == RoundUp(list'[0].map_beg + PAGE, al)
    && size <= list'[0].size == Rounded(size, al) && IsAligned(p, al)
    && list'[0].map_size == TrueMapSize(Rounded(size, al), al)
  }
}
