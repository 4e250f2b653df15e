/** Where the chunks of lib/asan/asan_allocator.cc lie, and what their shadow says. */
module AsanLayout {
  import opened Bits
  import opened Shadow
  import opened AsanSizes
  import opened AsanChunks

  /** PageGroup; record is its own address, in the part of the mapping that is not carved up. */
  datatype Group = Group(beg: nat, end: nat, sizeOfChunk: nat, last: nat, record: nat)

  /** A chunk that is or was the user's keeps a redzone below his memory, and its size class leaves
      room for both.  Chunks are carved out of pages. */
  ghost predicate ChunkOk(rz: nat, a: nat, c: Chunk)
  {
    && rz < c.sizeClass < CLASSES
    && IsAligned(a, rz) && IsAligned(a, Grain(c.sizeClass))
    && (!c.state.Available? ==>
         && c.used > 0
         && a + Pow2(rz) <= Beg(a, c.alignLog)
         && IsAligned(Beg(a, c.alignLog), rz)
         && Beg(a, c.alignLog) + RoundUp(c.used, rz) <= a + ChunkSize(c))
  }

  ghost predicate ChunksOk(rz: nat, chunks: Chunks)
  {
    && (forall a :: a in chunks ==> ChunkOk(rz, a, chunks[a]))
    && (forall a, b :: a in chunks && b in chunks && a < b ==> a + ChunkSize(chunks[a]) <= b)
  }

  const RECORD_SIZE := 32  // sizeof(PageGroup)

  /** A group has pages, and its record in them. */
  predicate GroupOk(g: Group) { Aligned(g.beg) && g.beg <= g.record && g.record + RECORD_SIZE <= g.end }

  ghost predicate GroupsOk(groups: seq<Group>, limit: nat)
  {
    && (forall i :: 0 <= i < |groups| ==> GroupOk(groups[i]) && groups[i].end <= limit)
    && (forall i, j :: 0 <= i < j < |groups| ==> groups[i].end <= groups[j].beg || groups[j].end <= groups[i].beg)
  }

  /** x lies in a mapped page of the heap. */
  ghost predicate Mapped(groups: seq<Group>, x: nat)
  {
    exists i :: 0 <= i < |groups| && groups[i].beg <= x < groups[i].end
  }

  /** The chunk lies in one group, below its record. */
  ghost predicate Home(groups: seq<Group>, a: nat, c: Chunk)
  {
    exists i :: 0 <= i < |groups| && Contains(groups[i], a, c)
  }

  predicate Contains(g: Group, a: nat, c: Chunk) { g.beg <= a && a + ChunkSize(c) <= g.record <= g.end }

  ghost predicate Housed(groups: seq<Group>, chunks: Chunks)
  {
    forall a {:trigger Home(groups, a, chunks[a])} :: a in chunks ==> Home(groups, a, chunks[a])
  }

  /** x is one of the bytes the user asked for. */
  predicate Live(a: nat, c: Chunk, x: nat)
  {
    c.state.Allocated? && Beg(a, c.alignLog) <= x < Beg(a, c.alignLog) + c.used
  }

  ghost predicate Addressable(chunks: Chunks, x: nat)
  {
    exists a :: a in chunks && Live(a, chunks[a], x)
  }

  /** The byte-exact promise: in the heap's pages, exactly the bytes the user asked for and has not
      freed are unpoisoned. */
  ghost predicate ShadowOk(s: seq<Byte>, chunks: Chunks, groups: seq<Group>)
  {
    forall x: nat {:trigger Mapped(groups, x)} :: Mapped(groups, x) ==>
      InMem(s, x) && (Poisoned(s, x) <==> !Addressable(chunks, x))
  }

  lemma {:induction false} HomeMapped(groups: seq<Group>, a: nat, c: Chunk, x: nat)
    requires Home(groups, a, c) && a <= x < a + ChunkSize(c)
    ensures Mapped(groups, x)
  {
  }

  /** Only the chunk around a byte can make it addressable. */
  lemma {:induction false} OnlyOwner(rz: nat, chunks: Chunks, a: nat, x: nat)
    requires ChunksOk(rz, chunks) && a in chunks && a <= x < a + ChunkSize(chunks[a])
    ensures Addressable(chunks, x) <==> Live(a, chunks[a], x)
  {
    forall b | b in chunks && Live(b, chunks[b], x) ensures b == a {
      LiveInside(rz, b, chunks[b], x);
    }
  }

  lemma {:induction false} LiveInside(rz: nat, a: nat, c: Chunk, x: nat)
    requires ChunkOk(rz, a, c) && Live(a, c, x)
    ensures a + Pow2(rz) <= x < a + ChunkSize(c)
  {
    RoundUpLeast(c.used, rz);
  }

  // ----- One chunk changes

  ghost predicate Repainted(s: seq<Byte>, s': seq<Byte>, a: nat, c: Chunk, size: nat)
  {
    && |s'| == |s|
    && forall x: nat :: InMem(s, x) ==>
         (Poisoned(s', x) <==> if a <= x < a + size then !Live(a, c, x) else Poisoned(s, x))
  }

  lemma {:induction false} ChangeOk(rz: nat, chunks: Chunks, a: nat, c: Chunk)
    requires ChunksOk(rz, chunks) && a in chunks && ChunkOk(rz, a, c) && c.sizeClass == chunks[a].sizeClass
    ensures ChunksOk(rz, chunks[a := c])
  {
  }

  lemma {:induction false} ChangeElsewhere(rz: nat, chunks: Chunks, a: nat, c: Chunk, x: nat)
    requires ChunksOk(rz, chunks) && a in chunks && ChunkOk(rz, a, c) && c.sizeClass == chunks[a].sizeClass
    requires !(a <= x < a + ChunkSize(c))
    ensures Addressable(chunks[a := c], x) <==> Addressable(chunks, x)
  {
    var chunks' := chunks[a := c];
    assert !Live(a, c, x) by { if Live(a, c, x) { LiveInside(rz, a, c, x); } }
    assert !Live(a, chunks[a], x) by { if Live(a, chunks[a], x) { LiveInside(rz, a, chunks[a], x); } }
    if Addressable(chunks, x) {
      var b :| b in chunks && Live(b, chunks[b], x);
      assert Live(b, chunks'[b], x);
    }
    if Addressable(chunks', x) {
      var b :| b in chunks' && Live(b, chunks'[b], x);
      assert Live(b, chunks[b], x);
    }
  }

  lemma {:induction false} ChangeAddressable(rz: nat, chunks: Chunks, a: nat, c: Chunk, x: nat)
    requires ChunksOk(rz, chunks) && a in chunks && ChunkOk(rz, a, c) && c.sizeClass == chunks[a].sizeClass
    ensures Addressable(chunks[a := c], x) <==>
      if a <= x < a + ChunkSize(c) then Live(a, c, x) else Addressable(chunks, x)
  {
    if a <= x < a + ChunkSize(c) {
      ChangeOk(rz, chunks, a, c);
      OnlyOwner(rz, chunks[a := c], a, x);
    } else {
      ChangeElsewhere(rz, chunks, a, c, x);
    }
  }

  /** A chunk changes state and its shadow with it. */
  lemma {:induction false} ChangeShadow(rz: nat, chunks: Chunks, groups: seq<Group>, s: seq<Byte>, s': seq<Byte>, a: nat, c: Chunk)
    requires ChunksOk(rz, chunks) && a in chunks && ChunkOk(rz, a, c) && c.sizeClass == chunks[a].sizeClass
    requires ShadowOk(s, chunks, groups) && Repainted(s, s', a, c, ChunkSize(c))
    ensures |s'| == |s| && ShadowOk(s', chunks[a := c], groups)
  {
    forall x: nat | Mapped(groups, x)
      ensures InMem(s', x) && (Poisoned(s', x) <==> !Addressable(chunks[a := c], x))
    {
      ChangeAddressable(rz, chunks, a, c, x);
    }
  }

  lemma {:induction false} ChangeHoused(rz: nat, chunks: Chunks, groups: seq<Group>, a: nat, c: Chunk)
    requires ChunksOk(rz, chunks) && a in chunks && ChunkOk(rz, a, c) && c.sizeClass == chunks[a].sizeClass
    requires Housed(groups, chunks)
    ensures ChunksOk(rz, chunks[a := c]) && Housed(groups, chunks[a := c])
  {
    var chunks' := chunks[a := c];
    forall b | b in chunks' ensures Home(groups, b, chunks'[b]) {
      assert Home(groups, b, chunks[b]);
    }
  }

  /** The shadow of an available or quarantined chunk says so. */
  lemma {:induction false} AllPoisoned(rz: nat, chunks: Chunks, groups: seq<Group>, s: seq<Byte>, a: nat)
    requires ChunksOk(rz, chunks) && Housed(groups, chunks) && ShadowOk(s, chunks, groups)
    requires a in chunks && !chunks[a].state.Allocated?
    ensures forall x: nat :: a <= x < a + ChunkSize(chunks[a]) ==> InMem(s, x) && Poisoned(s, x)
  {
    forall x: nat | a <= x < a + ChunkSize(chunks[a]) ensures InMem(s, x) && Poisoned(s, x) {
      assert Home(groups, a, chunks[a]);
      HomeMapped(groups, a, chunks[a], x);
      OnlyOwner(rz, chunks, a, x);
    }
  }

  // ----- New pages

  ghost predicate CarvedOk(rz: nat, carved: Chunks, g: Group)
  {
    && ChunksOk(rz, carved)
    && GroupOk(g)
    && (forall a :: a in carved ==> carved[a].state.Available? && Contains(g, a, carved[a]))
  }

  ghost predicate Separate(groups: seq<Group>, g: Group)
  {
    forall i :: 0 <= i < |groups| ==> groups[i].end <= g.beg || g.end <= groups[i].beg
  }

  lemma {:induction false} CarvedApart(rz: nat, chunks: Chunks, groups: seq<Group>, carved: Chunks, g: Group)
    requires ChunksOk(rz, chunks) && Housed(groups, chunks) && Separate(groups, g) && CarvedOk(rz, carved, g)
    ensures forall a :: a in chunks ==> a + ChunkSize(chunks[a]) <= g.beg || g.end <= a
    ensures chunks.Keys !! carved.Keys
    ensures ChunksOk(rz, chunks + carved)
  {
    forall a | a in chunks ensures a + ChunkSize(chunks[a]) <= g.beg || g.end <= a {
      assert Home(groups, a, chunks[a]);
    }
    forall a | a in chunks ensures a !in carved {
      SizePositive(chunks[a]);
    }
    var all := chunks + carved;
    forall a, b | a in all && b in all && a < b ensures a + ChunkSize(all[a]) <= b {
      SizePositive(all[a]);
      SizePositive(all[b]);
    }
  }

  lemma {:induction false} SizePositive(c: Chunk)
    ensures ChunkSize(c) > 0
  {
  }

  lemma {:induction false} CarvedShadow(rz: nat, chunks: Chunks, groups: seq<Group>, carved: Chunks, g: Group,
      s: seq<Byte>, s': seq<Byte>)
    requires ChunksOk(rz, chunks) && Housed(groups, chunks) && Separate(groups, g) && CarvedOk(rz, carved, g)
    requires ShadowOk(s, chunks, groups) && g.beg < g.end <= GRANULARITY * |s|
    requires Painted(s, s', g.beg, g.end - g.beg, HEAP_LEFT_REDZONE)
    ensures |s'| == |s| && ShadowOk(s', chunks + carved, groups + [g])
  {
    CarvedApart(rz, chunks, groups, carved, g);
    var all := chunks + carved;
    forall x: nat | Mapped(groups + [g], x) ensures InMem(s', x) && (Poisoned(s', x) <==> !Addressable(all, x)) {
      CarvedAddressable(rz, chunks, carved, g, x);
      if g.beg <= x < g.end {
      } else {
        assert Mapped(groups, x);
      }
    }
  }

  lemma {:induction false} CarvedAddressable(rz: nat, chunks: Chunks, carved: Chunks, g: Group, x: nat)
    requires ChunksOk(rz, chunks) && chunks.Keys !! carved.Keys
    requires forall a :: a in carved ==> carved[a].state.Available?
    requires forall a :: a in chunks ==> a + ChunkSize(chunks[a]) <= g.beg || g.end <= a
    ensures Addressable(chunks + carved, x) <==> Addressable(chunks, x)
    ensures g.beg <= x < g.end ==> !Addressable(chunks, x)
  {
    var all := chunks + carved;
    if Addressable(chunks, x) {
      var a :| a in chunks && Live(a, chunks[a], x);
      assert all[a] == chunks[a];
      LiveInside(rz, a, chunks[a], x);
    }
    if Addressable(all, x) {
      var a :| a in all && Live(a, all[a], x);
      assert a in chunks && all[a] == chunks[a];
    }
  }

  lemma {:induction false} CarvedHoused(groups: seq<Group>, chunks: Chunks, carved: Chunks, g: Group)
    requires Housed(groups, chunks) && chunks.Keys !! carved.Keys
    requires forall a :: a in carved ==> Contains(g, a, carved[a])
    ensures Housed(groups + [g], chunks + carved)
  {
    var all := chunks + carved;
    forall a | a in all ensures Home(groups + [g], a, all[a]) {
      if a in carved {
        assert (groups + [g])[|groups|] == g;
      } else {
        assert Home(groups, a, chunks[a]);
        var i :| 0 <= i < |groups| && Contains(groups[i], a, chunks[a]);
        assert (groups + [g])[i] == groups[i];
      }
    }
  }

  // ----- What Allocate() and Deallocate() paint

  /** The two calls of Allocate(): the whole rounded size, then the last partial redzone. */
  lemma {:induction false} AllocatePaints(rz: nat, s: seq<Byte>, s1: seq<Byte>, s2: seq<Byte>, a: nat, c: Chunk, beg: nat)
    requires ChunkOk(rz, a, c) && c.state.Allocated? && beg == Beg(a, c.alignLog)
    requires forall x: nat :: a <= x < a + ChunkSize(c) ==> InMem(s, x) && Poisoned(s, x)
    requires Painted(s, s1, beg, RoundUp(c.used, rz), 0)
    requires if c.used < RoundUp(c.used, rz) then
        RoundUp(c.used, rz) >= Pow2(rz)
        && RedzonePainted(s1, s2, beg + RoundUp(c.used, rz) - Pow2(rz), Low(c.used, rz), Pow2(rz))
      else s2 == s1
    ensures Repainted(s, s2, a, c, ChunkSize(c))
  {
    LastRedzone(c.used, rz);
    RoundUpLeast(c.used, rz);
  }

  /** The last redzone of the rounded size starts at the last multiple of the redzone below size. */
  lemma {:induction false} LastRedzone(size: nat, rz: nat)
    requires size > 0
    ensures RoundUp(size, rz) >= Pow2(rz)
    ensures size < RoundUp(size, rz) ==> RoundUp(size, rz) - Pow2(rz) + Low(size, rz) == size && Low(size, rz) < Pow2(rz)
  {
    RoundUpLeast(size, rz);
    Split(size, rz);
    var low := size - Low(size, rz);
    SplitUnique(Shr(size, rz), 0, rz);
    AlignedRounds(low, rz);
    AlignedPower(rz, rz);
    AlignedSum(low, Pow2(rz), rz);
    if RoundUp(size, rz) < Pow2(rz) {
      SplitSmall(RoundUp(size, rz), rz);
    }
    NextMultiple(size, low, rz);
  }

  lemma {:induction false} NextMultiple(size: nat, low: nat, k: nat)
    requires IsAligned(low, k) && low <= size < low + Pow2(k)
    ensures low < size ==> RoundUp(size, k) == low + Pow2(k)
    ensures low == size ==> RoundUp(size, k) == size
  {
    AlignedRounds(low, k);
    if low < size {
      RoundUpLeast(size, k);
      RoundUpLeast(low + 1, k);
      AlignedPower(k, k);
      AlignedSum(low, Pow2(k), k);
    }
  }

  /** Deallocate() paints the rounded size again. */
  lemma {:induction false} DeallocatePaints(rz: nat, chunks: Chunks, groups: seq<Group>, s: seq<Byte>, s': seq<Byte>, a: nat, c: Chunk)
    requires ChunksOk(rz, chunks) && Housed(groups, chunks) && ShadowOk(s, chunks, groups) && a in chunks
    requires chunks[a].state.Allocated? && !c.state.Allocated?
    requires Painted(s, s', Beg(a, chunks[a].alignLog), RoundUp(chunks[a].used, rz), HEAP_FREE)
    ensures Repainted(s, s', a, c, ChunkSize(chunks[a]))
  {
    var b := chunks[a];
    RoundUpLeast(b.used, rz);
    assert ChunkOk(rz, a, b);
    forall x: nat | InMem(s, x)
      ensures Poisoned(s', x) <==> if a <= x < a + ChunkSize(b) then !Live(a, c, x) else Poisoned(s, x)
    {
      if a <= x < a + ChunkSize(b) {
        assert Home(groups, a, b);
        HomeMapped(groups, a, b, x);
        OnlyOwner(rz, chunks, a, x);
      }
    }
  }
}
