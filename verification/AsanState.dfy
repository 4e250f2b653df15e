/** The state of the ASan heap as one value: the invariant of lib/asan/asan_allocator.cc, and the lemmas
that each of its operations needs. */
module AsanState {
  import opened Bits
  import opened Shadow
  import opened AsanSizes
  import opened AsanChunks
  import opened AsanLayout
  import opened AsanPages
  import opened Partition
  import opened Options

  /** The CHUNK_MEMALIGN headers that are known to be intact: from their address to their used_size,
      the distance to the chunk.  Nothing is known of a header in memory the user has been given since,
      or below the stack that a free has written. */
  type Memaligns = map<nat, nat>

  ghost predicate MemalignsOk(rz: nat, chunks: Chunks, memaligns: Memaligns)
  {
    && (forall p {:trigger InChunk(rz, chunks, p, memaligns[p])} :: p in memaligns ==> InChunk(rz, chunks, p, memaligns[p]))
    && (forall a {:trigger HeaderOk(rz, memaligns, a, chunks[a])} :: a in chunks && !chunks[a].state.Available? ==>
         HeaderOk(rz, memaligns, a, chunks[a]))
  }

  /** p lies d > 0 bytes inside a chunk, at a multiple of the redzone. */
  ghost predicate InChunk(rz: nat, chunks: Chunks, p: nat, d: nat)
  {
    0 < d <= p && p - d in chunks && p < p - d + ChunkSize(chunks[p - d]) && IsAligned(p, rz)
  }

  /** The user's pointer leads back to the chunk: directly, or through a CHUNK_MEMALIGN header.  Free()
      writes its stack one redzone behind the chunk's start, over a header that is there. */
  ghost predicate HeaderOk(rz: nat, memaligns: Memaligns, a: nat, c: Chunk)
  {
    var p := Beg(a, c.alignLog) - Pow2(rz);
    if c.state.Quarantine? && p == a + Pow2(rz) then p !in memaligns
    else p == a || (p > a && p in memaligns && memaligns[p] == p - a)
  }

  ghost predicate Sound(rz: nat, n: nat, chunks: Chunks, lists: Lists, where: Places, sizes: Sizes, memaligns: Memaligns,
      groups: seq<Group>, s: seq<Byte>)
  {
    && 5 <= rz <= 12 && |s| == n
    && Conserved(chunks, lists, where)
    && QueuesOk(chunks, lists, sizes)
    && ChunksOk(rz, chunks)
    && GroupsOk(groups, GRANULARITY * n)
    && Housed(groups, chunks)
    && MemalignsOk(rz, chunks, memaligns)
    && ShadowOk(s, chunks, groups)
  }

  /** A heap at rest or in the middle of a call.  REDZONE is Pow2(rz), there are n bytes of shadow, and limit
      is flags()->quarantine_size. */
  datatype Snapshot = Snapshot(rz: nat, n: nat, limit: nat, chunks: Chunks, lists: Lists, where: Places, sizes: Sizes,
    memaligns: Memaligns, groups: seq<Group>, shadow: seq<Byte>)

  ghost function SoundStates(): iset<Snapshot>
  {
    iset x: Snapshot | Sound(x.rz, x.n, x.chunks, x.lists, x.where, x.sizes, x.memaligns, x.groups, x.shadow)
  }

  /** The part of the invariant that speaks of one chunk. */
  lemma {:induction false} ChunkAt(rz: nat, chunks: Chunks, a: nat)
    requires ChunksOk(rz, chunks) && a in chunks
    ensures ChunkOk(rz, a, chunks[a]) && ChunkOk(rz, a, chunks[a].(state := Available))
    ensures chunks[a].state.Allocated? ==> ChunkOk(rz, a, chunks[a].(state := Quarantine))
  {
  }

  // ----- Pointers and headers

  /** PtrToChunk(), where there is a header to be read at ptr - REDZONE. */
  function PtrToChunk(rz: nat, chunks: Chunks, memaligns: Memaligns, ptr: nat): Option<nat>
  {
    var p := ptr - Pow2(rz);
    if p < 0 then None
    else if p in chunks then Some(p)
    else if p in memaligns && memaligns[p] <= p then Some(p - memaligns[p])
    else None
  }

  lemma {:induction false} MemalignInside(rz: nat, chunks: Chunks, memaligns: Memaligns, p: nat)
    requires ChunksOk(rz, chunks) && MemalignsOk(rz, chunks, memaligns) && p in memaligns
    ensures p !in chunks && p - memaligns[p] in chunks
  {
    assert InChunk(rz, chunks, p, memaligns[p]);
  }

  /** CHECK(m == PtrToChunk(addr)): what the user holds leads back to the chunk. */
  lemma {:induction false} HeaderOfLive(rz: nat, chunks: Chunks, memaligns: Memaligns, a: nat)
    requires ChunksOk(rz, chunks) && MemalignsOk(rz, chunks, memaligns) && a in chunks && chunks[a].state.Allocated?
    ensures PtrToChunk(rz, chunks, memaligns, Beg(a, chunks[a].alignLog)) == Some(a)
  {
    assert ChunkOk(rz, a, chunks[a]) && HeaderOk(rz, memaligns, a, chunks[a]);
    var p: nat := Beg(a, chunks[a].alignLog) - Pow2(rz);
    if p != a { MemalignInside(rz, chunks, memaligns, p); }
  }

  /** When the user has freed the chunk, his pointer still leads to it unless the free stack lies over the
      header: that is, unless his memory started two redzones behind the chunk's start. */
  lemma {:induction false} HeaderOfFreed(rz: nat, chunks: Chunks, memaligns: Memaligns, a: nat)
    requires ChunksOk(rz, chunks) && MemalignsOk(rz, chunks, memaligns) && a in chunks && chunks[a].state.Quarantine?
    ensures PtrToChunk(rz, chunks, memaligns, Beg(a, chunks[a].alignLog)) ==
      if Beg(a, chunks[a].alignLog) == a + 2 * Pow2(rz) then None else Some(a)
  {
    var c := chunks[a];
    assert ChunkOk(rz, a, c) && HeaderOk(rz, memaligns, a, c);
    var p: nat := Beg(a, c.alignLog) - Pow2(rz);
    RoundUpLeast(c.used, rz);
    if p != a {
      assert p !in chunks;
    }
  }

  lemma {:induction false} FoundInChunks(rz: nat, chunks: Chunks, memaligns: Memaligns, ptr: nat)
    requires ChunksOk(rz, chunks) && MemalignsOk(rz, chunks, memaligns)
    ensures var m := PtrToChunk(rz, chunks, memaligns, ptr);
      m.Some? ==> m.value in chunks && IsAligned(ptr, rz)
  {
    var p := ptr - Pow2(rz);
    AlignedPower(rz, rz);
    if p >= 0 && p in chunks {
      assert ChunkOk(rz, p, chunks[p]);
      AlignedSum(p, Pow2(rz), rz);
    } else if p >= 0 && p in memaligns {
      assert InChunk(rz, chunks, p, memaligns[p]);
      AlignedSum(p, Pow2(rz), rz);
    }
  }

  // ----- Headers come and go

  /** The headers that are left when the bytes from lo to hi have been written. */
  function Without(memaligns: Memaligns, lo: nat, hi: nat): Memaligns
  {
    map p | p in memaligns && !(lo <= p < hi) :: memaligns[p]
  }

  ghost predicate SameHeader(memaligns: Memaligns, memaligns': Memaligns, q: nat)
  {
    (q in memaligns' <==> q in memaligns) && (q in memaligns ==> memaligns'[q] == memaligns[q])
  }

  /** Headers elsewhere do not matter to a chunk. */
  lemma {:induction false} HeaderLocal(rz: nat, memaligns: Memaligns, memaligns': Memaligns, a: nat, c: Chunk)
    requires ChunkOk(rz, a, c) && !c.state.Available? && HeaderOk(rz, memaligns, a, c)
    requires forall q :: a <= q < a + ChunkSize(c) ==> SameHeader(memaligns, memaligns', q)
    ensures HeaderOk(rz, memaligns', a, c)
  {
    var p: nat := Beg(a, c.alignLog) - Pow2(rz);
    RoundUpLeast(c.used, rz);
    assert SameHeader(memaligns, memaligns', p);
  }

  /** A chunk changes state, and only headers inside it change, of which the new ones lead to it. */
  lemma {:induction false} ChangeHeaders(rz: nat, chunks: Chunks, memaligns: Memaligns, m: nat, c: Chunk, memaligns': Memaligns)
    requires ChunksOk(rz, chunks) && MemalignsOk(rz, chunks, memaligns) && m in chunks && c.sizeClass == chunks[m].sizeClass
    requires c.state.Available? || HeaderOk(rz, memaligns', m, c)
    requires forall q: nat :: !(m <= q < m + ChunkSize(c)) ==> SameHeader(memaligns, memaligns', q)
    requires forall q :: q in memaligns' && m <= q < m + ChunkSize(c) ==>
      (q in memaligns && memaligns'[q] == memaligns[q]) || (q > m && IsAligned(q, rz) && memaligns'[q] == q - m)
    ensures MemalignsOk(rz, chunks[m := c], memaligns')
  {
    hide IsAligned;
    var chunks' := chunks[m := c];
    forall q | q in memaligns' ensures InChunk(rz, chunks', q, memaligns'[q]) {
      if q in memaligns && memaligns'[q] == memaligns[q] {
        assert InChunk(rz, chunks, q, memaligns[q]);
      } else {
        assert m <= q < m + ChunkSize(c) || SameHeader(memaligns, memaligns', q);
      }
    }
    forall b | b in chunks' && !chunks'[b].state.Available? ensures HeaderOk(rz, memaligns', b, chunks'[b]) {
      if b != m {
        assert HeaderOk(rz, memaligns, b, chunks[b]);
        HeaderLocal(rz, memaligns, memaligns', b, chunks[b]);
      }
    }
  }

  // ----- Granules

  lemma {:induction false} Granular(x: nat, k: nat)
    requires IsAligned(x, k) && k >= 3
    ensures Aligned(x)
  {
    AlignedCoarser(x, 3, k - 3);
    ShiftMeaning(x, 3);
    assert Pow2(3) == 8;
  }

  /** A chunk's range is whole granules inside the shadowed memory. */
  lemma {:induction false} ChunkGranular(rz: nat, n: nat, chunks: Chunks, groups: seq<Group>, a: nat)
    requires 5 <= rz <= 12 && ChunksOk(rz, chunks) && Housed(groups, chunks) && GroupsOk(groups, GRANULARITY * n) && a in chunks
    ensures Aligned(a) && Aligned(a + ChunkSize(chunks[a])) && a + ChunkSize(chunks[a]) <= GRANULARITY * n
  {
    var c := chunks[a];
    assert ChunkOk(rz, a, c) && Home(groups, a, c);
    ClassAligned(c.sizeClass, rz);
    AlignedSum(a, ChunkSize(c), rz);
    Granular(a, rz);
    Granular(a + ChunkSize(c), rz);
  }

  // ----- Allocate()

  /** The bytes Allocate() asks a size class for. */
  function Needed(rz: nat, al: nat, size: nat): nat
  {
    RoundUp(size, rz) + Pow2(rz) + (if al > rz then Pow2(al) else 0)
  }

  /** The CHECKs on the size class of a request that is not too big. */
  lemma {:induction false} RequestClass(rz: nat, al: nat, size: nat)
    requires 5 <= rz <= 12 && size > 0 && Needed(rz, al, size) <= MAX_ALLOWED
    ensures var c := SizeToSizeClass(Needed(rz, al, size));
      rz < c < CLASSES && Needed(rz, al, size) <= SizeClassToSize(c) && SizeClassToSize(c) >= 2 * Pow2(rz)
  {
    var needed := Needed(rz, al, size);
    LastRedzone(size, rz);
    LeastClass(needed);
    var c := SizeToSizeClass(needed);
    if c <= rz {
      Pow2Mono(c, rz);
    }
  }

  /** The header Allocate() writes. */
  function NewChunk(rz: nat, m: nat, c: Chunk, al: nat, size: nat): Chunk
  {
    Chunk(Allocated, c.sizeClass, size, PlacedLog(m, rz, al))
  }

  lemma {:induction false} NewChunkOk(rz: nat, m: nat, c: Chunk, al: nat, size: nat)
    requires ChunkOk(rz, m, c) && size > 0 && Needed(rz, al, size) <= ChunkSize(c)
    ensures ChunkOk(rz, m, NewChunk(rz, m, c, al, size))
    ensures Beg(m, PlacedLog(m, rz, al)) == Placed(m, rz, al)
    ensures Placed(m, rz, al) + RoundUp(size, rz) <= m + ChunkSize(c)
  {
    BegIsPlaced(m, rz, al);
    RoundUpLeast(size, rz);
  }

  /** The user's memory swallows the headers in it; there is a new one if the address was moved up. */
  function NewMemaligns(rz: nat, m: nat, al: nat, size: nat, memaligns: Memaligns): Memaligns
  {
    var addr := Placed(m, rz, al);
    var p, others := addr - Pow2(rz), Without(memaligns, addr, addr + RoundUp(size, rz));
    if p > m then others[p := p - m] else others
  }

  lemma {:induction false} NewMemalignsOk(rz: nat, chunks: Chunks, memaligns: Memaligns, m: nat, al: nat, size: nat)
    requires ChunksOk(rz, chunks) && MemalignsOk(rz, chunks, memaligns) && m in chunks
    requires size > 0 && Needed(rz, al, size) <= ChunkSize(chunks[m])
    ensures MemalignsOk(rz, chunks[m := NewChunk(rz, m, chunks[m], al, size)], NewMemaligns(rz, m, al, size, memaligns))
  {
    hide IsAligned, Beg, Placed, PlacedLog, RoundUp, MemalignsOk, ChunksOk;
    var c, memaligns' := NewChunk(rz, m, chunks[m], al, size), NewMemaligns(rz, m, al, size, memaligns);
    ChunkAt(rz, chunks, m);
    NewChunkOk(rz, m, chunks[m], al, size);
    HeaderPlaced(rz, m, c, al, size);
    ChangeHeaders(rz, chunks, memaligns, m, c, memaligns');
  }

  lemma {:induction false} HeaderPlaced(rz: nat, m: nat, c: Chunk, al: nat, size: nat)
    requires ChunkOk(rz, m, c) && c.state.Allocated? && c.used == size && Beg(m, c.alignLog) == Placed(m, rz, al)
    ensures var p := Placed(m, rz, al) - Pow2(rz);
      && m <= p < m + ChunkSize(c) && IsAligned(p, rz)
      && Placed(m, rz, al) + RoundUp(size, rz) <= m + ChunkSize(c)
  {
    RoundUpLeast(size, rz);
    AlignedPower(rz, rz);
    AlignedSum(Placed(m, rz, al), Pow2(rz), rz);
  }

  /** The front of a free list is an available chunk. */
  lemma {:induction false} FrontAvailable(chunks: Chunks, lists: Lists, where: Places, p: Place)
    requires Conserved(chunks, lists, where) && ListAt(lists, p) != []
    ensures var m := ListAt(lists, p)[0];
      m in chunks && m in where && where[m] == p && Belongs(chunks[m], p) && p != User
  {
    assert p != User;
    assert Holds(ListAt(lists, p), where, p);
    assert ListAt(lists, p)[0] in ListAt(lists, p);
  }

  /** The chunk at the front of a free list goes to the user. */
  function HandedOut(x: Snapshot, from: Place, m: nat, al: nat, size: nat, shadow: seq<Byte>): Snapshot
    requires ListAt(x.lists, from) != [] && m in x.chunks
  {
    x.(chunks := x.chunks[m := NewChunk(x.rz, m, x.chunks[m], al, size)], lists := Popped(x.lists, from),
       where := x.where[m := User], memaligns := NewMemaligns(x.rz, m, al, size, x.memaligns), shadow := shadow)
  }

  lemma {:induction false} HandoutSound(x: Snapshot, from: Place, m: nat, al: nat, size: nat, s': seq<Byte>)
    requires x in SoundStates()
    requires (from.ThreadFree? || from.Transit?) && ListAt(x.lists, from) != [] && ListAt(x.lists, from)[0] == m
    requires m in x.chunks && size > 0 && Needed(x.rz, al, size) <= ChunkSize(x.chunks[m])
    requires Repainted(x.shadow, s', m, NewChunk(x.rz, m, x.chunks[m], al, size), ChunkSize(x.chunks[m]))
    ensures HandedOut(x, from, m, al, size, s') in SoundStates()
  {
    hide Conserved, QueuesOk, ChunksOk, ChunkOk, GroupsOk, Housed, MemalignsOk, ShadowOk, Painted, Repainted;
    var c := NewChunk(x.rz, m, x.chunks[m], al, size);
    FrontAvailable(x.chunks, x.lists, x.where, from);
    ChunkAt(x.rz, x.chunks, m);
    NewChunkOk(x.rz, m, x.chunks[m], al, size);
    NewMemalignsOk(x.rz, x.chunks, x.memaligns, m, al, size);
    MoveKeeps(x.chunks, x.lists, x.where, m, c, from, User, Popped(x.lists, from), Popped(x.lists, from));
    QueuesKept(x.chunks, x.lists, x.sizes, x.chunks[m := c], Popped(x.lists, from));
    ChangeShadow(x.rz, x.chunks, x.groups, x.shadow, s', m, c);
    ChangeHoused(x.rz, x.chunks, x.groups, m, c);
  }

  /** Where HandOut() paints: whole granules inside the chunk. */
  lemma {:induction false} HandOutFacts(x: Snapshot, from: Place, m: nat, al: nat, size: nat)
    requires x in SoundStates() && (from.ThreadFree? || from.Transit?) && ListAt(x.lists, from) != []
    requires ListAt(x.lists, from)[0] == m && m in x.chunks && size > 0
    requires Needed(x.rz, al, size) <= ChunkSize(x.chunks[m])
    ensures x.chunks[m].state.Available?
    ensures var addr, rounded := Placed(m, x.rz, al), RoundUp(size, x.rz);
      && Aligned(addr) && Aligned(addr + rounded) && addr + rounded <= GRANULARITY * x.n
      && rounded >= Pow2(x.rz) && Aligned(Pow2(x.rz)) && Aligned(addr + rounded - Pow2(x.rz))
  {
    hide Conserved, QueuesOk, ChunksOk, ChunkOk, GroupsOk, Housed, MemalignsOk, ShadowOk;
    FrontAvailable(x.chunks, x.lists, x.where, from);
    ChunkAt(x.rz, x.chunks, m);
    ChunkGranular(x.rz, x.n, x.chunks, x.groups, m);
    PlacedGranular(x.rz, m, x.chunks[m], al, size);
  }

  lemma {:induction false} PlacedGranular(rz: nat, m: nat, c: Chunk, al: nat, size: nat)
    requires 5 <= rz && ChunkOk(rz, m, c) && size > 0 && Needed(rz, al, size) <= ChunkSize(c)
    ensures var addr, rounded := Placed(m, rz, al), RoundUp(size, rz);
      && Aligned(addr) && Aligned(addr + rounded) && addr + rounded <= m + ChunkSize(c)
      && rounded >= Pow2(rz) && Aligned(Pow2(rz)) && Aligned(addr + rounded - Pow2(rz))
  {
    var addr, rounded := Placed(m, rz, al), RoundUp(size, rz);
    NewChunkOk(rz, m, c, al, size);
    BegIsPlaced(m, rz, al);
    RoundUpLeast(size, rz);
    LastRedzone(size, rz);
    AlignedPower(rz, rz);
    AlignedSum(addr, rounded, rz);
    AlignedSum(addr + rounded, Pow2(rz), rz);
    hide Pow2, RoundUp, Placed, IsAligned, Aligned;
    Granular(addr, rz);
    Granular(addr + rounded, rz);
    Granular(Pow2(rz), rz);
    Granular(addr + rounded - Pow2(rz), rz);
  }

  lemma {:induction false} HandOutPaints(x: Snapshot, m: nat, al: nat, size: nat, s1: seq<Byte>, s2: seq<Byte>)
    requires x in SoundStates() && m in x.chunks && x.chunks[m].state.Available? && size > 0
    requires Needed(x.rz, al, size) <= ChunkSize(x.chunks[m])
    requires Painted(x.shadow, s1, Placed(m, x.rz, al), RoundUp(size, x.rz), 0)
    requires if size < RoundUp(size, x.rz) then
        RoundUp(size, x.rz) >= Pow2(x.rz)
        && RedzonePainted(s1, s2, Placed(m, x.rz, al) + RoundUp(size, x.rz) - Pow2(x.rz), Low(size, x.rz), Pow2(x.rz))
      else s2 == s1
    ensures Repainted(x.shadow, s2, m, NewChunk(x.rz, m, x.chunks[m], al, size), ChunkSize(x.chunks[m]))
  {
    hide Conserved, QueuesOk, ChunksOk, ChunkOk, GroupsOk, Housed, MemalignsOk, ShadowOk, Painted, Repainted, RedzonePainted;
    var c := NewChunk(x.rz, m, x.chunks[m], al, size);
    ChunkAt(x.rz, x.chunks, m);
    NewChunkOk(x.rz, m, x.chunks[m], al, size);
    AllPoisoned(x.rz, x.chunks, x.groups, x.shadow, m);
    AllocatePaints(x.rz, x.shadow, s1, s2, m, c, Placed(m, x.rz, al));
  }

  // ----- The shadow bytes that are written

  /** MmapNewPagesAndPoisonShadow(). */
  function PagesShadow(x: Snapshot, mem: nat, sizeClass: nat): seq<Byte>
  {
    Filled(x.shadow, mem, MapBytes(sizeClass), HEAP_LEFT_REDZONE)
  }

  /** lib/asan/asan_allocator.cc:672-676. */
  function HandShadow(x: Snapshot, m: nat, al: nat, size: nat): seq<Byte>
  {
    var addr, rounded := Placed(m, x.rz, al), RoundUp(size, x.rz);
    var s1 := Filled(x.shadow, addr, rounded, 0);
    if size < rounded && addr + rounded >= Pow2(x.rz) then
      RedzoneFilled(s1, addr + rounded - Pow2(x.rz), Low(size, x.rz), Pow2(x.rz), HEAP_RIGHT_REDZONE)
    else s1
  }

  /** lib/asan/asan_allocator.cc:713. */
  function FreeShadow(x: Snapshot, a: nat): seq<Byte>
    requires a in x.chunks
  {
    Filled(x.shadow, Beg(a, x.chunks[a].alignLog), RoundUp(x.chunks[a].used, x.rz), HEAP_FREE)
  }

  /** lib/asan/asan_allocator.cc:512. */
  function EvictShadow(x: Snapshot, m: nat): seq<Byte>
    requires m in x.chunks
  {
    Filled(x.shadow, m, ChunkSize(x.chunks[m]), HEAP_LEFT_REDZONE)
  }

  lemma {:induction false} HandPainted(x: Snapshot, from: Place, m: nat, al: nat, size: nat)
    requires x in SoundStates() && (from.ThreadFree? || from.Transit?) && ListAt(x.lists, from) != []
    requires ListAt(x.lists, from)[0] == m && m in x.chunks && size > 0
    requires Needed(x.rz, al, size) <= ChunkSize(x.chunks[m])
    ensures Repainted(x.shadow, HandShadow(x, m, al, size), m, NewChunk(x.rz, m, x.chunks[m], al, size), ChunkSize(x.chunks[m]))
  {
    hide SoundStates, Painted, RedzonePainted, Filled, RedzoneFilled, Repainted, Placed, RoundUp, Needed, Aligned, Pow2;
    SnapshotSize(x);
    HandOutFacts(x, from, m, al, size);
    var addr, rounded := Placed(m, x.rz, al), RoundUp(size, x.rz);
    var s1 := Filled(x.shadow, addr, rounded, 0);
    FilledPaints(x.shadow, addr, rounded, 0);
    if size < rounded {
      RedzoneFilledPaints(s1, addr + rounded - Pow2(x.rz), Low(size, x.rz), Pow2(x.rz), HEAP_RIGHT_REDZONE);
    }
    HandOutPaints(x, m, al, size, s1, HandShadow(x, m, al, size));
  }

  lemma {:induction false} SnapshotSize(x: Snapshot)
    requires x in SoundStates()
    ensures |x.shadow| == x.n && 5 <= x.rz <= 12
  {
  }

  lemma {:induction false} FreePainted(x: Snapshot, a: nat)
    requires x in SoundStates() && a in x.chunks && x.chunks[a].state.Allocated?
    ensures Painted(x.shadow, FreeShadow(x, a), Beg(a, x.chunks[a].alignLog), RoundUp(x.chunks[a].used, x.rz), HEAP_FREE)
  {
    hide SoundStates, Painted, Filled, Beg, RoundUp, Aligned;
    SnapshotSize(x);
    RetireFacts(x, a);
    FilledPaints(x.shadow, Beg(a, x.chunks[a].alignLog), RoundUp(x.chunks[a].used, x.rz), HEAP_FREE);
  }

  lemma {:induction false} EvictPainted(x: Snapshot, m: nat)
    requires x in SoundStates() && ListAt(x.lists, GlobalQuarantine) != [] && ListAt(x.lists, GlobalQuarantine)[0] == m && m in x.chunks
    ensures Painted(x.shadow, EvictShadow(x, m), m, ChunkSize(x.chunks[m]), HEAP_LEFT_REDZONE)
  {
    hide SoundStates, Painted, Filled, Aligned, ChunkSize;
    SnapshotSize(x);
    EvictFacts(x, m);
    FilledPaints(x.shadow, m, ChunkSize(x.chunks[m]), HEAP_LEFT_REDZONE);
  }

  lemma {:induction false} PagesPainted(x: Snapshot, mem: nat, sizeClass: nat)
    requires x in SoundStates() && Mappable(x, mem, sizeClass)
    ensures Painted(x.shadow, PagesShadow(x, mem, sizeClass), mem, MapBytes(sizeClass), HEAP_LEFT_REDZONE)
  {
    hide SoundStates, MapBytes, MapCount, Painted, Filled;
    SnapshotSize(x);
    PagesInside(x, mem, sizeClass);
    FilledPaints(x.shadow, mem, MapBytes(sizeClass), HEAP_LEFT_REDZONE);
  }

  // ----- Deallocate() and the quarantine

  /** Free() writes its stack over one redzone, a redzone behind the chunk's start. */
  function FreedMemaligns(rz: nat, a: nat, memaligns: Memaligns): Memaligns
  {
    Without(memaligns, a + Pow2(rz), a + 2 * Pow2(rz))
  }

  lemma {:induction false} FreedMemalignsOk(rz: nat, chunks: Chunks, memaligns: Memaligns, a: nat)
    requires ChunksOk(rz, chunks) && MemalignsOk(rz, chunks, memaligns) && a in chunks && chunks[a].state.Allocated?
    ensures MemalignsOk(rz, chunks[a := chunks[a].(state := Quarantine)], FreedMemaligns(rz, a, memaligns))
  {
    var c, memaligns' := chunks[a].(state := Quarantine), FreedMemaligns(rz, a, memaligns);
    assert ChunkOk(rz, a, chunks[a]) && HeaderOk(rz, memaligns, a, chunks[a]);
    FreedHeader(rz, a, chunks[a], memaligns);
    hide IsAligned, Beg, RoundUp, MemalignsOk, ChunksOk;
    ChangeHeaders(rz, chunks, memaligns, a, c, memaligns');
  }

  lemma {:induction false} FreedHeader(rz: nat, a: nat, c: Chunk, memaligns: Memaligns)
    requires ChunkOk(rz, a, c) && c.state.Allocated? && HeaderOk(rz, memaligns, a, c)
    ensures HeaderOk(rz, FreedMemaligns(rz, a, memaligns), a, c.(state := Quarantine))
    ensures a + 2 * Pow2(rz) <= a + ChunkSize(c)
  {
    var p: nat := Beg(a, c.alignLog) - Pow2(rz);
    AlignedPower(rz, rz);
    AlignedSum(Beg(a, c.alignLog), Pow2(rz), rz);
    RoundUpLeast(c.used, rz);
    AlignedStep(0, RoundUp(c.used, rz), rz);
    if p > a {
      AlignedSum(a, Pow2(rz), rz);
      AlignedStep(a, p, rz);
      if p > a + Pow2(rz) { AlignedStep(a + Pow2(rz), p, rz); }
    }
  }

  /** Different multiples are at least one step apart. */
  lemma {:induction false} AlignedStep(x: nat, y: nat, k: nat)
    requires IsAligned(x, k) && IsAligned(y, k) && x < y
    ensures x + Pow2(k) <= y
  {
    AlignedRounds(x, k);
    RoundUpLeast(x + 1, k);
  }

  lemma {:induction false} EvictedMemalignsOk(rz: nat, chunks: Chunks, memaligns: Memaligns, a: nat)
    requires ChunksOk(rz, chunks) && MemalignsOk(rz, chunks, memaligns) && a in chunks
    ensures MemalignsOk(rz, chunks[a := chunks[a].(state := Available)], memaligns)
  {
    hide MemalignsOk, ChunksOk;
    ChangeHeaders(rz, chunks, memaligns, a, chunks[a].(state := Available), memaligns);
  }

  lemma {:induction false} FreeLists(chunks: Chunks, lists: Lists, where: Places, sizes: Sizes, a: nat, p: Place)
    requires Conserved(chunks, lists, where) && QueuesOk(chunks, lists, sizes)
    requires (p.ThreadQuarantine? || p.GlobalQuarantine?) && a in chunks && chunks[a].state.Allocated?
    ensures var chunks' := chunks[a := chunks[a].(state := Quarantine)];
      && Conserved(chunks', PushedBack(lists, p, a), where[a := p])
      && QueuesOk(chunks', PushedBack(lists, p, a), sizes[p := SizeAt(sizes, p) + ChunkSize(chunks[a])])
  {
    var c := chunks[a].(state := Quarantine);
    assert Belongs(chunks[a], where[a]);
    MoveKeeps(chunks, lists, where, a, c, User, p, lists, PushedBack(lists, p, a));
    QueuesKept(chunks, lists, sizes, chunks[a := c], lists);
    QueuePushed(chunks[a := c], lists, sizes, p, a);
  }

  /** Chunk a goes to the end of quarantine p. */
  function FreedTo(x: Snapshot, a: nat, p: Place, shadow: seq<Byte>): Snapshot
    requires a in x.chunks
  {
    x.(chunks := x.chunks[a := x.chunks[a].(state := Quarantine)], lists := PushedBack(x.lists, p, a),
       where := x.where[a := p], sizes := x.sizes[p := SizeAt(x.sizes, p) + ChunkSize(x.chunks[a])],
       memaligns := FreedMemaligns(x.rz, a, x.memaligns), shadow := shadow)
  }

  lemma {:induction false} FreeSound(x: Snapshot, a: nat, p: Place, s': seq<Byte>)
    requires x in SoundStates() && (p.ThreadQuarantine? || p.GlobalQuarantine?)
    requires a in x.chunks && x.chunks[a].state.Allocated?
    requires Painted(x.shadow, s', Beg(a, x.chunks[a].alignLog), RoundUp(x.chunks[a].used, x.rz), HEAP_FREE)
    ensures FreedTo(x, a, p, s') in SoundStates()
  {
    hide Pow2, RoundUp, Beg, Conserved, QueuesOk, ChunksOk, ChunkOk, GroupsOk, Housed, MemalignsOk, ShadowOk, Painted, Repainted;
    var c := x.chunks[a].(state := Quarantine);
    ChunkAt(x.rz, x.chunks, a);
    FreeLists(x.chunks, x.lists, x.where, x.sizes, a, p);
    DeallocatePaints(x.rz, x.chunks, x.groups, x.shadow, s', a, c);
    ChangeShadow(x.rz, x.chunks, x.groups, x.shadow, s', a, c);
    ChangeHoused(x.rz, x.chunks, x.groups, a, c);
    FreedMemalignsOk(x.rz, x.chunks, x.memaligns, a);
  }

  lemma {:induction false} RetireFacts(x: Snapshot, a: nat)
    requires x in SoundStates() && a in x.chunks && x.chunks[a].state.Allocated?
    ensures var beg, rounded := Beg(a, x.chunks[a].alignLog), RoundUp(x.chunks[a].used, x.rz);
      Aligned(beg) && Aligned(beg + rounded) && beg + rounded <= GRANULARITY * x.n
  {
    hide Pow2, Conserved, QueuesOk, GroupsOk, Housed, MemalignsOk, ShadowOk;
    var beg, rounded := Beg(a, x.chunks[a].alignLog), RoundUp(x.chunks[a].used, x.rz);
    ChunkAt(x.rz, x.chunks, a);
    ChunkGranular(x.rz, x.n, x.chunks, x.groups, a);
    RoundUpLeast(x.chunks[a].used, x.rz);
    AlignedSum(beg, rounded, x.rz);
    Granular(beg, x.rz);
    Granular(beg + rounded, x.rz);
  }

  lemma {:induction false} PopPaints(s: seq<Byte>, s': seq<Byte>, a: nat, c: Chunk)
    requires Painted(s, s', a, ChunkSize(c), HEAP_LEFT_REDZONE) && !c.state.Allocated?
    ensures Repainted(s, s', a, c, ChunkSize(c))
  {
  }

  /** QuarantinePop(): the oldest chunk goes back to the free list of its class. */
  function Evicted(x: Snapshot, m: nat, shadow: seq<Byte>): Snapshot
    requires m in x.chunks && ListAt(x.lists, GlobalQuarantine) != []
    requires SizeAt(x.sizes, GlobalQuarantine) >= ChunkSize(x.chunks[m])
  {
    var c := x.chunks[m];
    x.(chunks := x.chunks[m := c.(state := Available)],
       lists := PushedFront(Popped(x.lists, GlobalQuarantine), GlobalFree(c.sizeClass), m),
       where := x.where[m := GlobalFree(c.sizeClass)],
       sizes := x.sizes[GlobalQuarantine := SizeAt(x.sizes, GlobalQuarantine) - ChunkSize(c)], shadow := shadow)
  }

  lemma {:induction false} EvictLists(chunks: Chunks, lists: Lists, where: Places, sizes: Sizes, m: nat)
    requires Conserved(chunks, lists, where) && QueuesOk(chunks, lists, sizes)
    requires ListAt(lists, GlobalQuarantine) != [] && ListAt(lists, GlobalQuarantine)[0] == m && m in chunks
    ensures SizeAt(sizes, GlobalQuarantine) >= ChunkSize(chunks[m])
    ensures var c := chunks[m].(state := Available);
      var lists' := PushedFront(Popped(lists, GlobalQuarantine), GlobalFree(c.sizeClass), m);
      && Conserved(chunks[m := c], lists', where[m := GlobalFree(c.sizeClass)])
      && QueuesOk(chunks[m := c], lists', sizes[GlobalQuarantine := SizeAt(sizes, GlobalQuarantine) - ChunkSize(c)])
  {
    var c := chunks[m].(state := Available);
    var rest := Popped(lists, GlobalQuarantine);
    var lists' := PushedFront(rest, GlobalFree(c.sizeClass), m);
    FrontAvailable(chunks, lists, where, GlobalQuarantine);
    MoveKeeps(chunks, lists, where, m, c, GlobalQuarantine, GlobalFree(c.sizeClass), rest, lists');
    QueuePopped(chunks, lists, sizes, GlobalQuarantine);
    QueuesKept(chunks, rest, sizes[GlobalQuarantine := SizeAt(sizes, GlobalQuarantine) - ChunkSize(chunks[m])],
      chunks[m := c], lists');
  }

  lemma {:induction false} EvictSound(x: Snapshot, m: nat, s': seq<Byte>)
    requires x in SoundStates()
    requires ListAt(x.lists, GlobalQuarantine) != [] && ListAt(x.lists, GlobalQuarantine)[0] == m && m in x.chunks
    requires Painted(x.shadow, s', m, ChunkSize(x.chunks[m]), HEAP_LEFT_REDZONE)
    ensures SizeAt(x.sizes, GlobalQuarantine) >= ChunkSize(x.chunks[m]) && x.chunks[m].state.Quarantine?
    ensures Evicted(x, m, s') in SoundStates()
  {
    hide Conserved, QueuesOk, ChunksOk, ChunkOk, GroupsOk, Housed, MemalignsOk, ShadowOk, Painted, Repainted;
    var c := x.chunks[m].(state := Available);
    FrontAvailable(x.chunks, x.lists, x.where, GlobalQuarantine);
    ChunkAt(x.rz, x.chunks, m);
    EvictLists(x.chunks, x.lists, x.where, x.sizes, m);
    PopPaints(x.shadow, s', m, c);
    ChangeShadow(x.rz, x.chunks, x.groups, x.shadow, s', m, c);
    ChangeHoused(x.rz, x.chunks, x.groups, m, c);
    EvictedMemalignsOk(x.rz, x.chunks, x.memaligns, m);
  }

  lemma {:induction false} EvictFacts(x: Snapshot, m: nat)
    requires x in SoundStates() && ListAt(x.lists, GlobalQuarantine) != [] && ListAt(x.lists, GlobalQuarantine)[0] == m
    ensures m in x.chunks && x.chunks[m].state.Quarantine?
    ensures Aligned(m) && Aligned(m + ChunkSize(x.chunks[m])) && m + ChunkSize(x.chunks[m]) <= GRANULARITY * x.n
  {
    FrontAvailable(x.chunks, x.lists, x.where, GlobalQuarantine);
    ChunkGranular(x.rz, x.n, x.chunks, x.groups, m);
  }

  /** PushList(): a thread's quarantine goes to the end of the global one. */
  function Surrendered(x: Snapshot, from: Place): Snapshot
  {
    x.(lists := Appended(x.lists, from, GlobalQuarantine), where := Relabelled(x.where, from, GlobalQuarantine),
       sizes := x.sizes[GlobalQuarantine := SizeAt(x.sizes, GlobalQuarantine) + SizeAt(x.sizes, from)][from := 0])
  }

  lemma {:induction false} QuarantinesAlike(chunks: Chunks, lists: Lists, where: Places, from: Place)
    requires Conserved(chunks, lists, where) && from.ThreadQuarantine?
    ensures forall a :: a in where && where[a] == from ==> Belongs(chunks[a], GlobalQuarantine)
  {
    forall a | a in where && where[a] == from ensures Belongs(chunks[a], GlobalQuarantine) {
      assert Belongs(chunks[a], where[a]);
    }
  }

  lemma {:induction false} SurrenderSound(x: Snapshot, from: Place)
    requires x in SoundStates() && from.ThreadQuarantine?
    ensures Surrendered(x, from) in SoundStates()
  {
    hide Conserved, QueuesOk, ChunksOk, ChunkOk, GroupsOk, Housed, MemalignsOk, ShadowOk, Painted, Repainted;
    QuarantinesAlike(x.chunks, x.lists, x.where, from);
    AppendKeeps(x.chunks, x.lists, x.where, from, GlobalQuarantine);
    QueueAppended(x.chunks, x.lists, x.sizes, from, GlobalQuarantine);
  }

  // ----- Free lists

  /** One chunk moves between lists of available chunks. */
  function Shifted(x: Snapshot, from: Place, to: Place, m: nat): Snapshot
    requires ListAt(x.lists, from) != []
  {
    x.(lists := PushedFront(Popped(x.lists, from), to, m), where := x.where[m := to])
  }

  predicate IsFree(p: Place) { p.GlobalFree? || p.ThreadFree? || p.Transit? }

  lemma {:induction false} ShiftSound(x: Snapshot, from: Place, to: Place, m: nat)
    requires x in SoundStates() && from != to && IsFree(from) && IsFree(to)
    requires ListAt(x.lists, from) != [] && ListAt(x.lists, from)[0] == m
    requires from.Transit? || to.Transit? || from.sizeClass == to.sizeClass
    requires !from.Transit?
    ensures Shifted(x, from, to, m) in SoundStates()
    ensures m in x.chunks && x.chunks[m].state.Available? && x.chunks[m].sizeClass == from.sizeClass
  {
    FrontAvailable(x.chunks, x.lists, x.where, from);
    var rest := Popped(x.lists, from);
    MoveKeeps(x.chunks, x.lists, x.where, m, x.chunks[m], from, to, rest, PushedFront(rest, to, m));
    assert x.chunks[m := x.chunks[m]] == x.chunks;
    QueuesKept(x.chunks, x.lists, x.sizes, x.chunks, PushedFront(rest, to, m));
  }

  /** `*fl = malloc_info.AllocateChunks(...)`. */
  function Stocked(x: Snapshot, from: Place, to: Place): Snapshot
  {
    x.(lists := Appended(x.lists, from, to), where := Relabelled(x.where, from, to))
  }

  /** All chunks of a list are of one class. */
  ghost predicate OfClass(chunks: Chunks, s: seq<nat>, sizeClass: nat)
  {
    forall i :: 0 <= i < |s| ==> s[i] in chunks && chunks[s[i]].sizeClass == sizeClass
  }

  lemma {:induction false} StockSound(x: Snapshot, from: Place, to: Place)
    requires x in SoundStates() && from.Transit? && to.ThreadFree? && OfClass(x.chunks, ListAt(x.lists, from), to.sizeClass)
    ensures Stocked(x, from, to) in SoundStates()
  {
    assert Holds(ListAt(x.lists, from), x.where, from);
    forall a | a in x.where && x.where[a] == from ensures Belongs(x.chunks[a], to) {
      assert Belongs(x.chunks[a], x.where[a]);
      assert a in ListAt(x.lists, from);
    }
    AppendKeeps(x.chunks, x.lists, x.where, from, to);
    QueuesKept(x.chunks, x.lists, x.sizes, x.chunks, Appended(x.lists, from, to));
  }

  // ----- GetNewChunks()

  lemma {:induction false} CarvedHeaders(rz: nat, chunks: Chunks, memaligns: Memaligns, carved: Chunks)
    requires MemalignsOk(rz, chunks, memaligns) && chunks.Keys !! carved.Keys
    requires forall a :: a in carved ==> carved[a].state.Available?
    ensures MemalignsOk(rz, chunks + carved, memaligns)
  {
    var all := chunks + carved;
    forall q | q in memaligns ensures InChunk(rz, all, q, memaligns[q]) {
      assert InChunk(rz, chunks, q, memaligns[q]);
    }
    forall b | b in all && !all[b].state.Available? ensures HeaderOk(rz, memaligns, b, all[b]) {
      assert HeaderOk(rz, memaligns, b, chunks[b]);
    }
  }

  /** mmap may return mem: a page-aligned range inside the shadowed memory that meets nothing mapped before. */
  ghost predicate Mappable(x: Snapshot, mem: nat, sizeClass: nat)
  {
    && x.rz < sizeClass < CLASSES && IsAligned(mem, 12)
    && Separate(x.groups, GroupOf(mem, sizeClass)) && mem + MapBytes(sizeClass) <= GRANULARITY * x.n
  }

  lemma {:induction false} PageGranular(mem: nat, size: nat)
    requires IsAligned(mem, 12) && IsAligned(size, 12)
    ensures Aligned(mem) && Aligned(mem + size)
  {
    AlignedSum(mem, size, 12);
    Granular(mem, 12);
    Granular(mem + size, 12);
  }

  lemma {:induction false} PagesInside(x: Snapshot, mem: nat, sizeClass: nat)
    requires 5 <= x.rz && Mappable(x, mem, sizeClass)
    ensures Aligned(mem) && Aligned(mem + MapBytes(sizeClass)) && mem + MapBytes(sizeClass) <= GRANULARITY * x.n
    ensures MapFits(sizeClass, MapCount(sizeClass)) && RowOf(mem, sizeClass) != []
  {
    hide MapBytes, MapCount, SizeClassToSize, IsAligned, Aligned;
    MapNumbers(sizeClass);
    PageGranular(mem, MapBytes(sizeClass));
  }

  /** The pages at mem are carved up for an empty free list. */
  function Carved(x: Snapshot, mem: nat, sizeClass: nat, shadow: seq<Byte>): Snapshot
  {
    var carved := NewChunks(RowOf(mem, sizeClass), sizeClass);
    x.(chunks := x.chunks + carved, lists := x.lists[GlobalFree(sizeClass) := RowOf(mem, sizeClass)],
       where := x.where + AllAt(carved, GlobalFree(sizeClass)), groups := x.groups + [GroupOf(mem, sizeClass)], shadow := shadow)
  }

  lemma {:induction false} CarveSound(x: Snapshot, s': seq<Byte>, mem: nat, sizeClass: nat)
    requires x in SoundStates() && ListAt(x.lists, GlobalFree(sizeClass)) == [] && Mappable(x, mem, sizeClass)
    requires Painted(x.shadow, s', mem, MapBytes(sizeClass), HEAP_LEFT_REDZONE)
    ensures Carved(x, mem, sizeClass, s') in SoundStates()
    ensures Grown(x.chunks, Carved(x, mem, sizeClass, s').chunks)
  {
    hide Separate, Conserved, QueuesOk, ChunksOk, ChunkOk, GroupsOk, Housed, MemalignsOk, ShadowOk, Painted, Repainted;
    hide IsAligned, SizeClassToSize, MapCount, MapBytes, Spare, RowOf, NewChunks;
    var p, g, order := GlobalFree(sizeClass), GroupOf(mem, sizeClass), RowOf(mem, sizeClass);
    var carved := NewChunks(order, sizeClass);
    PagesCarved(x.rz, mem, sizeClass);
    MapNumbers(sizeClass);
    CarvedApart(x.rz, x.chunks, x.groups, carved, g);
    CarveKeeps(x.chunks, x.lists, x.where, carved, order, p);
    QueuesKept(x.chunks, x.lists, x.sizes, x.chunks + carved, x.lists[p := order]);
    CarvedShadow(x.rz, x.chunks, x.groups, carved, g, x.shadow, s');
    CarvedHoused(x.groups, x.chunks, carved, g);
    CarvedHeaders(x.rz, x.chunks, x.memaligns, carved);
    GroupAdded(x.groups, g, GRANULARITY * x.n);
  }

  lemma {:induction false} NewOnly(x: Snapshot, mem: nat, sizeClass: nat)
    requires x in SoundStates() && Mappable(x, mem, sizeClass)
    ensures x.chunks.Keys !! NewChunks(RowOf(mem, sizeClass), sizeClass).Keys
  {
    hide Separate, Conserved, QueuesOk, ChunksOk, ChunkOk, GroupsOk, Housed, MemalignsOk, ShadowOk, CarvedOk;
    hide IsAligned, SizeClassToSize, MapCount, MapBytes, Spare, RowOf, NewChunks;
    PagesCarved(x.rz, mem, sizeClass);
    CarvedApart(x.rz, x.chunks, x.groups, NewChunks(RowOf(mem, sizeClass), sizeClass), GroupOf(mem, sizeClass));
  }

  /** No chunk that was there before has changed. */
  ghost predicate Grown(chunks: Chunks, chunks': Chunks)
  {
    forall a :: a in chunks ==> a in chunks' && chunks'[a] == chunks[a]
  }

  lemma {:induction false} GroupAdded(groups: seq<Group>, g: Group, limit: nat)
    requires GroupsOk(groups, limit) && Separate(groups, g) && GroupOk(g) && g.end <= limit
    ensures GroupsOk(groups + [g], limit)
  {
  }
}
