/** The shadow bytes of the ASan heap, over runs: not only whether a byte of memory is poisoned, but with what value.
Reports tell an overflow from a use after free by these values. */
module AsanBytes {
  import opened Bits
  import opened Shadow
  import opened AsanSizes
  import opened AsanChunks
  import opened AsanLayout
  import opened AsanPages
  import opened Partition
  import opened AsanState
  import opened AsanRuns

  /** Granule k lies in the chunk at a. */
  predicate Within(a: nat, c: Chunk, k: nat) { a <= GRANULARITY * k < a + ChunkSize(c) }

  /** The byte of granule k in the chunk at a: for the memory the user has, rounded up, 0 where the whole granule is
      his, the number of his bytes where only the first are, and HEAP_RIGHT_REDZONE behind; HEAP_FREE for memory he has
      given back; and HEAP_LEFT_REDZONE for all the rest. */
  function ByteIn(rz: nat, a: nat, c: Chunk, k: nat): Byte
  {
    var beg, x := Beg(a, c.alignLog), GRANULARITY * k;
    if c.state.Available? || !(beg <= x < beg + RoundUp(c.used, rz)) then HEAP_LEFT_REDZONE
    else if c.state.Quarantine? then HEAP_FREE
    else if x + GRANULARITY <= beg + c.used then 0
    else if x < beg + c.used then c.used % GRANULARITY
    else HEAP_RIGHT_REDZONE
  }

  ghost predicate HeapGranule(groups: seq<Group>, k: nat) { Mapped(groups, GRANULARITY * k) }

  /** Granules of the heap's pages outside all chunks have HEAP_LEFT_REDZONE as well. */
  ghost predicate GranuleOk(x: Snapshot, k: nat)
  {
    && k < |x.shadow|
    && (forall a :: a in x.chunks && Within(a, x.chunks[a], k) ==> x.shadow[k] == ByteIn(x.rz, a, x.chunks[a], k))
    && ((forall a :: a in x.chunks ==> !Within(a, x.chunks[a], k)) ==> x.shadow[k] == HEAP_LEFT_REDZONE)
  }

  ghost predicate BytesOk(x: Snapshot)
  {
    forall k: nat {:trigger HeapGranule(x.groups, k)} :: HeapGranule(x.groups, k) ==> GranuleOk(x, k)
  }

  // ----- One chunk changes

  /** Inside chunk m the bytes are right for c, and elsewhere they are as before. */
  ghost predicate Rewritten(s: seq<Byte>, s': seq<Byte>, rz: nat, m: nat, c: Chunk)
  {
    && |s'| == |s|
    && forall k: nat :: k < |s| ==> s'[k] == if Within(m, c, k) then ByteIn(rz, m, c, k) else s[k]
  }

  lemma {:induction false} ChangeBytes(x: Snapshot, y: Snapshot, m: nat, c: Chunk)
    requires x in SoundStates() && BytesOk(x) && m in x.chunks && c.sizeClass == x.chunks[m].sizeClass
    requires y.rz == x.rz && y.groups == x.groups && y.chunks == x.chunks[m := c] && Rewritten(x.shadow, y.shadow, x.rz, m, c)
    ensures BytesOk(y)
  {
    hide SoundStates, BytesOk, Rewritten, ByteIn, Within, HeapGranule, GranuleOk;
    forall k: nat | HeapGranule(y.groups, k) ensures GranuleOk(y, k) {
      BytesAt(x, k);
      ChangeByte(x, y, m, c, k);
    }
    BytesEach(y);
  }

  lemma {:induction false} ChangeByte(x: Snapshot, y: Snapshot, m: nat, c: Chunk, k: nat)
    requires x in SoundStates() && GranuleOk(x, k) && m in x.chunks && c.sizeClass == x.chunks[m].sizeClass
    requires y.rz == x.rz && y.groups == x.groups && y.chunks == x.chunks[m := c] && Rewritten(x.shadow, y.shadow, x.rz, m, c)
    ensures GranuleOk(y, k)
  {
    hide SoundStates, ByteIn, ChunkSize;
    SameWithin(m, x.chunks[m], c, k);
    if Within(m, c, k) {
      OnlyChunk(x, m, k);
      assert y.chunks[m] == c;
      forall a | a in y.chunks && a != m ensures !Within(a, y.chunks[a], k) {
        assert y.chunks[a] == x.chunks[a];
      }
    } else {
      assert forall a :: a in x.chunks && Within(a, x.chunks[a], k) ==> a in y.chunks && y.chunks[a] == x.chunks[a];
      assert forall a :: a in y.chunks && Within(a, y.chunks[a], k) ==> a != m;
    }
  }

  lemma {:induction false} SameWithin(m: nat, c: Chunk, d: Chunk, k: nat)
    requires c.sizeClass == d.sizeClass
    ensures Within(m, c, k) <==> Within(m, d, k)
  {
  }

  /** Chunks do not overlap. */
  lemma {:induction false} OnlyChunk(x: Snapshot, m: nat, k: nat)
    requires x in SoundStates() && m in x.chunks && Within(m, x.chunks[m], k)
    ensures forall a :: a in x.chunks && Within(a, x.chunks[a], k) ==> a == m
  {
    hide Conserved, QueuesOk, GroupsOk, Housed, MemalignsOk, ShadowOk;
  }

  /** A granule of a chunk is one of the heap's pages. */
  lemma {:induction false} ChunkGranule(x: Snapshot, m: nat, k: nat)
    requires x in SoundStates() && BytesOk(x) && m in x.chunks && Within(m, x.chunks[m], k)
    ensures k < |x.shadow| && x.shadow[k] == ByteIn(x.rz, m, x.chunks[m], k)
  {
    hide Conserved, QueuesOk, ChunksOk, GroupsOk, MemalignsOk, ShadowOk, ByteIn;
    assert Home(x.groups, m, x.chunks[m]);
    HomeMapped(x.groups, m, x.chunks[m], GRANULARITY * k);
    assert HeapGranule(x.groups, k);
    assert GranuleOk(x, k);
  }

  /** memset() over whole granules. */
  lemma {:induction false} FilledAt(s: seq<Byte>, addr: nat, size: nat, value: Byte, k: nat)
    requires Aligned(addr) && Aligned(addr + size) && k < |s|
    ensures |Filled(s, addr, size, value)| == |s|
    ensures Filled(s, addr, size, value)[k] == if addr <= GRANULARITY * k < addr + size then value else s[k]
  {
  }

  // ----- The moves

  lemma {:induction false} HandBytes(x: Snapshot, from: Place, m: nat, al: nat, size: nat)
    requires x in SoundStates() && BytesOk(x) && (from.ThreadFree? || from.Transit?) && ListAt(x.lists, from) != []
    requires ListAt(x.lists, from)[0] == m && m in x.chunks && size > 0
    requires Needed(x.rz, al, size) <= ChunkSize(x.chunks[m])
    ensures Rewritten(x.shadow, HandShadow(x, m, al, size), x.rz, m, NewChunk(x.rz, m, x.chunks[m], al, size))
  {
    hide SoundStates, BytesOk, Placed, PlacedLog, Beg, RoundUp, Needed, ChunkSize, Pow2, Low, Filled, RedzoneFilled;
    var c, s' := NewChunk(x.rz, m, x.chunks[m], al, size), HandShadow(x, m, al, size);
    SnapshotSize(x);
    HandOutFacts(x, from, m, al, size);
    HandPlace(x, m, al, size);
    HandLength(x, m, al, size);
    forall k: nat | k < |x.shadow| ensures s'[k] == if Within(m, c, k) then ByteIn(x.rz, m, c, k) else x.shadow[k] {
      if Within(m, c, k) { ChunkGranule(x, m, k); }
      HandByte(x, m, al, size, k);
    }
  }

  lemma {:induction false} HandLength(x: Snapshot, m: nat, al: nat, size: nat)
    ensures |HandShadow(x, m, al, size)| == |x.shadow|
  {
  }

  /** Where the user's memory is. */
  lemma {:induction false} HandPlace(x: Snapshot, m: nat, al: nat, size: nat)
    requires x in SoundStates() && m in x.chunks && size > 0 && Needed(x.rz, al, size) <= ChunkSize(x.chunks[m])
    ensures var c := NewChunk(x.rz, m, x.chunks[m], al, size);
      && Beg(m, c.alignLog) == Placed(m, x.rz, al) >= m && ChunkSize(c) == ChunkSize(x.chunks[m])
      && Placed(m, x.rz, al) + RoundUp(size, x.rz) <= m + ChunkSize(c)
    ensures size <= RoundUp(size, x.rz)
    ensures size < RoundUp(size, x.rz) ==> RoundUp(size, x.rz) - Pow2(x.rz) + Low(size, x.rz) == size
  {
    hide Conserved, QueuesOk, GroupsOk, Housed, MemalignsOk, ShadowOk, Placed, PlacedLog, Beg, RoundUp, Needed;
    ChunkAt(x.rz, x.chunks, m);
    NewChunkOk(x.rz, m, x.chunks[m], al, size);
    BegIsPlaced(m, x.rz, al);
    RoundUpLeast(size, x.rz);
    LastRedzone(size, x.rz);
  }

  /** What Allocate() writes for one granule. */
  lemma {:induction false} HandByte(x: Snapshot, m: nat, al: nat, size: nat, k: nat)
    requires k < |x.shadow| && m in x.chunks
    requires var c := NewChunk(x.rz, m, x.chunks[m], al, size);
      && Beg(m, c.alignLog) == Placed(m, x.rz, al) >= m && ChunkSize(c) == ChunkSize(x.chunks[m])
      && Placed(m, x.rz, al) + RoundUp(size, x.rz) <= m + ChunkSize(c)
    requires var addr, rounded := Placed(m, x.rz, al), RoundUp(size, x.rz);
      && Aligned(addr) && Aligned(addr + rounded) && rounded >= Pow2(x.rz) && Aligned(addr + rounded - Pow2(x.rz))
      && size <= rounded && (size < rounded ==> rounded - Pow2(x.rz) + Low(size, x.rz) == size)
    requires Within(m, x.chunks[m], k) ==> x.shadow[k] == HEAP_LEFT_REDZONE
    ensures k < |HandShadow(x, m, al, size)|
    ensures var c := NewChunk(x.rz, m, x.chunks[m], al, size);
      HandShadow(x, m, al, size)[k] == if Within(m, c, k) then ByteIn(x.rz, m, c, k) else x.shadow[k]
  {
    hide Placed, PlacedLog, Beg, RoundUp, ChunkSize, Pow2, Low, Filled, RedzoneFilled, PartialByte, Aligned;
    var addr, rounded := Placed(m, x.rz, al), RoundUp(size, x.rz);
    var s1, last := Filled(x.shadow, addr, rounded, 0), addr + rounded - Pow2(x.rz);
    FilledAt(x.shadow, addr, rounded, 0, k);
    RedzoneAt(s1, last, Low(size, x.rz), Pow2(x.rz), HEAP_RIGHT_REDZONE, k);
    GranuleBelow(last, k);
    GranuleBelow(addr + rounded, k);
    if size < rounded && last <= GRANULARITY * k { LastGranules(addr, last, Low(size, x.rz), size, k); }
  }

  lemma {:induction false} GranuleBelow(boundary: nat, k: nat)
    requires Aligned(boundary)
    ensures GRANULARITY * k < boundary ==> GRANULARITY * k + GRANULARITY <= boundary
  {
  }

  lemma {:induction false} RedzoneAt(s: seq<Byte>, addr: nat, size: nat, redzone: nat, value: Byte, k: nat)
    requires k < |s|
    ensures |RedzoneFilled(s, addr, size, redzone, value)| == |s|
    ensures RedzoneFilled(s, addr, size, redzone, value)[k] ==
      if addr <= GRANULARITY * k < addr + redzone then PartialByte(GRANULARITY * k - addr, size, value) else s[k]
  {
  }

  /** The last redzone of the user's rounded memory starts at last, with low of his size bytes in it. */
  lemma {:induction false} LastGranules(addr: nat, last: nat, low: nat, size: nat, k: nat)
    requires Aligned(addr) && Aligned(last)
    requires last + low == addr + size && last <= GRANULARITY * k
    ensures PartialByte(GRANULARITY * k - last, low, HEAP_RIGHT_REDZONE) ==
      if GRANULARITY * k + GRANULARITY <= addr + size then 0
      else if GRANULARITY * k < addr + size then size % GRANULARITY
      else HEAP_RIGHT_REDZONE
  {
  }

  lemma {:induction false} FreeBytes(x: Snapshot, a: nat)
    requires x in SoundStates() && BytesOk(x) && a in x.chunks && x.chunks[a].state.Allocated?
    ensures Rewritten(x.shadow, FreeShadow(x, a), x.rz, a, x.chunks[a].(state := Quarantine))
  {
    hide SoundStates, BytesOk, Beg, RoundUp, ChunkSize, Filled;
    var c := x.chunks[a];
    SnapshotSize(x);
    RetireFacts(x, a);
    FreePlace(x, a);
    forall k: nat | k < |x.shadow|
      ensures k < |FreeShadow(x, a)|
      ensures FreeShadow(x, a)[k] == if Within(a, c, k) then ByteIn(x.rz, a, c.(state := Quarantine), k) else x.shadow[k]
    {
      FilledAt(x.shadow, Beg(a, c.alignLog), RoundUp(c.used, x.rz), HEAP_FREE, k);
      if Within(a, c, k) { ChunkGranule(x, a, k); }
    }
    FreeLength(x, a);
  }

  lemma {:induction false} FreeLength(x: Snapshot, a: nat)
    requires a in x.chunks
    ensures |FreeShadow(x, a)| == |x.shadow|
  {
  }

  lemma {:induction false} FreePlace(x: Snapshot, a: nat)
    requires x in SoundStates() && a in x.chunks && x.chunks[a].state.Allocated?
    ensures var c := x.chunks[a];
      a <= Beg(a, c.alignLog) && Beg(a, c.alignLog) + RoundUp(c.used, x.rz) <= a + ChunkSize(c)
      && ChunkSize(c.(state := Quarantine)) == ChunkSize(c)
  {
    hide Conserved, QueuesOk, GroupsOk, Housed, MemalignsOk, ShadowOk, Beg, RoundUp;
    ChunkAt(x.rz, x.chunks, a);
  }

  lemma {:induction false} EvictBytes(x: Snapshot, m: nat)
    requires x in SoundStates() && ListAt(x.lists, GlobalQuarantine) != [] && ListAt(x.lists, GlobalQuarantine)[0] == m && m in x.chunks
    ensures Rewritten(x.shadow, EvictShadow(x, m), x.rz, m, x.chunks[m].(state := Available))
  {
    hide SoundStates, ChunkSize, Filled;
    SnapshotSize(x);
    EvictFacts(x, m);
    SameSize(x.chunks[m]);
    forall k: nat | k < |x.shadow|
      ensures k < |EvictShadow(x, m)|
      ensures EvictShadow(x, m)[k] == if Within(m, x.chunks[m], k) then HEAP_LEFT_REDZONE else x.shadow[k]
    {
      FilledAt(x.shadow, m, ChunkSize(x.chunks[m]), HEAP_LEFT_REDZONE, k);
    }
    EvictLength(x, m);
  }

  lemma {:induction false} SameSize(c: Chunk)
    ensures ChunkSize(c.(state := Available)) == ChunkSize(c)
  {
  }

  lemma {:induction false} EvictLength(x: Snapshot, m: nat)
    requires m in x.chunks
    ensures |EvictShadow(x, m)| == |x.shadow|
  {
  }

  lemma {:induction false} CarveBytes(x: Snapshot, mem: nat, sizeClass: nat)
    requires x in SoundStates() && BytesOk(x) && Mappable(x, mem, sizeClass)
    ensures BytesOk(Carved(x, mem, sizeClass, PagesShadow(x, mem, sizeClass)))
  {
    hide SoundStates, BytesOk, Mappable, NewChunks, RowOf, GroupOf, MapBytes, Filled, ByteIn, ChunkSize;
    var y := Carved(x, mem, sizeClass, PagesShadow(x, mem, sizeClass));
    forall k: nat | HeapGranule(y.groups, k) ensures GranuleOk(y, k) {
      CarveByte(x, mem, sizeClass, k);
    }
    BytesEach(y);
  }

  lemma {:induction false} BytesEach(x: Snapshot)
    requires forall k: nat :: HeapGranule(x.groups, k) ==> GranuleOk(x, k)
    ensures BytesOk(x)
  {
    hide HeapGranule, GranuleOk;
  }

  lemma {:induction false} BytesAt(x: Snapshot, k: nat)
    requires BytesOk(x) && HeapGranule(x.groups, k)
    ensures GranuleOk(x, k)
  {
    hide HeapGranule, GranuleOk;
  }

  lemma {:induction false} CarveByte(x: Snapshot, mem: nat, sizeClass: nat, k: nat)
    requires x in SoundStates() && BytesOk(x) && Mappable(x, mem, sizeClass)
    requires HeapGranule(Carved(x, mem, sizeClass, PagesShadow(x, mem, sizeClass)).groups, k)
    ensures GranuleOk(Carved(x, mem, sizeClass, PagesShadow(x, mem, sizeClass)), k)
  {
    hide SoundStates, BytesOk, Filled, ByteIn, ChunkSize, Mappable, MapBytes, NewChunks, RowOf, Aligned;
    var y := Carved(x, mem, sizeClass, PagesShadow(x, mem, sizeClass));
    SnapshotSize(x);
    PagesInside(x, mem, sizeClass);
    CarvedChunks(x, mem, sizeClass);
    assert GroupOf(mem, sizeClass).beg == mem && GroupOf(mem, sizeClass).end == mem + MapBytes(sizeClass);
    if mem <= GRANULARITY * k < mem + MapBytes(sizeClass) {
      FilledAt(x.shadow, mem, MapBytes(sizeClass), HEAP_LEFT_REDZONE, k);
      forall a | a in y.chunks && Within(a, y.chunks[a], k) ensures y.chunks[a].state.Available? {
      }
      AvailableBytes(y.rz, k);
    } else {
      StillMapped(x, mem, sizeClass, k);
      BytesAt(x, k);
      FilledAt(x.shadow, mem, MapBytes(sizeClass), HEAP_LEFT_REDZONE, k);
      forall a | a in y.chunks && Within(a, y.chunks[a], k) ensures a in x.chunks && y.chunks[a] == x.chunks[a] {
      }
    }
  }

  lemma {:induction false} AvailableBytes(rz: nat, k: nat)
    ensures forall a: nat, c: Chunk :: c.state.Available? ==> ByteIn(rz, a, c, k) == HEAP_LEFT_REDZONE
  {
  }

  lemma {:induction false} StillMapped(x: Snapshot, mem: nat, sizeClass: nat, k: nat)
    requires HeapGranule(x.groups + [GroupOf(mem, sizeClass)], k)
    requires !(mem <= GRANULARITY * k < mem + MapBytes(sizeClass))
    ensures HeapGranule(x.groups, k)
  {
  }

  /** The chunks of the new pages are in them, and the older ones are not. */
  lemma {:induction false} CarvedChunks(x: Snapshot, mem: nat, sizeClass: nat)
    requires x in SoundStates() && Mappable(x, mem, sizeClass)
    ensures var carved := NewChunks(RowOf(mem, sizeClass), sizeClass);
      && (forall a :: a in carved ==> carved[a].state.Available? && mem <= a && a + ChunkSize(carved[a]) <= mem + MapBytes(sizeClass))
      && (forall a :: a in x.chunks ==> a !in carved)
      && (forall a :: a in x.chunks ==> a + ChunkSize(x.chunks[a]) <= mem || mem + MapBytes(sizeClass) <= a)
  {
    hide Separate, Conserved, QueuesOk, ChunksOk, ChunkOk, GroupsOk, Housed, MemalignsOk, ShadowOk, ChunkSize;
    hide IsAligned, SizeClassToSize, MapCount, MapBytes, Spare, RowOf, NewChunks;
    var carved, g := NewChunks(RowOf(mem, sizeClass), sizeClass), GroupOf(mem, sizeClass);
    PagesCarved(x.rz, mem, sizeClass);
    CarvedApart(x.rz, x.chunks, x.groups, carved, g);
  }

  // ----- Runs

  lemma {:induction false} MoveBytes(x: Snapshot, v: Move)
    requires x in SoundStates() && BytesOk(x) && Allowed(x, v)
    ensures BytesOk(After(x, v))
  {
    hide SoundStates, BytesOk, Mappable, Rewritten, PagesShadow, HandShadow, FreeShadow, EvictShadow, NewChunk, Needed, NewMemaligns,
      FreedMemaligns, ChunkSize, RowOf, NewChunks, GroupOf;
    var y := After(x, v);
    match v
    case Carve(mem, sizeClass) => CarveBytes(x, mem, sizeClass);
    case Shift(_, _) => SameBytes(x, y);
    case Stock(_, _) => SameBytes(x, y);
    case Hand(from, al, size) =>
      var m := ListAt(x.lists, from)[0];
      HandBytes(x, from, m, al, size);
      NewClass(x.rz, m, x.chunks[m], al, size);
      ChangeBytes(x, y, m, NewChunk(x.rz, m, x.chunks[m], al, size));
    case Free(a, to) =>
      FreeBytes(x, a);
      ChangeBytes(x, y, a, x.chunks[a].(state := Quarantine));
    case Surrender(_) => SameBytes(x, y);
    case Evict =>
      var m := ListAt(x.lists, GlobalQuarantine)[0];
      EvictBytes(x, m);
      ChangeBytes(x, y, m, x.chunks[m].(state := Available));
  }

  lemma {:induction false} NewClass(rz: nat, m: nat, c: Chunk, al: nat, size: nat)
    ensures NewChunk(rz, m, c, al, size).sizeClass == c.sizeClass
  {
  }

  lemma {:induction false} SameBytes(x: Snapshot, y: Snapshot)
    requires BytesOk(x) && y.rz == x.rz && y.chunks == x.chunks && y.groups == x.groups && y.shadow == x.shadow
    ensures BytesOk(y)
  {
    hide ByteIn;
    forall k: nat | HeapGranule(y.groups, k) ensures GranuleOk(y, k) {
      assert GranuleOk(x, k);
    }
  }

  lemma {:induction false} StateBytes(xs: seq<Snapshot>, vs: seq<Move>, i: nat)
    requires IsRun(xs, vs) && i <= |vs|
    ensures BytesOk(xs[i])
  {
    hide SoundStates, BytesOk, Allowed, After, Fresh;
    if i == 0 {
      FreshBytes(xs[0]);
    } else {
      StateBytes(xs, vs, i - 1);
      StateSound(xs, vs, i - 1);
      assert StepAt(xs, vs, i - 1);
      MoveBytes(xs[i - 1], vs[i - 1]);
    }
  }

  lemma {:induction false} FreshBytes(x: Snapshot)
    requires Fresh(x)
    ensures BytesOk(x)
  {
  }

  /** In every state of every run, the shadow byte of every granule of the heap's pages: what its chunk's state and
      request say, and HEAP_LEFT_REDZONE outside the chunks. */
  lemma {:induction false} ExactBytes(xs: seq<Snapshot>, vs: seq<Move>, i: nat, k: nat)
    requires IsRun(xs, vs) && i <= |vs| && HeapGranule(xs[i].groups, k)
    ensures k < |xs[i].shadow|
    ensures forall a :: a in xs[i].chunks && Within(a, xs[i].chunks[a], k) ==>
      xs[i].shadow[k] == ByteIn(xs[i].rz, a, xs[i].chunks[a], k)
    ensures (forall a :: a in xs[i].chunks ==> !Within(a, xs[i].chunks[a], k)) ==> xs[i].shadow[k] == HEAP_LEFT_REDZONE
  {
    StateBytes(xs, vs, i);
    hide IsRun, ByteIn;
    BytesAt(xs[i], k);
  }

  /** What a report can rely on: a poisoned byte of memory has the shadow byte HEAP_FREE exactly if it was in the rounded
      memory of a chunk that is in quarantine. */
  lemma {:induction false} FreedTold(xs: seq<Snapshot>, vs: seq<Move>, i: nat, addr: nat)
    requires IsRun(xs, vs) && i <= |vs| && Mapped(xs[i].groups, addr)
    ensures addr / GRANULARITY < |xs[i].shadow|
    ensures xs[i].shadow[addr / GRANULARITY] == HEAP_FREE <==>
      exists a :: a in xs[i].chunks && GivenBack(xs[i].rz, a, xs[i].chunks[a], addr)
  {
    StateBytes(xs, vs, i);
    StateSound(xs, vs, i);
    hide IsRun;
    var x, k := xs[i], addr / GRANULARITY;
    WholeGranule(x, addr);
    BytesAt(x, k);
    forall a | a in x.chunks && GivenBack(x.rz, a, x.chunks[a], addr) ensures x.shadow[k] == HEAP_FREE {
      GivenBackGranule(x, a, addr);
    }
    if x.shadow[k] == HEAP_FREE {
      var a :| a in x.chunks && Within(a, x.chunks[a], k);
      GranuleGivenBack(x, a, addr);
    }
  }

  predicate GivenBack(rz: nat, a: nat, c: Chunk, addr: nat)
  {
    c.state.Quarantine? && Beg(a, c.alignLog) <= addr < Beg(a, c.alignLog) + RoundUp(c.used, rz)
  }

  /** Groups start at granules. */
  lemma {:induction false} WholeGranule(x: Snapshot, addr: nat)
    requires x in SoundStates() && Mapped(x.groups, addr)
    ensures HeapGranule(x.groups, addr / GRANULARITY)
  {
    hide Conserved, QueuesOk, ChunksOk, Housed, MemalignsOk, ShadowOk;
    var i :| 0 <= i < |x.groups| && x.groups[i].beg <= addr < x.groups[i].end;
    assert GroupOk(x.groups[i]);
    GranuleStart(x.groups[i].beg, addr);
    assert x.groups[i].beg <= GRANULARITY * (addr / GRANULARITY) < x.groups[i].end;
  }

  /** A granule is on one side of every boundary of granules. */
  lemma {:induction false} GranuleStart(boundary: nat, addr: nat)
    requires Aligned(boundary)
    ensures boundary <= addr <==> boundary <= GRANULARITY * (addr / GRANULARITY)
  {
  }

  /** The memory a user has or had is whole granules of his chunk. */
  lemma {:induction false} UserGranules(x: Snapshot, a: nat)
    requires x in SoundStates() && a in x.chunks && !x.chunks[a].state.Available?
    ensures var c := x.chunks[a];
      var beg, rounded := Beg(a, c.alignLog), RoundUp(c.used, x.rz);
      Aligned(beg) && Aligned(beg + rounded) && a <= beg && beg + rounded <= a + ChunkSize(c)
  {
    hide Conserved, QueuesOk, GroupsOk, Housed, MemalignsOk, ShadowOk, Beg, RoundUp, ChunkSize, Pow2, IsAligned, Aligned;
    var c := x.chunks[a];
    ChunkAt(x.rz, x.chunks, a);
    RoundUpLeast(c.used, x.rz);
    AlignedSum(Beg(a, c.alignLog), RoundUp(c.used, x.rz), x.rz);
    Granular(Beg(a, c.alignLog), x.rz);
    Granular(Beg(a, c.alignLog) + RoundUp(c.used, x.rz), x.rz);
  }

  lemma {:induction false} GivenBackGranule(x: Snapshot, a: nat, addr: nat)
    requires x in SoundStates() && BytesOk(x) && a in x.chunks && GivenBack(x.rz, a, x.chunks[a], addr)
    ensures addr / GRANULARITY < |x.shadow| && x.shadow[addr / GRANULARITY] == HEAP_FREE
  {
    hide SoundStates, BytesOk, Beg, RoundUp, ChunkSize, Aligned;
    var c := x.chunks[a];
    UserGranules(x, a);
    GranuleStart(Beg(a, c.alignLog), addr);
    GranuleStart(Beg(a, c.alignLog) + RoundUp(c.used, x.rz), addr);
    ChunkGranule(x, a, addr / GRANULARITY);
  }

  lemma {:induction false} GranuleGivenBack(x: Snapshot, a: nat, addr: nat)
    requires x in SoundStates() && BytesOk(x) && a in x.chunks && Within(a, x.chunks[a], addr / GRANULARITY)
    requires addr / GRANULARITY < |x.shadow| && x.shadow[addr / GRANULARITY] == HEAP_FREE
    ensures GivenBack(x.rz, a, x.chunks[a], addr)
  {
    hide SoundStates, BytesOk, Beg, RoundUp, ChunkSize, Aligned;
    var c := x.chunks[a];
    ChunkGranule(x, a, addr / GRANULARITY);
    UserGranules(x, a);
    GranuleStart(Beg(a, c.alignLog), addr);
    GranuleStart(Beg(a, c.alignLog) + RoundUp(c.used, x.rz), addr);
  }
}
