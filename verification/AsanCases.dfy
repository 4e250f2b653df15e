/** Runs of the heap of lib/asan/asan_allocator.cc, from the start of the process, that end in a free which the
allocator does not see for what it is. */
module AsanCases {
  import opened Bits
  import opened Shadow
  import opened AsanSizes
  import opened AsanChunks
  import opened AsanLayout
  import opened AsanPages
  import opened Partition
  import opened AsanState
  import opened AsanRuns
  import opened Options

  // ----- Moves

  /** The first chunk that new pages give: the last one in them. */
  function FirstChunk(mem: nat, sizeClass: nat): nat { GroupOf(mem, sizeClass).last }

  lemma {:induction false} MapFront(mem: nat, sizeClass: nat)
    requires 6 <= sizeClass
    ensures RowOf(mem, sizeClass) != [] && RowOf(mem, sizeClass)[0] == FirstChunk(mem, sizeClass)
    ensures mem <= FirstChunk(mem, sizeClass) && FirstChunk(mem, sizeClass) + SizeClassToSize(sizeClass) <= mem + MapBytes(sizeClass)
    ensures FirstChunk(mem, sizeClass) in NewChunks(RowOf(mem, sizeClass), sizeClass)
  {
    hide SizeClassToSize, MapBytes, MapCount, Spare, IsAligned, Row;
    MapNumbers(sizeClass);
    RowFront(mem, SizeClassToSize(sizeClass), MapCount(sizeClass));
    SizePositive(Chunk(Available, sizeClass, 0, 0));
    MulSign(MapCount(sizeClass) - 1, SizeClassToSize(sizeClass));
    Distrib(MapCount(sizeClass) - 1, 1, SizeClassToSize(sizeClass));
  }

  lemma {:induction false} Map(x: Snapshot, mem: nat, sizeClass: nat) returns (y: Snapshot)
    requires x in ReachedStates() && ListAt(x.lists, GlobalFree(sizeClass)) == [] && Mappable(x, mem, sizeClass)
    ensures y in ReachedStates() && Next(x, y) && y == Carved(x, mem, sizeClass, y.shadow) && sizeClass >= 6 && y.rz == x.rz
    ensures ListAt(y.lists, GlobalFree(sizeClass)) != [] && ListAt(y.lists, GlobalFree(sizeClass))[0] == FirstChunk(mem, sizeClass)
  {
    hide SoundStates, ReachedStates, Next, Leads, PagesShadow, MapBytes, MapCount, Mappable, RowOf, NewChunks, FirstChunk;
    ReachedSound(x);
    MapClass(x, mem, sizeClass);
    MapFront(mem, sizeClass);
    CarveReached(x, PagesShadow(x, mem, sizeClass), mem, sizeClass);
    y := Carved(x, mem, sizeClass, PagesShadow(x, mem, sizeClass));
  }

  lemma {:induction false} MapClass(x: Snapshot, mem: nat, sizeClass: nat)
    requires 5 <= x.rz && Mappable(x, mem, sizeClass)
    ensures sizeClass >= 6
  {
  }

  /** Chunk m is the user's; he has asked for size bytes, and ptr is what he got. */
  ghost predicate Gives(y: Snapshot, m: nat, size: nat, ptr: nat)
  {
    m in y.chunks && y.chunks[m].state.Allocated? && y.chunks[m].used == size && Beg(m, y.chunks[m].alignLog) == ptr
  }

  /** The class that Allocate() takes a chunk of. */
  function ClassFor(rz: nat, al: nat, size: nat): nat { SizeToSizeClass(Needed(rz, al, size)) }

  /** Allocate() can do it. */
  predicate Sized(rz: nat, al: nat, size: nat) { 0 < size && Needed(rz, al, size) <= MAX_ALLOWED }

  /** The chunk in front of the global list of its class goes to a user whose thread ASan does not know. */
  lemma {:induction false} Take(x: Snapshot, m: nat, al: nat, size: nat) returns (mid: Snapshot, v: Move, y: Snapshot)
    requires x in ReachedStates() && Sized(x.rz, al, size)
    requires ListAt(x.lists, GlobalFree(ClassFor(x.rz, al, size))) != [] && ListAt(x.lists, GlobalFree(ClassFor(x.rz, al, size)))[0] == m
    ensures mid in ReachedStates() && mid == Shifted(x, GlobalFree(ClassFor(x.rz, al, size)), BUILT, m)
    ensures ListAt(mid.lists, BUILT) != [] && m in mid.chunks
    ensures y in ReachedStates() && y == HandedOut(mid, BUILT, m, al, size, y.shadow) && Hands(mid, v, y, m, al, size)
    ensures Leads(x, y) && Gives(y, m, size, Placed(m, x.rz, al))
  {
    hide SoundStates, ReachedStates, Next, Leads, SizeToSizeClass, SizeClassToSize, Needed, HandShadow, NewMemaligns;
    hide Placed, PlacedLog, Beg;
    var p := GlobalFree(ClassFor(x.rz, al, size));
    ShiftReached(x, p, BUILT, m);
    mid := Shifted(x, p, BUILT, m);
    ReachedSound(x);
    RequestClass(x.rz, al, size);
    var s := HandShadow(mid, m, al, size);
    HandReached(mid, BUILT, m, al, size, s);
    v := Hand(BUILT, al, size);
    y := HandedOut(mid, BUILT, m, al, size, s);
    ReachedSound(mid);
    HandedParts(mid, v, y, m, al, size);
    LeadsOne(x, mid);
    LeadsOne(mid, y);
    LeadsOn(x, mid, y);
  }

  /** The user frees chunk a. */
  lemma {:induction false} Return(x: Snapshot, a: nat, p: Place) returns (y: Snapshot)
    requires x in ReachedStates() && a in x.chunks && x.chunks[a].state.Allocated? && (p.ThreadQuarantine? || p.GlobalQuarantine?)
    ensures y in ReachedStates() && Next(x, y) && y == FreedTo(x, a, p, y.shadow)
    ensures Allowed(x, Free(a, p)) && y == After(x, Free(a, p))
  {
    hide SoundStates, ReachedStates, Next, Leads, FreeShadow;
    FreeReached(x, a, p, FreeShadow(x, a));
    y := FreedTo(x, a, p, FreeShadow(x, a));
  }

  /** QuarantinePop(), while the quarantine is too large. */
  lemma {:induction false} Pop(x: Snapshot, m: nat) returns (y: Snapshot)
    requires x in ReachedStates() && SizeAt(x.sizes, GlobalQuarantine) > x.limit
    requires ListAt(x.lists, GlobalQuarantine) != [] && ListAt(x.lists, GlobalQuarantine)[0] == m
    ensures m in x.chunks && SizeAt(x.sizes, GlobalQuarantine) >= ChunkSize(x.chunks[m])
    ensures y in ReachedStates() && Next(x, y) && y == Evicted(x, m, y.shadow)
  {
    hide SoundStates, ReachedStates, Next, Leads, EvictShadow, ChunkSize;
    ReachedSound(x);
    EvictFacts(x, m);
    EvictReached(x, m, EvictShadow(x, m));
    y := Evicted(x, m, EvictShadow(x, m));
  }

  // ----- A second free that is not noticed

  /** With redzones of up to 1024 bytes, whatever is asked for at twice the redzone: the first such pointer of a
      process, freed twice, is reported as one that malloc() did not return if the free stack says so. */
  lemma {:induction false} SecondFreeReached(x: Snapshot, mem: nat, size: nat)
    returns (y: Snapshot, z: Snapshot, m: nat, ptr: nat)
    requires Fresh(x) && x.rz <= 10 && Sized(x.rz, x.rz + 1, size) && Mappable(x, mem, ClassFor(x.rz, x.rz + 1, size))
    ensures m == FirstChunk(mem, ClassFor(x.rz, x.rz + 1, size)) && ptr == m + 2 * Pow2(x.rz)
    ensures y in ReachedStates() && Gives(y, m, size, ptr)
    ensures z in ReachedStates() && z == FreedTo(y, m, GlobalQuarantine, z.shadow) && OutcomeIn(z, ptr, Available) == NotMalloced
  {
    hide SoundStates, ReachedStates, Next, Leads, SizeToSizeClass, Needed, Mappable, OutcomeIn, Allowed, After, Hands, Beg, Placed, Carved, FirstChunk;
    var c := ClassFor(x.rz, x.rz + 1, size);
    FreshReached(x);
    var x1 := Map(x, mem, c);
    m := FirstChunk(mem, c);
    var mid, v;
    mid, v, y := Take(x1, m, x.rz + 1, size);
    ReachedSound(mid);
    HandedParts(mid, v, y, m, x.rz + 1, size);
    ptr := Placed(m, x.rz, x.rz + 1);
    z := Return(y, m, GlobalQuarantine);
    NotNoticed(mid, v, y, Free(m, GlobalQuarantine), z, m, size);
  }

  lemma {:induction false} HandedThenFreed(x: Snapshot, v: Move, y: Snapshot, w: Move, z: Snapshot, m: nat, size: nat)
    requires Hands(x, v, y, m, x.rz + 1, size) && w.Free? && w.chunk == m && Allowed(y, w) && z == After(y, w)
    ensures HandedAndFreed(x, v, y, w, z, m, x.rz + 1)
  {
    hide Allowed, After;
  }

  lemma {:induction false} NotNoticed(x: Snapshot, v: Move, y: Snapshot, w: Move, z: Snapshot, m: nat, size: nat)
    requires x in SoundStates() && x.rz <= 10 && Hands(x, v, y, m, x.rz + 1, size)
    requires w.Free? && w.chunk == m && Allowed(y, w) && z == After(y, w)
    ensures Placed(m, x.rz, x.rz + 1) == m + 2 * Pow2(x.rz)
    ensures OutcomeIn(z, Placed(m, x.rz, x.rz + 1), Available) == NotMalloced
  {
    hide SoundStates, Beg, Placed, IsAligned, ChunkOk, Needed, Allowed, After, Hands, HandedAndFreed;
    HandedThenFreed(x, v, y, w, z, m, size);
    SecondFreePlace(x, v, y, w, z, m, x.rz + 1);
    TwoRedzones(m, x.rz, x.rz + 1);
    TwiceRedzone(x.rz, m, x.chunks[m], x.rz + 1, v.size);
    FreedPointer(z, m);
  }

  // ----- A stale pointer that is accepted

  /** The header that memalign() has written for chunk m. */
  ghost predicate Header(x: Snapshot, m: nat, q: nat) { m < q && q in x.memaligns && x.memaligns[q] == q - m }

  ghost predicate InState(x: Snapshot, m: nat, state: ChunkState, sizeClass: nat)
  {
    m in x.chunks && x.chunks[m].state == state && x.chunks[m].sizeClass == sizeClass
  }

  ghost predicate SameParameters(x: Snapshot, y: Snapshot) { y.rz == x.rz && y.n == x.n && y.limit == x.limit }

  /** The first pages, and a chunk of them. */
  lemma {:induction false} Obtain(x: Snapshot, mem: nat, al: nat, size: nat) returns (y: Snapshot)
    requires x in ReachedStates() && Sized(x.rz, al, size) && Mappable(x, mem, ClassFor(x.rz, al, size))
    requires ListAt(x.lists, GlobalFree(ClassFor(x.rz, al, size))) == [] && ListAt(x.lists, BUILT) == []
    ensures var c := ClassFor(x.rz, al, size);
      var m := FirstChunk(mem, c);
      && y in ReachedStates() && Leads(x, y) && SameParameters(x, y)
      && InState(y, m, Allocated, c) && Gives(y, m, size, Placed(m, x.rz, al)) && m !in x.chunks && Grown(x.chunks, y.chunks)
      && y.memaligns == NewMemaligns(x.rz, m, al, size, x.memaligns)
      && y.groups == x.groups + [GroupOf(mem, c)] && y.sizes == x.sizes
      && forall p: Place :: p != GlobalFree(c) ==> ListAt(y.lists, p) == ListAt(x.lists, p)
  {
    hide SoundStates, ReachedStates, Next, Leads, SizeToSizeClass, SizeClassToSize, Needed, Mappable, Hands, FirstChunk, GroupOf, RowOf, NewMemaligns;
    hide NewChunks;
    var c := ClassFor(x.rz, al, size);
    var x1 := Map(x, mem, c);
    var m := FirstChunk(mem, c);
    MapNew(x, mem, c, x1);
    var mid, v;
    mid, v, y := Take(x1, m, al, size);
    LeadsOne(x, x1);
    LeadsOn(x, x1, y);
  }

  lemma {:induction false} MapNew(x: Snapshot, mem: nat, sizeClass: nat, y: Snapshot)
    requires x in ReachedStates() && Mappable(x, mem, sizeClass) && y == Carved(x, mem, sizeClass, y.shadow)
    ensures FirstChunk(mem, sizeClass) !in x.chunks && InState(y, FirstChunk(mem, sizeClass), Available, sizeClass)
    ensures Grown(x.chunks, y.chunks)
  {
    hide SoundStates, ReachedStates, Next, Leads, SizeClassToSize, Mappable, RowOf, GroupOf, FirstChunk, NewChunks;
    ReachedSound(x);
    MapClass(x, mem, sizeClass);
    MapFront(mem, sizeClass);
    NewOnly(x, mem, sizeClass);
    NewAt(RowOf(mem, sizeClass), sizeClass, FirstChunk(mem, sizeClass));
  }

  lemma {:induction false} NewAt(order: seq<nat>, sizeClass: nat, a: nat)
    requires a in NewChunks(order, sizeClass)
    ensures NewChunks(order, sizeClass)[a] == Chunk(Available, sizeClass, 0, 0)
  {
  }

  /** Where a chunk was handed out for alignment, the header is below the user's memory. */
  lemma {:induction false} HeaderLeft(rz: nat, m: nat, al: nat, size: nat, memaligns: Memaligns)
    requires Placed(m, rz, al) > m + Pow2(rz)
    ensures var q: nat := Placed(m, rz, al) - Pow2(rz);
      q in NewMemaligns(rz, m, al, size, memaligns) && NewMemaligns(rz, m, al, size, memaligns)[q] == q - m
  {
    hide Placed, RoundUp;
  }

  /** A header below a chunk is not touched when that chunk is handed out without alignment. */
  lemma {:induction false} HeaderBelow(rz: nat, b: nat, size: nat, memaligns: Memaligns, q: nat)
    requires q in memaligns && q < b
    ensures var memaligns' := NewMemaligns(rz, b, 0, size, memaligns);
      q in memaligns' && memaligns'[q] == memaligns[q]
  {
  }

  /** The lists of x, with chunk a put at the end of one. */
  ghost predicate Lengthened(x: Snapshot, y: Snapshot, p: Place, a: nat)
  {
    && ListAt(y.lists, p) == ListAt(x.lists, p) + [a]
    && forall r: Place :: r != p ==> ListAt(y.lists, r) == ListAt(x.lists, r)
  }

  /** The user frees chunk a, known to a thread. */
  lemma {:induction false} Queue(x: Snapshot, a: nat, t: nat, m: nat, q: nat, c: nat) returns (y: Snapshot)
    requires x in ReachedStates() && InState(x, a, Allocated, c) && Header(x, m, q)
    requires !(a + Pow2(x.rz) <= q < a + 2 * Pow2(x.rz))
    ensures y in ReachedStates() && Next(x, y) && SameParameters(x, y) && InState(y, a, Quarantine, c) && Header(y, m, q)
    ensures forall b :: b in x.chunks && b != a ==> b in y.chunks && y.chunks[b] == x.chunks[b]
    ensures Lengthened(x, y, ThreadQuarantine(t), a)
    ensures SizeAt(y.sizes, ThreadQuarantine(t)) == SizeAt(x.sizes, ThreadQuarantine(t)) + SizeClassToSize(c)
    ensures SizeAt(y.sizes, GlobalQuarantine) == SizeAt(x.sizes, GlobalQuarantine)
  {
    hide SoundStates, ReachedStates, Next, Leads, SizeClassToSize, Allowed, After;
    y := Return(x, a, ThreadQuarantine(t));
  }

  /** The thread's two freed chunks go to the global quarantine, and then out of it. */
  lemma {:induction false} Flush(x: Snapshot, t: nat, m: nat, b: nat, c: nat, d: nat) returns (y: Snapshot)
    requires x in ReachedStates() && m != b && InState(x, m, Quarantine, c) && InState(x, b, Quarantine, d) && c != d
    requires ListAt(x.lists, ThreadQuarantine(t)) == [m, b] && ListAt(x.lists, GlobalQuarantine) == []
    requires SizeAt(x.sizes, ThreadQuarantine(t)) == SizeClassToSize(c) + SizeClassToSize(d) && SizeAt(x.sizes, GlobalQuarantine) == 0
    requires SizeClassToSize(d) > x.limit
    ensures y in ReachedStates() && Leads(x, y) && SameParameters(x, y) && y.memaligns == x.memaligns && InState(y, m, Available, c)
    ensures ListAt(y.lists, GlobalFree(c)) != [] && ListAt(y.lists, GlobalFree(c))[0] == m
    ensures ListAt(y.lists, GlobalQuarantine) == [] == ListAt(y.lists, ThreadQuarantine(t))
  {
    hide SoundStates, ReachedStates, Next, Leads, SizeClassToSize, Allowed, After, Relabelled;
    var tq := ThreadQuarantine(t);
    SurrenderReached(x, tq);
    var x1 := Surrendered(x, tq);
    assert ListAt(x1.lists, GlobalQuarantine) == [m, b];
    var x2 := Pop(x1, m);
    assert ListAt(x2.lists, GlobalQuarantine) == [b];
    y := Pop(x2, b);
    LeadsThree(x, x1, x2, y);
  }

  lemma {:induction false} LeadsThree(x: Snapshot, x1: Snapshot, x2: Snapshot, y: Snapshot)
    requires Next(x, x1) && Next(x1, x2) && Next(x2, y)
    ensures Leads(x, y)
  {
    hide Next, Leads;
    LeadsOne(x, x1);
    LeadsOne(x1, x2);
    LeadsOne(x2, y);
    LeadsOn(x, x1, x2);
    LeadsOn(x, x2, y);
  }

  const LARGE_CLASS := 58            // chunks of two gigabytes
  const LARGE := 0x8000_0000

  lemma {:induction false} LargeRequest(rz: nat)
    requires 5 <= rz <= 12
    ensures Pow2(rz) < LARGE && Sized(rz, 0, LARGE - Pow2(rz)) && ClassFor(rz, 0, LARGE - Pow2(rz)) == LARGE_CLASS
    ensures SizeClassToSize(LARGE_CLASS) == LARGE
  {
    hide IsAligned;
    Constants();
    Pow2Mono(rz, 12);
    WordSizes();
    assert Pow2(32) == 2 * Pow2(31);
    AlignedPower(31, rz);
    AlignedPower(rz, rz);
    AlignedSum(LARGE, Pow2(rz), rz);
    AlignedRounds(LARGE - Pow2(rz), rz);
  }

  /** Chunk m is asked for with alignment 1 << al1, and later for size2 bytes with alignment 1 << al2.  The header of
      the first request is above the free stack, and not in the memory of the second. */
  ghost predicate LeavesHeader(rz: nat, m: nat, al1: nat, al2: nat, size2: nat)
  {
    var p1, p2 := Placed(m, rz, al1), Placed(m, rz, al2);
    p1 > m + Pow2(rz) && p1 != m + 2 * Pow2(rz) && p1 != p2 && !(p2 <= p1 - Pow2(rz) < p2 + RoundUp(size2, rz))
  }

  lemma {:induction false} HeaderWithin(x: Snapshot, m: nat, q: nat)
    requires x in SoundStates() && Header(x, m, q)
    ensures m in x.chunks && q < m + ChunkSize(x.chunks[m])
    ensures q != m + Pow2(x.rz) ==> q >= m + 2 * Pow2(x.rz)
  {
    hide Conserved, QueuesOk, GroupsOk, Housed, ShadowOk, ChunkSize;
    assert InChunk(x.rz, x.chunks, q, x.memaligns[q]);
    ChunkAt(x.rz, x.chunks, m);
    AlignedPower(x.rz, x.rz);
    AlignedSum(m, Pow2(x.rz), x.rz);
    AlignedStep(m, q, x.rz);
    if q != m + Pow2(x.rz) { AlignedStep(m + Pow2(x.rz), q, x.rz); }
  }

  /** A second mapping right behind the first, for a chunk of two gigabytes. */
  lemma {:induction false} ObtainLarge(x: Snapshot, mem: nat, m: nat, q: nat) returns (y: Snapshot, b: nat)
    requires x in ReachedStates() && Mappable(x, mem, LARGE_CLASS) && Header(x, m, q)
    requires m in x.chunks && m + ChunkSize(x.chunks[m]) <= mem
    requires ListAt(x.lists, GlobalFree(LARGE_CLASS)) == [] && ListAt(x.lists, BUILT) == []
    ensures y in ReachedStates() && Leads(x, y) && SameParameters(x, y) && Grown(x.chunks, y.chunks) && y.sizes == x.sizes
    ensures InState(y, b, Allocated, LARGE_CLASS) && b !in x.chunks && b > q && Header(y, m, q)
    ensures forall p: Place :: p != GlobalFree(LARGE_CLASS) ==> ListAt(y.lists, p) == ListAt(x.lists, p)
  {
    hide SoundStates, ReachedStates, Next, Leads, SizeToSizeClass, Needed, Mappable, FirstChunk, NewMemaligns, SizeClassToSize, MapBytes;
    ReachedSound(x);
    LargeRequest(x.rz);
    HeaderWithin(x, m, q);
    b := FirstChunk(mem, LARGE_CLASS);
    MapFront(mem, LARGE_CLASS);
    HeaderBelow(x.rz, b, LARGE - Pow2(x.rz), x.memaligns, q);
    y := Obtain(x, mem, 0, LARGE - Pow2(x.rz));
  }

  /** Both are freed by a thread whose quarantine then is too large. */
  lemma {:induction false} FreeBoth(x: Snapshot, t: nat, m: nat, q: nat, c: nat, b: nat) returns (y: Snapshot)
    requires x in ReachedStates() && x.limit < LARGE && m != b && c != LARGE_CLASS
    requires InState(x, m, Allocated, c) && InState(x, b, Allocated, LARGE_CLASS)
    requires Header(x, m, q) && q != m + Pow2(x.rz) && q < b
    requires ListAt(x.lists, ThreadQuarantine(t)) == [] == ListAt(x.lists, GlobalQuarantine) && x.sizes == map[]
    ensures y in ReachedStates() && Leads(x, y) && SameParameters(x, y) && InState(y, m, Available, c) && Header(y, m, q)
    ensures ListAt(y.lists, GlobalFree(c)) != [] && ListAt(y.lists, GlobalFree(c))[0] == m
  {
    hide SoundStates, ReachedStates, Next, Leads, SizeClassToSize;
    ReachedSound(x);
    HeaderWithin(x, m, q);
    LargeRequest(x.rz);
    var x1 := Queue(x, m, t, m, q, c);
    var x2 := Queue(x1, b, t, m, q, LARGE_CLASS);
    assert ListAt(x2.lists, ThreadQuarantine(t)) == [m, b];
    y := Flush(x2, t, m, b, c, LARGE_CLASS);
    LeadsOne(x, x1);
    LeadsOne(x1, x2);
    LeadsOn(x, x1, x2);
    LeadsOn(x, x2, y);
  }

  /** Two requests for chunks of one class, the first with a header that the second leaves alone: the first pointer
      of a process, freed long ago, is accepted once more when its chunk is in use again. */
  lemma {:induction false} StaleReached(x: Snapshot, mem: nat, t: nat, al1: nat, size1: nat, al2: nat, size2: nat)
    returns (y: Snapshot, z: Snapshot, m: nat)
    requires Fresh(x) && x.limit < LARGE && Sized(x.rz, al1, size1) && Sized(x.rz, al2, size2)
    requires ClassFor(x.rz, al1, size1) == ClassFor(x.rz, al2, size2) < LARGE_CLASS
    requires Mappable(x, mem, ClassFor(x.rz, al1, size1))
    requires mem + MapBytes(ClassFor(x.rz, al1, size1)) + MapBytes(LARGE_CLASS) <= GRANULARITY * x.n
    requires LeavesHeader(x.rz, FirstChunk(mem, ClassFor(x.rz, al1, size1)), al1, al2, size2)
    ensures m == FirstChunk(mem, ClassFor(x.rz, al1, size1))
    ensures y in ReachedStates() && Gives(y, m, size1, Placed(m, x.rz, al1))
    ensures z in ReachedStates() && Leads(y, z) && Gives(z, m, size2, Placed(m, x.rz, al2))
    ensures forall stray :: OutcomeIn(z, Placed(m, x.rz, al1), stray) == Misplaced
  {
    hide SoundStates, ReachedStates, Next, Leads, SizeToSizeClass, Needed, Mappable, OutcomeIn, Allowed, After, Hands, FirstChunk;
    hide Placed, RoundUp, Beg, NewMemaligns, SizeClassToSize, MapBytes, GroupOf, Pow2;
    var c := ClassFor(x.rz, al1, size1);
    m := FirstChunk(mem, c);
    var q: nat := Placed(m, x.rz, al1) - Pow2(x.rz);
    FreshReached(x);
    y := Obtain(x, mem, al1, size1);
    HeaderLeft(x.rz, m, al1, size1, x.memaligns);
    NextPages(x, y, mem, c);
    var x1, b := ObtainLarge(y, mem + MapBytes(c), m, q);
    var x2 := FreeBoth(x1, t, m, q, c, b);
    LeadsOn(y, x1, x2);
    var mid, v;
    mid, v, z := Take(x2, m, al2, size2);
    LeadsOn(y, x2, z);
    ReachedSound(mid);
    forall stray ensures OutcomeIn(z, Placed(m, x.rz, al1), stray) == Misplaced {
      StaleAccepted(mid, v, z, m, al2, size2, q, stray);
    }
  }

  lemma {:induction false} NextPages(x: Snapshot, y: Snapshot, mem: nat, c: nat)
    requires Fresh(x) && Mappable(x, mem, c) && SameParameters(x, y) && y.groups == [GroupOf(mem, c)]
    requires mem + MapBytes(c) + MapBytes(LARGE_CLASS) <= GRANULARITY * x.n
    ensures Mappable(y, mem + MapBytes(c), LARGE_CLASS) && c >= 6
    ensures FirstChunk(mem, c) + SizeClassToSize(c) <= mem + MapBytes(c)
  {
    hide MapBytes, MapCount, SizeClassToSize, IsAligned, FirstChunk;
    MapNumbers(c);
    MapFront(mem, c);
    AlignedSum(mem, MapBytes(c), 12);
  }

  /** In numbers, with redzones of 32: 64 bytes at 64 from pages at 4096 are in the chunk of 256 bytes at 4197888. */
  lemma {:induction false} SecondFreeMissed(x: Snapshot) returns (y: Snapshot, z: Snapshot)
    requires Fresh(x) && x.rz == 5 && x.n >= 524800
    ensures y in ReachedStates() && Gives(y, 4197888, 64, 4197952)
    ensures z in ReachedStates() && z == FreedTo(y, 4197888, GlobalQuarantine, z.shadow)
    ensures OutcomeIn(z, 4197952, Available) == NotMalloced
  {
    hide SoundStates, ReachedStates, Next, Leads, Needed, OutcomeIn, Gives, FirstChunk, Mappable, ClassFor, Sized, FreedTo;
    SmallRequest();
    PagesFit(x, 4096, 8);
    SmallChunk();
    var m, ptr;
    y, z, m, ptr := SecondFreeReached(x, 4096, 64);
  }

  /** In numbers, with redzones of 32: 128 bytes at 128, and later 128 bytes at 256, in the chunk of 512 bytes at
      4197376.  The header of the first is at 4197472, the memory of the second starts at 4197632. */
  lemma {:induction false} StaleFree(x: Snapshot, t: nat) returns (y: Snapshot, z: Snapshot)
    requires Fresh(x) && x.rz == 5 && x.limit < LARGE && x.n >= 0x1100_0000
    ensures y in ReachedStates() && Gives(y, 4197376, 128, 4197504)
    ensures z in ReachedStates() && Leads(y, z) && Gives(z, 4197376, 128, 4197632)
    ensures forall stray :: OutcomeIn(z, 4197504, stray) == Misplaced
  {
    hide SoundStates, ReachedStates, Next, Leads, Needed, OutcomeIn, Gives, FirstChunk, Mappable, ClassFor, Sized, LeavesHeader;
    MiddleRequests();
    PagesFit(x, 4096, 9);
    MiddleChunk();
    var m;
    y, z, m := StaleReached(x, 4096, t, 7, 128, 8, 128);
  }

  lemma {:induction false} MiddleRequests()
    ensures Sized(5, 7, 128) && ClassFor(5, 7, 128) == 9 && Sized(5, 8, 128) && ClassFor(5, 8, 128) == 9
  {
    hide SizeToSizeClass;
    assert Pow2(5) == 32 && Pow2(7) == 128 && Pow2(8) == 256 && Pow2(9) == 512;
    ShiftMeaning(128, 5);
    AlignedRounds(128, 5);
    ClassIs(288, 9);
    ClassIs(416, 9);
  }

  lemma {:induction false} MiddleChunk()
    ensures FirstChunk(4096, 9) == 4197376 && MapBytes(LARGE_CLASS) == LARGE + PAGE && MapBytes(9) == 0x40_0000
    ensures Placed(4197376, 5, 7) == 4197504 && Placed(4197376, 5, 8) == 4197632 && LeavesHeader(5, 4197376, 7, 8, 128)
  {
    SmallSizes();
    assert Pow2(5) == 32 && Pow2(7) == 128 && Pow2(8) == 256;
    ShiftMeaning(4197504, 7);
    ShiftMeaning(4197408, 7);
    ShiftMeaning(4197632, 8);
    ShiftMeaning(4197408, 8);
    ShiftMeaning(128, 5);
    NextMultiple(4197408, 4197376, 7);
    NextMultiple(4197408, 4197376, 8);
    AlignedRounds(128, 5);
  }

  lemma {:induction false} SmallRequest()
    ensures Sized(5, 6, 64) && ClassFor(5, 6, 64) == 8 && Pow2(5) == 32
  {
    hide SizeToSizeClass;
    assert Pow2(5) == 32 && Pow2(6) == 64;
    ShiftMeaning(64, 5);
    AlignedRounds(64, 5);
    ClassIs(160, 8);
  }

  lemma {:induction false} SmallChunk()
    ensures FirstChunk(4096, 8) == 4197888
  {
    SmallSizes();
  }

  lemma {:induction false} SmallSizes()
    ensures SizeClassToSize(8) == 256 && SizeClassToSize(9) == 512
    ensures MapBytes(8) == MapBytes(9) == 0x40_0000 && MapCount(8) == 16383 && MapCount(9) == 8191
  {
    assert Pow2(5) == 32 && Pow2(7) == 128 && Pow2(9) == 512;
  }

  /** Sizes above 2^(c-1) and up to 2^c are of class c. */
  lemma {:induction false} ClassIs(size: nat, c: nat)
    requires 0 < c <= STEP_LOG && Pow2(c - 1) < size <= Pow2(c)
    ensures SizeToSizeClass(size) == c
  {
    hide Pow2, RoundUpToPowerOfTwo, Ctz;
    Constants();
    Pow2Mono(c, STEP_LOG);
    PowerLeast(size);
    var k := SizeToSizeClass(size);
    if k < c { Pow2Mono(k, c - 1); }
    if k > c { Pow2Mono(c, k - 1); }
  }

  lemma {:induction false} PagesFit(x: Snapshot, mem: nat, sizeClass: nat)
    requires Fresh(x) && x.rz < sizeClass < CLASSES && mem == PAGE && PAGE + MapBytes(sizeClass) <= GRANULARITY * x.n
    ensures Mappable(x, mem, sizeClass)
  {
    Constants();
    AlignedPower(12, 12);
  }
}
