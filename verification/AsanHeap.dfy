/** The heap of lib/asan/asan_allocator.cc.

A call is one step: MallocInfo works under its lock and a thread's storage belongs to the thread.
The thread is an argument, absent for a thread ASan does not know.  mmap is a function from what has
been mapped before and the size to an address, or to nothing when the process would die. */
module AsanHeap {
  import opened Bits
  import opened Shadow
  import opened AsanSizes
  import opened AsanChunks
  import opened AsanLayout
  import opened AsanPages
  import opened Partition
  import opened AsanState
  import opened AsanRuns
  import opened Options

  const MAX_THREAD_FREE := 0x2_0000     // kMaxSizeForThreadLocalFreeList
  const MAX_THREAD_QUARANTINE := 0x10_0000  // kMaxThreadLocalQuarantine

  type Os = (seq<Group>, nat) -> Option<nat>

  /** Page-aligned ranges inside the shadowed memory that meet nothing mapped before. */
  ghost predicate GoodOs(os: Os, n: nat)
  {
    forall gs: seq<Group>, size: nat :: os(gs, size).Some? ==>
      var mem := os(gs, size).value;
      IsAligned(mem, 12) && mem + size <= GRANULARITY * n && Separate(gs, Group(mem, mem + size, 0, 0, 0))
  }

  /** lib/asan/asan_allocator.cc:531-544: how many chunks, in how many bytes.  The CHECKs hold. */
  method MmapSize(sizeClass: nat) returns (n_chunks: nat, mmap_size: nat)
    requires 6 <= sizeClass
    ensures n_chunks == MapCount(sizeClass) && mmap_size == MapBytes(sizeClass) && MapFits(sizeClass, n_chunks)
  {
    var size := SizeClassToSize(sizeClass);
    MapNumbers(sizeClass);
    WholeChunks(sizeClass);
    mmap_size := if size > MIN_MMAP then size else MIN_MMAP;
    n_chunks := mmap_size / size;
    if size < PAGE {
      // the last of the small chunks is given up
      n_chunks := n_chunks - 1;
    } else {
      // large chunks fill the mapping, so a page more is asked for
      mmap_size := mmap_size + PAGE;
    }
  }

  /** CHECK(n_chunks * size == mmap_size), before one chunk is given up or a page added. */
  lemma {:induction false} WholeChunks(sizeClass: nat)
    requires 6 <= sizeClass
    ensures var size := SizeClassToSize(sizeClass);
      var mmap := if size > MIN_MMAP then size else MIN_MMAP;
      && (size < MIN_MMAP || size % MIN_MMAP == 0) && mmap / size * size == mmap
      && mmap / size == MapCount(sizeClass) + if size < PAGE then 1 else 0
  {
    hide IsAligned;
    Constants();
    var size := SizeClassToSize(sizeClass);
    MapNumbers(sizeClass);
    Distrib(MapCount(sizeClass), 1, size);
    if size < PAGE {
      DivModUnique((MapCount(sizeClass) + 1) * size, size, MapCount(sizeClass) + 1, 0);
    }
    if size >= MIN_MMAP { WholeMmaps(sizeClass); }
  }

  lemma {:induction false} WholeMmaps(sizeClass: nat)
    requires SizeClassToSize(sizeClass) >= MIN_MMAP
    ensures SizeClassToSize(sizeClass) % MIN_MMAP == 0
  {
    Constants();
    if sizeClass < 22 { Pow2Mono(sizeClass, 22); }
    ClassAligned(sizeClass, 22);
    ShiftMeaning(SizeClassToSize(sizeClass), 22);
  }

  /** The loop of GetNewChunks() at line 554: the last chunk carved heads the list. */
  method CarvePages(mem: nat, sizeClass: nat, n: nat) returns (carved: Chunks, order: seq<nat>)
    ensures order == Row(mem, SizeClassToSize(sizeClass), n) && carved == NewChunks(order, sizeClass)
  {
    var size := SizeClassToSize(sizeClass);
    carved, order := map[], [];
    var i, m := 0, mem;
    MulComm(0, size);
    while i < n
      invariant 0 <= i <= n && m == mem + i * size
      invariant order == Row(mem, size, i) && carved == NewChunks(order, sizeClass)
    {
      RowMore(mem, size, i);
      Distrib(i, 1, size);
      carved := carved[m := Chunk(Available, sizeClass, 0, 0)];
      order := [m] + order;
      m := m + size;
      i := i + 1;
    }
  }

  /** lib/asan/asan_allocator.cc:553-567: the chunks, and the PageGroup behind them. */
  method CarveGroup(mem: nat, sizeClass: nat, n_chunks: nat, mmap_size: nat) returns (pg: Group, carved: Chunks, order: seq<nat>)
    requires n_chunks == MapCount(sizeClass) > 0 && mmap_size == MapBytes(sizeClass)
    ensures pg == GroupOf(mem, sizeClass) && order == RowOf(mem, sizeClass) && carved == NewChunks(order, sizeClass)
  {
    hide NewChunks, Row, MapCount, MapBytes;
    var size := SizeClassToSize(sizeClass);
    MulSign(n_chunks - 1, size);
    MulComm(n_chunks - 1, size);
    carved, order := CarvePages(mem, sizeClass, n_chunks);
    pg := Group(mem, mem + mmap_size, size, mem + size * (n_chunks - 1), mem + n_chunks * size);
  }

  /** A group of its own for the mapping that mmap returns, full of chunks, and the free list that links them. */
  ghost predicate NewGroup(os: Os, groups: seq<Group>, groups': seq<Group>, order: seq<nat>, sizeClass: nat)
  {
    && |groups'| == |groups| + 1 && groups'[..|groups|] == groups
    && var g := groups'[|groups|];
      os(groups, MapBytes(sizeClass)) == Some(g.beg) && g == GroupOf(g.beg, sizeClass) && order == RowOf(g.beg, sizeClass)
  }

  lemma {:induction false} GroupMade(os: Os, groups: seq<Group>, mem: nat, sizeClass: nat)
    requires os(groups, MapBytes(sizeClass)) == Some(mem)
    ensures NewGroup(os, groups, groups + [GroupOf(mem, sizeClass)], RowOf(mem, sizeClass), sizeClass)
  {
  }

  lemma {:induction false} FreshPages(os: Os, x: Snapshot, mem: nat, sizeClass: nat)
    requires GoodOs(os, x.n) && os(x.groups, MapBytes(sizeClass)) == Some(mem) && x.rz < sizeClass < CLASSES
    ensures Mappable(x, mem, sizeClass)
  {
    assert Separate(x.groups, Group(mem, mem + MapBytes(sizeClass), 0, 0, 0));
  }

  ghost predicate SameLists(lists: Lists, lists': Lists, but: set<Place>)
  {
    forall p: Place :: p !in but ==> ListAt(lists', p) == ListAt(lists, p)
  }

  /** The chunks of some groups, in the order in which they were linked up. */
  ghost function Rows(groups: seq<Group>, sizeClass: nat): seq<nat>
  {
    if groups == [] then [] else Rows(groups[..|groups| - 1], sizeClass) + RowOf(groups[|groups| - 1].beg, sizeClass)
  }

  /** One chunk from the front of a global list, which is filled from new pages if it is empty. */
  ghost predicate DrawnOne(os: Os, groups: seq<Group>, groups': seq<Group>, list: seq<nat>, list': seq<nat>, t: nat, sizeClass: nat)
  {
    if list != [] then groups' == groups && t == list[0] && list' == list[1..]
    else NewGroup(os, groups, groups', [t] + list', sizeClass)
  }

  /** n chunks have been taken from the front of a global list, one after the other.  New pages were carved up each time
      the list had run out, and only then. */
  ghost predicate Drawn(os: Os, groups: seq<Group>, groups': seq<Group>, list: seq<nat>, list': seq<nat>, taken: seq<nat>, n: nat,
      sizeClass: nat)
  {
    && |taken| == n && groups <= groups'
    && taken + list' == list + Rows(groups'[|groups|..], sizeClass)
    && (forall i :: |groups| <= i < |groups'| ==>
         os(groups'[..i], MapBytes(sizeClass)) == Some(groups'[i].beg) && groups'[i] == GroupOf(groups'[i].beg, sizeClass))
    && (groups' == groups || |list| + |Rows(groups'[|groups|..|groups'| - 1], sizeClass)| < n)
  }

  /** The global list ran out before n chunks were taken, and mmap refused new pages. */
  ghost predicate RanOut(os: Os, groups: seq<Group>, groups': seq<Group>, list: seq<nat>, n: nat, sizeClass: nat)
  {
    && os(groups', MapBytes(sizeClass)).None?
    && exists taken :: |taken| < n && Drawn(os, groups, groups', list, [], taken, |taken|, sizeClass)
  }

  lemma {:induction false} DrawnNone(os: Os, groups: seq<Group>, list: seq<nat>, sizeClass: nat)
    ensures Drawn(os, groups, groups, list, list, [], 0, sizeClass)
  {
    assert groups[|groups|..] == [];
    assert list + [] == list == [] + list;
  }

  lemma {:induction false} RunsOut(os: Os, groups: seq<Group>, groups': seq<Group>, list: seq<nat>, taken: seq<nat>, i: nat, n: nat,
      sizeClass: nat)
    requires os(groups', MapBytes(sizeClass)).None? && i < n && Drawn(os, groups, groups', list, [], taken, i, sizeClass)
    ensures RanOut(os, groups, groups', list, n, sizeClass)
  {
    assert |taken| == i;
  }

  lemma {:induction false} DrawnMore(os: Os, groups: seq<Group>, mid: seq<Group>, groups': seq<Group>, list: seq<nat>, rest: seq<nat>,
      list': seq<nat>, taken: seq<nat>, n: nat, t: nat, sizeClass: nat)
    requires Drawn(os, groups, mid, list, rest, taken, n, sizeClass) && DrawnOne(os, mid, groups', rest, list', t, sizeClass)
    ensures Drawn(os, groups, groups', list, list', taken + [t], n + 1, sizeClass)
  {
    hide RowOf, GroupOf, IsAligned;
    if rest != [] {
      assert taken + [t] + list' == taken + rest;
    } else {
      var news, g := groups'[|groups|..], groups'[|mid|];
      assert groups' == mid + [g];
      forall i | |groups| <= i < |groups'|
        ensures os(groups'[..i], MapBytes(sizeClass)) == Some(groups'[i].beg) && groups'[i] == GroupOf(groups'[i].beg, sizeClass)
      {
        if i < |mid| { assert groups'[..i] == mid[..i]; } else { assert groups'[..i] == mid; }
      }
      assert news == mid[|groups|..] + [g];
      assert news[..|news| - 1] == mid[|groups|..] == groups'[|groups|..|groups'| - 1];
      assert taken + [t] + list' == taken + ([t] + list');
      assert taken + [] == taken;
    }
  }

  lemma {:induction false} DrawnSame(os: Os, groups: seq<Group>, groups': seq<Group>, list: seq<nat>, list': seq<nat>, t: nat,
      sizeClass: nat)
    requires Drawn(os, groups, groups', list, list', Reversed([t]), 1, sizeClass)
    ensures Drawn(os, groups, groups', list, list', [t], 1, sizeClass)
  {
    assert Reversed([t]) == Reversed([t][1..]) + [t];
  }

  lemma {:induction false} StockedLists(lists: Lists, mid: Lists, thread: nat, sizeClass: nat)
    requires SameLists(lists, mid, {GlobalFree(sizeClass), BUILT}) && ListAt(lists, BUILT) == []
    requires ListAt(lists, ThreadFree(thread, sizeClass)) == []
    ensures var lists' := Appended(mid, BUILT, ThreadFree(thread, sizeClass));
      && SameLists(lists, lists', {GlobalFree(sizeClass), ThreadFree(thread, sizeClass)})
      && ListAt(lists', ThreadFree(thread, sizeClass)) == ListAt(mid, BUILT)
      && ListAt(lists', GlobalFree(sizeClass)) == ListAt(mid, GlobalFree(sizeClass))
  {
    assert [] + ListAt(mid, BUILT) == ListAt(mid, BUILT);
  }

  /** Where a request of class sizeClass gets chunk m from: a thread that ASan knows, for chunks below
      kMaxSizeForThreadLocalFreeList, from the front of its own list, which is filled with that many bytes of chunks,
      the last one taken first, if it is empty; all others from the front of the global list. */
  ghost predicate Served(os: Os, lists: Lists, lists': Lists, groups: seq<Group>, groups': seq<Group>, thread: Option<nat>,
      sizeClass: nat, m: nat)
  {
    var global := GlobalFree(sizeClass);
    if thread.Some? && SizeClassToSize(sizeClass) < MAX_THREAD_FREE then
      var own := ThreadFree(thread.value, sizeClass);
      if ListAt(lists, own) != [] then
        m == ListAt(lists, own)[0] && lists' == Popped(lists, own) && groups' == groups
      else
        && Drawn(os, groups, groups', ListAt(lists, global), ListAt(lists', global), Reversed([m] + ListAt(lists', own)),
             MAX_THREAD_FREE / SizeClassToSize(sizeClass), sizeClass)
        && SameLists(lists, lists', {global, own})
    else
      && Drawn(os, groups, groups', ListAt(lists, global), ListAt(lists', global), [m], 1, sizeClass)
      && SameLists(lists, lists', {global})
  }

  /** The request cannot be served. */
  ghost predicate Starved(os: Os, lists: Lists, groups: seq<Group>, groups': seq<Group>, thread: Option<nat>, sizeClass: nat)
  {
    if thread.Some? && SizeClassToSize(sizeClass) < MAX_THREAD_FREE then
      && ListAt(lists, ThreadFree(thread.value, sizeClass)) == [] && SizeClassToSize(sizeClass) > 0
      && RanOut(os, groups, groups', ListAt(lists, GlobalFree(sizeClass)), MAX_THREAD_FREE / SizeClassToSize(sizeClass), sizeClass)
    else
      RanOut(os, groups, groups', ListAt(lists, GlobalFree(sizeClass)), 1, sizeClass)
  }

  lemma {:induction false} ServedGlobally(os: Os, lists: Lists, mid: Lists, groups: seq<Group>, groups': seq<Group>,
      thread: Option<nat>, sizeClass: nat)
    requires thread.None? || SizeClassToSize(sizeClass) >= MAX_THREAD_FREE
    requires ListAt(lists, BUILT) == [] && |ListAt(mid, BUILT)| == 1 && SameLists(lists, mid, {GlobalFree(sizeClass), BUILT})
    requires Drawn(os, groups, groups', ListAt(lists, GlobalFree(sizeClass)), ListAt(mid, GlobalFree(sizeClass)),
      Reversed(ListAt(mid, BUILT)), 1, sizeClass)
    ensures Served(os, lists, Popped(mid, BUILT), groups, groups', thread, sizeClass, ListAt(mid, BUILT)[0])
  {
    hide Drawn, Reversed, SizeClassToSize;
    var t := ListAt(mid, BUILT)[0];
    assert ListAt(mid, BUILT) == [t];
    DrawnSame(os, groups, groups', ListAt(lists, GlobalFree(sizeClass)), ListAt(mid, GlobalFree(sizeClass)), t, sizeClass);
    assert ListAt(mid, BUILT)[1..] == [];
  }

  lemma {:induction false} ServedOwn(os: Os, lists: Lists, groups: seq<Group>, thread: nat, sizeClass: nat)
    requires SizeClassToSize(sizeClass) < MAX_THREAD_FREE && ListAt(lists, ThreadFree(thread, sizeClass)) != []
    ensures Served(os, lists, Popped(lists, ThreadFree(thread, sizeClass)), groups, groups, Some(thread), sizeClass,
      ListAt(lists, ThreadFree(thread, sizeClass))[0])
  {
  }

  lemma {:induction false} ServedAfresh(os: Os, lists: Lists, mid: Lists, groups: seq<Group>, groups': seq<Group>, thread: nat,
      sizeClass: nat)
    requires SizeClassToSize(sizeClass) < MAX_THREAD_FREE && ListAt(lists, ThreadFree(thread, sizeClass)) == []
    requires ListAt(mid, ThreadFree(thread, sizeClass)) != []
    requires SameLists(lists, mid, {GlobalFree(sizeClass), ThreadFree(thread, sizeClass)})
    requires Drawn(os, groups, groups', ListAt(lists, GlobalFree(sizeClass)), ListAt(mid, GlobalFree(sizeClass)),
      Reversed(ListAt(mid, ThreadFree(thread, sizeClass))), MAX_THREAD_FREE / SizeClassToSize(sizeClass), sizeClass)
    ensures Served(os, lists, Popped(mid, ThreadFree(thread, sizeClass)), groups, groups', Some(thread), sizeClass,
      ListAt(mid, ThreadFree(thread, sizeClass))[0])
  {
    hide Drawn, Reversed, SizeClassToSize;
    var own := ListAt(mid, ThreadFree(thread, sizeClass));
    assert [own[0]] + own[1..] == own;
  }

  ghost predicate Prepended(chunks: Chunks, s: seq<nat>, s': seq<nat>, sizeClass: nat)
  {
    s' != [] && s'[1..] == s && s'[0] in chunks && chunks[s'[0]].sizeClass == sizeClass
  }

  /** What a successful Allocate() has done: chunk m, which was not the user's, is now, and ptr is its
      user memory; nothing else the user has has changed. */
  ghost predicate Granted(rz: nat, chunks: Chunks, chunks': Chunks, m: nat, al: nat, size: nat, ptr: nat)
  {
    && m in chunks' && (m in chunks ==> chunks[m].state.Available?)
    && chunks'[m].state.Allocated? && chunks'[m].used == size && Beg(m, chunks'[m].alignLog) == ptr
    && ptr == Placed(m, rz, al) && IsAligned(ptr, al)
    && forall a :: a in chunks && a != m ==> a in chunks' && chunks'[a] == chunks[a]
  }

  lemma {:induction false} GrantedBy(rz: nat, chunks: Chunks, mid: Chunks, m: nat, al: nat, size: nat)
    requires Grown(chunks, mid) && m in mid && mid[m].state.Available? && ChunkOk(rz, m, mid[m])
    requires size > 0 && Needed(rz, al, size) <= ChunkSize(mid[m])
    ensures Granted(rz, chunks, mid[m := NewChunk(rz, m, mid[m], al, size)], m, al, size, Placed(m, rz, al))
  {
    NewChunkOk(rz, m, mid[m], al, size);
    BegIsPlaced(m, rz, al);
    if al <= rz { AlignedCoarser(Placed(m, rz, al), al, rz - al); }
  }

  datatype AllocResult = Pointer(ptr: nat) | TooBig | OutOfMemory | Died

  const INT_BITS := 31  // 1 << 31 is no int

  /** The process dies exactly for an alignment that the chunk's address does not have and `1 << alignment_log`
      cannot express. */
  ghost predicate Dies(r: AllocResult, rz: nat, al: nat, m: nat)
  {
    && (r.Died? ==> al >= INT_BITS && !IsAligned(m + Pow2(rz), al))
    && (r.Pointer? ==> al < INT_BITS || IsAligned(m + Pow2(rz), al))
  }

  ghost function Bytes(shadow: array<Byte>): seq<Byte>
    reads shadow
  {
    shadow[..]
  }

  class Heap {
    const rz: nat            // REDZONE is Pow2(rz)
    const quarantineSize: nat  // flags()->quarantine_size
    const shadow: array<Byte>
    var chunks: Chunks
    var lists: Lists
    var sizes: Sizes
    var memaligns: Memaligns
    var groups: seq<Group>
    ghost var where: Places

    /** A run leads to this state. */
    ghost predicate Sound()
      reads this, shadow
    {
      State() in ReachedStates()
    }

    ghost function State(): Snapshot
      reads this, shadow
    {
      Snapshot(rz, shadow.Length, quarantineSize, chunks, lists, where, sizes, memaligns, groups, Bytes(shadow))
    }

    ghost predicate Valid()
      reads this, shadow
    {
      Sound() && ListAt(lists, BUILT) == [] && quarantineSize > 0
    }

    constructor (rz: nat, quarantineSize: nat, shadow: array<Byte>)
      requires 5 <= rz <= 12 && quarantineSize > 0
      ensures Valid() && this.rz == rz && this.quarantineSize == quarantineSize && this.shadow == shadow
      ensures chunks == map[] && groups == [] && lists == map[]
    {
      this.rz := rz;
      this.quarantineSize := quarantineSize;
      this.shadow := shadow;
      chunks, lists, sizes, memaligns, groups := map[], map[], map[], map[], [];
      where := map[];
      new;
      FreshReached(State());
    }

    /** The writes of a step, made together. */
    method Write(chunks: Chunks, lists: Lists, sizes: Sizes, memaligns: Memaligns, groups: seq<Group>, ghost where: Places)
      modifies this
      ensures this.chunks == chunks && this.lists == lists && this.sizes == sizes
      ensures this.memaligns == memaligns && this.groups == groups
      ensures State() ==
        Snapshot(rz, shadow.Length, quarantineSize, chunks, lists, where, sizes, memaligns, groups, old(Bytes(shadow)))
    {
      this.chunks := chunks;
      this.lists := lists;
      this.sizes := sizes;
      this.memaligns := memaligns;
      this.groups := groups;
      this.where := where;
    }

    /** lib/asan/asan_allocator.cc:530-571. */
    method GetNewChunks(sizeClass: nat, os: Os) returns (ok: bool)
      requires Sound() && GoodOs(os, shadow.Length) && rz < sizeClass < CLASSES
      requires ListAt(lists, GlobalFree(sizeClass)) == []
      modifies this, shadow
      ensures ok ==> Sound() && Grown(old(chunks), chunks) && ListAt(lists, GlobalFree(sizeClass)) != []
      ensures ok ==> SameLists(old(lists), lists, {GlobalFree(sizeClass)})
      ensures ok ==> sizes == old(sizes) && memaligns == old(memaligns)
      ensures ok ==> NewGroup(os, old(groups), groups, ListAt(lists, GlobalFree(sizeClass)), sizeClass)
      ensures ok <==> os(old(groups), MapBytes(sizeClass)).Some?
      ensures !ok ==> State() == old(State())
    {
      hide Pow2, ReachedStates, SoundStates, Painted, Filled, AsanLayout.Separate, NewGroup, Mappable;
      hide NewChunks, RowOf, GroupOf, MapCount, MapBytes, SizeClassToSize;
      Parameters();
      var n_chunks, mmap_size := MmapSize(sizeClass);
      var page := os(groups, mmap_size);
      if page.None? {
        return false;
      }
      ghost var x := State();
      var mem := page.value;
      FreshPages(os, x, mem, sizeClass);
      PagesInside(x, mem, sizeClass);
      PoisonShadow(shadow, mem, mmap_size, HEAP_LEFT_REDZONE);
      var pg, carved, order := CarveGroup(mem, sizeClass, n_chunks, mmap_size);
      ghost var s := Bytes(shadow);
      CarveReached(x, s, mem, sizeClass);
      GroupMade(os, groups, mem, sizeClass);
      Write(chunks + carved, lists[GlobalFree(sizeClass) := order], sizes, memaligns, groups + [pg],
        where + AllAt(carved, GlobalFree(sizeClass)));
      assert State() == Carved(x, mem, sizeClass, s);
      return true;
    }

    /** lib/asan/asan_allocator.cc:325-334: one more chunk for the list under construction. */
    method AllocateChunk(sizeClass: nat, os: Os) returns (ok: bool)
      requires Sound() && GoodOs(os, shadow.Length) && rz < sizeClass < CLASSES
      modifies this, shadow
      ensures ok ==> Sound() && Grown(old(chunks), chunks) && sizes == old(sizes) && memaligns == old(memaligns)
      ensures ok ==> Prepended(chunks, old(ListAt(lists, BUILT)), ListAt(lists, BUILT), sizeClass)
      ensures ok ==> SameLists(old(lists), lists, {GlobalFree(sizeClass), BUILT})
      ensures ok ==> DrawnOne(os, old(groups), groups, old(ListAt(lists, GlobalFree(sizeClass))), ListAt(lists, GlobalFree(sizeClass)),
        ListAt(lists, BUILT)[0], sizeClass)
      ensures !ok ==> os(groups, MapBytes(sizeClass)).None? && ListAt(lists, GlobalFree(sizeClass)) == []
      ensures !ok ==> groups == old(groups) && lists == old(lists)
    {
      hide ReachedStates, SoundStates, GoodOs, RanOut, Grown, SameLists, NewGroup;
      var p := GlobalFree(sizeClass);
      GrownSelf(chunks);
      SameSelf(lists, p);
      if ListAt(lists, p) == [] {
        ok := GetNewChunks(sizeClass, os);
        if !ok {
          return;
        }
      }
      ghost var x := State();
      var t := ListAt(lists, p)[0];
      ShiftReached(x, p, BUILT, t);
      ShiftLists(old(lists), x, p, t);
      FrontAndRest(ListAt(lists, p));
      Write(chunks, PushedFront(Popped(lists, p), BUILT, t), sizes, memaligns, groups, where[t := BUILT]);
      assert State() == Shifted(x, p, BUILT, t);
      return true;
    }

    /** lib/asan/asan_allocator.cc:320-337: chunks of one class, new ones if the free list runs out. */
    method AllocateChunks(sizeClass: nat, n_chunks: nat, os: Os) returns (ok: bool)
      requires Valid() && GoodOs(os, shadow.Length) && rz < sizeClass < CLASSES
      modifies this, shadow
      ensures ok ==> Sound() && Grown(old(chunks), chunks) && sizes == old(sizes) && memaligns == old(memaligns)
      ensures ok ==> |ListAt(lists, BUILT)| == n_chunks && OfClass(chunks, ListAt(lists, BUILT), sizeClass)
      ensures ok ==> SameLists(old(lists), lists, {GlobalFree(sizeClass), BUILT})
      ensures ok ==> Drawn(os, old(groups), groups, old(ListAt(lists, GlobalFree(sizeClass))), ListAt(lists, GlobalFree(sizeClass)),
        Reversed(ListAt(lists, BUILT)), n_chunks, sizeClass)
      ensures !ok ==> RanOut(os, old(groups), groups, old(ListAt(lists, GlobalFree(sizeClass))), n_chunks, sizeClass)
    {
      hide ReachedStates, SoundStates, GoodOs, RanOut, Bytes, State, Drawn, DrawnOne, Reversed;
      DrawnNone(os, groups, ListAt(lists, GlobalFree(sizeClass)), sizeClass);
      ReversedFront([], 0);
      var i := 0;
      while i < n_chunks
        invariant 0 <= i <= n_chunks && Sound() && sizes == old(sizes) && memaligns == old(memaligns)
        invariant Grown(old(chunks), chunks)
        invariant |ListAt(lists, BUILT)| == i && OfClass(chunks, ListAt(lists, BUILT), sizeClass)
        invariant SameLists(old(lists), lists, {GlobalFree(sizeClass), BUILT})
        invariant Drawn(os, old(groups), groups, old(ListAt(lists, GlobalFree(sizeClass))), ListAt(lists, GlobalFree(sizeClass)),
          Reversed(ListAt(lists, BUILT)), i, sizeClass)
      {
        ghost var mid, rest, built := groups, ListAt(lists, GlobalFree(sizeClass)), ListAt(lists, BUILT);
        ok := AllocateChunk(sizeClass, os);
        if !ok {
          RunsOut(os, old(groups), groups, old(ListAt(lists, GlobalFree(sizeClass))), Reversed(built), i, n_chunks, sizeClass);
          return;
        }
        ghost var t := ListAt(lists, BUILT)[0];
        FrontAndRest(ListAt(lists, BUILT));
        ReversedFront(built, t);
        DrawnMore(os, old(groups), mid, groups, old(ListAt(lists, GlobalFree(sizeClass))), rest, ListAt(lists, GlobalFree(sizeClass)),
          Reversed(built), i, t, sizeClass);
        i := i + 1;
      }
      return true;
    }

    /** lib/asan/asan_allocator.cc:646-680: the chunk m at the front of a free list becomes the
        user's; size and alignment are those of the request. */
    method HandOut(from: Place, al: nat, size: nat) returns (addr: nat, m: nat)
      requires Sound() && (from.ThreadFree? || from.Transit?) && ListAt(lists, from) != []
      requires size > 0 && ListAt(lists, from)[0] in chunks
      requires Needed(rz, al, size) <= ChunkSize(chunks[ListAt(lists, from)[0]])
      modifies this, shadow
      ensures Sound() && m == old(ListAt(lists, from)[0]) && m in old(chunks) && !old(chunks)[m].state.Allocated?
      ensures lists == Popped(old(lists), from) && sizes == old(sizes) && groups == old(groups)
      ensures chunks == old(chunks)[m := NewChunk(rz, m, old(chunks)[m], al, size)]
      ensures memaligns == NewMemaligns(rz, m, al, size, old(memaligns))
      ensures addr == Placed(m, rz, al) && Bytes(shadow) == old(HandShadow(State(), ListAt(lists, from)[0], al, size))
    {
      hide ReachedStates, SoundStates, Painted, RedzonePainted, Filled, RedzoneFilled, Aligned, NewMemaligns, NewChunk, Needed;
      hide ChunkSize, Popped, RoundUp, Pow2;
      m := ListAt(lists, from)[0];
      ghost var x := State();
      ReachedSound(x);
      HandOutFacts(x, from, m, al, size);
      addr := m + Pow2(rz);
      var rounded_size := RoundUp(size, rz);
      if al > rz && !IsAligned(addr, al) {
        addr := RoundUp(addr, al);
      }
      PoisonShadow(shadow, addr, rounded_size, 0);
      ghost var s1 := Bytes(shadow);
      if size < rounded_size {
        PoisonShadowPartialRightRedzone(shadow, addr + rounded_size - Pow2(rz), Low(size, rz), Pow2(rz), HEAP_RIGHT_REDZONE);
      }
      ghost var s2 := Bytes(shadow);
      HandReached(x, from, m, al, size, s2);
      Write(chunks[m := NewChunk(rz, m, chunks[m], al, size)], Popped(lists, from), sizes,
        NewMemaligns(rz, m, al, size, memaligns), groups, where[m := User]);
      assert State() == HandedOut(x, from, m, al, size, s2);
    }

    /** The front chunk of a free list of the right class goes to the user.  `1 << alignment_log` is an int:
        if the address has to be moved for an alignment of 1 << 31 or more, Beg() fails a CHECK at the
        latest, and nothing is said of the heap that is left. */
    method Serve(from: Place, al: nat, size: nat, ghost before: Chunks) returns (r: AllocResult, ghost m: nat)
      requires Sound() && (from.ThreadFree? || from.Transit?) && ListAt(lists, from) != [] && size > 0
      requires OfClass(chunks, [ListAt(lists, from)[0]], SizeToSizeClass(Needed(rz, al, size)))
      requires Needed(rz, al, size) <= MAX_ALLOWED && Grown(before, chunks)
      modifies this, shadow
      ensures r.Pointer? || r.Died?
      ensures r.Pointer? ==> Sound()
      ensures lists == Popped(old(lists), from) && groups == old(groups) && m == old(ListAt(lists, from)[0])
      ensures r.Pointer? ==> sizes == old(sizes) && memaligns == NewMemaligns(rz, m, al, size, old(memaligns))
      ensures r.Pointer? ==> Granted(rz, before, chunks, m, al, size, r.ptr)
      ensures Dies(r, rz, al, m)
    {
      hide ReachedStates, SoundStates, NewMemaligns, Placed, IsAligned, Needed, Granted, Grown, OfClass, ChunkOk, ChunkSize, NewChunk;
      FrontReady(from, al, size);
      var front := ListAt(lists, from)[0];
      m := front;
      if al >= INT_BITS && !IsAligned(front + Pow2(rz), al) {
        lists := Popped(lists, from);
        return Died, m;
      }
      ghost var mid := chunks;
      var addr, chunk := HandOut(from, al, size);
      GrantedBy(rz, before, mid, m, al, size);
      return Pointer(addr), m;
    }

    lemma {:induction false} FrontReady(from: Place, al: nat, size: nat)
      requires Sound() && (from.ThreadFree? || from.Transit?) && ListAt(lists, from) != [] && size > 0
      requires OfClass(chunks, [ListAt(lists, from)[0]], SizeToSizeClass(Needed(rz, al, size)))
      requires Needed(rz, al, size) <= MAX_ALLOWED
      ensures var m := ListAt(lists, from)[0];
        m in chunks && chunks[m].state.Available? && ChunkOk(rz, m, chunks[m]) && Needed(rz, al, size) <= ChunkSize(chunks[m])
    {
      hide ReachedStates, SoundStates, ChunkOk, SizeToSizeClass, SizeClassToSize;
      ghost var front := ListAt(lists, from)[0];
      assert [front][0] in chunks && chunks[[front][0]].sizeClass == SizeToSizeClass(Needed(rz, al, size));
      ReachedSound(State());
      RequestClass(rz, al, size);
      SoundChunk(State(), front);
      HandOutFacts(State(), from, front, al, size);
    }

    /** lib/asan/asan_allocator.cc:592-681.  The alignment is 1 << al; an alignment argument of 0 has the
        effect of 1. */
    method Allocate(thread: Option<nat>, al: nat, requested: nat, os: Os) returns (r: AllocResult, ghost m: nat)
      requires Valid() && GoodOs(os, shadow.Length)
      modifies this, shadow
      ensures var size := if requested == 0 then 1 else requested;
        && (r.TooBig? <==> size > MAX_ALLOWED || Needed(rz, al, size) > MAX_ALLOWED)
        && (r.Pointer? ==> Valid() && Granted(rz, old(chunks), chunks, m, al, size, r.ptr))
      ensures r.TooBig? ==> Valid() && State() == old(State())
      ensures r.OutOfMemory? ==>
        Starved(os, old(lists), old(groups), groups, thread,
          SizeToSizeClass(Needed(rz, al, if requested == 0 then 1 else requested)))
      ensures Dies(r, rz, al, m)
      ensures r.Pointer? || r.Died? ==>
        Served(os, old(lists), lists, old(groups), groups, thread,
          SizeToSizeClass(Needed(rz, al, if requested == 0 then 1 else requested)), m)
      ensures r.Pointer? ==>
        sizes == old(sizes) && memaligns == NewMemaligns(rz, m, al, if requested == 0 then 1 else requested, old(memaligns))
    {
      hide SizeClassToSize, SizeToSizeClass;
      hide Served, Starved, NewMemaligns, ReachedStates, SoundStates, GoodOs, RanOut, Granted, Grown, SameLists;
      Parameters();
      var size := if requested == 0 then 1 else requested;
      var rounded_size := RoundUp(size, rz);
      var needed_size := rounded_size + Pow2(rz);
      if al > rz {
        needed_size := needed_size + Pow2(al);
      }
      m := 0;
      if size > MAX_ALLOWED || needed_size > MAX_ALLOWED {
        return TooBig, m;
      }
      RequestClass(rz, al, size);
      var size_class := SizeToSizeClass(needed_size);
      var size_to_allocate := SizeClassToSize(size_class);
      if thread.None? || size_to_allocate >= MAX_THREAD_FREE {
        r, m := ServeGlobal(thread, al, size, size_class, os);
      } else {
        r, m := ServeThread(thread.value, al, size, size_class, os);
      }
    }

    lemma {:induction false} Parameters()
      requires Sound()
      ensures 5 <= rz <= 12
    {
      ReachedSound(State());
    }

    /** Directly from the global storage. */
    method ServeGlobal(ghost thread: Option<nat>, al: nat, size: nat, size_class: nat, os: Os) returns (r: AllocResult, ghost m: nat)
      requires thread.None? || SizeClassToSize(size_class) >= MAX_THREAD_FREE
      requires Valid() && GoodOs(os, shadow.Length) && size > 0 && Needed(rz, al, size) <= MAX_ALLOWED
      requires size_class == SizeToSizeClass(Needed(rz, al, size)) && rz < size_class < CLASSES
      modifies this, shadow
      ensures !r.TooBig? && (r.Pointer? ==> Valid() && Granted(rz, old(chunks), chunks, m, al, size, r.ptr))
      ensures r.OutOfMemory? ==> Starved(os, old(lists), old(groups), groups, thread, size_class)
      ensures Dies(r, rz, al, m)
      ensures r.Pointer? || r.Died? ==> Served(os, old(lists), lists, old(groups), groups, thread, size_class, m)
      ensures r.Pointer? ==> sizes == old(sizes) && memaligns == NewMemaligns(rz, m, al, size, old(memaligns))
    {
      hide Served, NewMemaligns, ReachedStates, SoundStates, GoodOs, RanOut, Granted, Grown, SameLists;
      m := 0;
      ghost var before := chunks;
      var ok := AllocateChunks(size_class, 1, os);
      if !ok {
        return OutOfMemory, m;
      }
      ServedGlobally(os, old(lists), lists, old(groups), groups, thread, size_class);
      r, m := Serve(BUILT, al, size, before);
    }

    static lemma {:induction false} RefillSome(sizeClass: nat)
      requires SizeClassToSize(sizeClass) < MAX_THREAD_FREE
      ensures SizeClassToSize(sizeClass) > 0 && MAX_THREAD_FREE / SizeClassToSize(sizeClass) > 0
    {
      ClassAligned(sizeClass, 0);
      Ratio(MAX_THREAD_FREE, SizeClassToSize(sizeClass));
    }

    static lemma {:induction false} Ratio(x: nat, y: nat)
      requires 0 < y <= x
      ensures x / y > 0
    {
    }

    /** From the thread's storage. */
    method ServeThread(thread: nat, al: nat, size: nat, size_class: nat, os: Os) returns (r: AllocResult, ghost m: nat)
      requires Valid() && GoodOs(os, shadow.Length) && size > 0 && Needed(rz, al, size) <= MAX_ALLOWED
      requires size_class == SizeToSizeClass(Needed(rz, al, size)) && rz < size_class < CLASSES
      requires SizeClassToSize(size_class) < MAX_THREAD_FREE
      modifies this, shadow
      ensures !r.TooBig? && (r.Pointer? ==> Valid() && Granted(rz, old(chunks), chunks, m, al, size, r.ptr))
      ensures r.OutOfMemory? ==> Starved(os, old(lists), old(groups), groups, Some(thread), size_class)
      ensures Dies(r, rz, al, m)
      ensures r.Pointer? || r.Died? ==> Served(os, old(lists), lists, old(groups), groups, Some(thread), size_class, m)
      ensures r.Pointer? ==> sizes == old(sizes) && memaligns == NewMemaligns(rz, m, al, size, old(memaligns))
    {
      RefillSome(size_class);
      hide Served, NewMemaligns, ReachedStates, SoundStates, GoodOs, RanOut, Granted, Grown, SameLists, OfClass;
      hide State, Needed, SizeClassToSize, SizeToSizeClass;
      m := 0;
      ghost var before := chunks;
      var fl := ThreadFree(thread, size_class);
      GrownSelf(chunks);
      if ListAt(lists, fl) == [] {
        var ok := Restock(thread, size_class, MAX_THREAD_FREE / SizeClassToSize(size_class), os);
        if !ok {
          return OutOfMemory, m;
        }
        ServedAfresh(os, old(lists), lists, old(groups), groups, thread, size_class);
      } else {
        ServedOwn(os, lists, groups, thread, size_class);
      }
      FrontOfClass(fl);
      r, m := Serve(fl, al, size, before);
    }

    lemma {:induction false} FrontOfClass(p: Place)
      requires Sound() && p.ThreadFree? && ListAt(lists, p) != []
      ensures OfClass(chunks, [ListAt(lists, p)[0]], p.sizeClass)
    {
      ReachedSound(State());
      FreeListClass(State(), p);
    }

    /** lib/asan/asan_allocator.cc:639-641. */
    method Restock(thread: nat, sizeClass: nat, n_new_chunks: nat, os: Os) returns (ok: bool)
      requires Valid() && GoodOs(os, shadow.Length) && rz < sizeClass < CLASSES && n_new_chunks > 0
      requires ListAt(lists, ThreadFree(thread, sizeClass)) == []
      modifies this, shadow
      ensures ok ==> Valid() && Grown(old(chunks), chunks) && |ListAt(lists, ThreadFree(thread, sizeClass))| == n_new_chunks
      ensures ok ==> sizes == old(sizes) && memaligns == old(memaligns)
      ensures ok ==> SameLists(old(lists), lists, {GlobalFree(sizeClass), ThreadFree(thread, sizeClass)})
      ensures ok ==> Drawn(os, old(groups), groups, old(ListAt(lists, GlobalFree(sizeClass))), ListAt(lists, GlobalFree(sizeClass)),
        Reversed(ListAt(lists, ThreadFree(thread, sizeClass))), n_new_chunks, sizeClass)
      ensures !ok ==> RanOut(os, old(groups), groups, old(ListAt(lists, GlobalFree(sizeClass))), n_new_chunks, sizeClass)
    {
      hide ReachedStates, SoundStates, GoodOs, RanOut, Grown, Drawn, Reversed;
      var fl := ThreadFree(thread, sizeClass);
      ok := AllocateChunks(sizeClass, n_new_chunks, os);
      if ok {
        ghost var x := State();
        StockReached(x, BUILT, fl);
        StockedLists(old(lists), lists, thread, sizeClass);
        Write(chunks, Appended(lists, BUILT, fl), sizes, memaligns, groups, Relabelled(where, BUILT, fl));
        assert State() == Stocked(x, BUILT, fl);
      }
    }

    // ----- Deallocate() and the quarantines

    /** Sound, as far as the invariant goes. */
    ghost predicate Coherent()
      reads this, shadow
    {
      State() in SoundStates()
    }

    lemma {:induction false} SoundCoheres()
      requires Sound()
      ensures Coherent()
    {
      hide SoundStates;
      ReachedSound(State());
    }

    /** lib/asan/asan_allocator.cc:505-519.  The callers pop only while there is more than quarantine_size. */
    method QuarantinePop()
      requires Coherent() && ListAt(lists, GlobalQuarantine) != []
      modifies this, shadow
      ensures Coherent() && ListAt(lists, GlobalQuarantine) == old(ListAt(lists, GlobalQuarantine))[1..]
      ensures old(Sound() && SizeAt(sizes, GlobalQuarantine) > quarantineSize) ==> Sound()
      ensures var m := old(ListAt(lists, GlobalQuarantine))[0];
        && m in old(chunks) && Shed(old(chunks), chunks, old(lists), lists, [m], {})
        && memaligns == old(memaligns) && groups == old(groups)
        && Bytes(shadow) == Filled(old(Bytes(shadow)), m, ChunkSize(old(chunks)[m]), HEAP_LEFT_REDZONE)
    {
      hide ReachedStates, SoundStates, Painted, Shed, Aligned, Filled, ChunkSize;
      ghost var x := State();
      var m := ListAt(lists, GlobalQuarantine)[0];
      OldestFacts(m);
      PoisonShadow(shadow, m, ChunkSize(chunks[m]), HEAP_LEFT_REDZONE);
      Recycle(x, m);
    }

    lemma {:induction false} OldestFacts(m: nat)
      requires Coherent() && ListAt(lists, GlobalQuarantine) != [] && ListAt(lists, GlobalQuarantine)[0] == m
      ensures m in chunks && chunks[m].state.Quarantine?
      ensures Aligned(m) && Aligned(m + ChunkSize(chunks[m])) && m + ChunkSize(chunks[m]) <= GRANULARITY * shadow.Length
      ensures State().shadow == Bytes(shadow) == shadow[..] && State().chunks == chunks
    {
      EvictFacts(State(), m);
    }

    static lemma {:induction false} SurrenderedParts(x: Snapshot, from: Place)
      ensures Surrendered(x, from) == Snapshot(x.rz, x.n, x.limit, x.chunks, Appended(x.lists, from, GlobalQuarantine),
        Relabelled(x.where, from, GlobalQuarantine),
        x.sizes[GlobalQuarantine := SizeAt(x.sizes, GlobalQuarantine) + SizeAt(x.sizes, from)][from := 0],
        x.memaligns, x.groups, x.shadow)
    {
    }

    static lemma {:induction false} EvictedParts(x: Snapshot, m: nat, s: seq<Byte>)
      requires m in x.chunks && SizeAt(x.sizes, GlobalQuarantine) >= ChunkSize(x.chunks[m])
      requires ListAt(x.lists, GlobalQuarantine) != []
      ensures var c := x.chunks[m];
        Evicted(x, m, s) == Snapshot(x.rz, x.n, x.limit, x.chunks[m := c.(state := Available)],
          PushedFront(Popped(x.lists, GlobalQuarantine), GlobalFree(c.sizeClass), m),
          x.where[m := GlobalFree(c.sizeClass)],
          x.sizes[GlobalQuarantine := SizeAt(x.sizes, GlobalQuarantine) - ChunkSize(c)], x.memaligns, x.groups, s)
    {
    }

    /** lib/asan/asan_allocator.cc:512-519: the chunk, poisoned, is pushed on its free list. */
    method Recycle(ghost x: Snapshot, m: nat)
      requires x in SoundStates() && State() == x.(shadow := Bytes(shadow))
      requires ListAt(lists, GlobalQuarantine) != [] && ListAt(lists, GlobalQuarantine)[0] == m
      requires m in chunks && chunks[m].state.Quarantine?
      requires Bytes(shadow) == Filled(x.shadow, m, ChunkSize(chunks[m]), HEAP_LEFT_REDZONE)
      modifies this
      ensures Coherent() && ListAt(lists, GlobalQuarantine) == old(ListAt(lists, GlobalQuarantine))[1..]
      ensures x in ReachedStates() && SizeAt(x.sizes, GlobalQuarantine) > x.limit ==> Sound()
      ensures Shed(old(chunks), chunks, old(lists), lists, [m], {}) && memaligns == old(memaligns) && groups == old(groups)
    {
      hide ReachedStates, SoundStates, Filled, Shed, ListAt, Popped, PushedFront, SizeAt, ChunkSize, Bytes;
      hide Evicted, State, Sound, Coherent;
      ghost var s := Bytes(shadow);
      EvictHere(x, m);
      var c := chunks[m];
      Write(chunks[m := c.(state := Available)],
        PushedFront(Popped(lists, GlobalQuarantine), GlobalFree(c.sizeClass), m),
        sizes[GlobalQuarantine := SizeAt(sizes, GlobalQuarantine) - ChunkSize(c)], memaligns, groups,
        where[m := GlobalFree(c.sizeClass)]);
      IsSound(Evicted(x, m, s));
    }

    lemma {:induction false} IsSound(y: Snapshot)
      requires State() == y
      ensures y in SoundStates() ==> Coherent()
      ensures y in ReachedStates() ==> Sound()
    {
      hide SoundStates, ReachedStates, State;
    }

    lemma {:induction false} EvictHere(x: Snapshot, m: nat)
      requires x in SoundStates() && State() == x.(shadow := Bytes(shadow)) && m in chunks && chunks[m].state.Quarantine?
      requires ListAt(lists, GlobalQuarantine) != [] && ListAt(lists, GlobalQuarantine)[0] == m
      requires Bytes(shadow) == Filled(x.shadow, m, ChunkSize(chunks[m]), HEAP_LEFT_REDZONE)
      ensures m in x.chunks && ListAt(x.lists, GlobalQuarantine) != []
      ensures SizeAt(sizes, GlobalQuarantine) >= ChunkSize(chunks[m]) && SizeAt(x.sizes, GlobalQuarantine) >= ChunkSize(x.chunks[m])
      ensures Evicted(x, m, Bytes(shadow)) in SoundStates()
      ensures x in ReachedStates() && SizeAt(x.sizes, GlobalQuarantine) > x.limit ==>
        Evicted(x, m, Bytes(shadow)) in ReachedStates()
      ensures var c := chunks[m];
        var lists' := PushedFront(Popped(lists, GlobalQuarantine), GlobalFree(c.sizeClass), m);
        && Evicted(x, m, Bytes(shadow)) == Snapshot(rz, shadow.Length, quarantineSize, chunks[m := c.(state := Available)], lists',
             where[m := GlobalFree(c.sizeClass)],
             sizes[GlobalQuarantine := SizeAt(sizes, GlobalQuarantine) - ChunkSize(c)], memaligns, groups, Bytes(shadow))
        && Shed(chunks, chunks[m := c.(state := Available)], lists, lists', [m], {})
        && ListAt(lists', GlobalQuarantine) == ListAt(lists, GlobalQuarantine)[1..]
    {
      hide ReachedStates, SoundStates, Filled, Shed, ListAt, Popped, PushedFront, SizeAt, ChunkSize, Bytes;
      hide Evicted;
      EvictReady(x, m, Bytes(shadow));
    }

    static lemma {:induction false} EvictReady(x: Snapshot, m: nat, s: seq<Byte>)
      requires x in SoundStates() && m in x.chunks && x.chunks[m].state.Quarantine?
      requires ListAt(x.lists, GlobalQuarantine) != [] && ListAt(x.lists, GlobalQuarantine)[0] == m
      requires s == EvictShadow(x, m)
      ensures SizeAt(x.sizes, GlobalQuarantine) >= ChunkSize(x.chunks[m])
      ensures Evicted(x, m, s) in SoundStates()
      ensures x in ReachedStates() && SizeAt(x.sizes, GlobalQuarantine) > x.limit ==> Evicted(x, m, s) in ReachedStates()
      ensures var c := x.chunks[m];
        var lists := PushedFront(Popped(x.lists, GlobalQuarantine), GlobalFree(c.sizeClass), m);
        && Evicted(x, m, s) == Snapshot(x.rz, x.n, x.limit, x.chunks[m := c.(state := Available)], lists,
             x.where[m := GlobalFree(c.sizeClass)],
             x.sizes[GlobalQuarantine := SizeAt(x.sizes, GlobalQuarantine) - ChunkSize(c)], x.memaligns, x.groups, s)
        && Shed(x.chunks, x.chunks[m := c.(state := Available)], x.lists, lists, [m], {})
        && ListAt(lists, GlobalQuarantine) == ListAt(x.lists, GlobalQuarantine)[1..]
    {
      hide ReachedStates, SoundStates, Painted, Shed, ListAt, Popped, PushedFront, SizeAt, ChunkSize;
      hide Evicted, EvictShadow;
      EvictEffects(x.chunks, x.lists, m);
      EvictPainted(x, m);
      EvictSound(x, m, s);
      EvictedParts(x, m, s);
      if x in ReachedStates() && SizeAt(x.sizes, GlobalQuarantine) > x.limit { EvictReached(x, m, s); }
    }

    /** `while (quarantine_.size() > flags()->quarantine_size) QuarantinePop();`. */
    method Shrink()
      requires Sound()
      modifies this, shadow
      ensures Sound() && memaligns == old(memaligns) && groups == old(groups)
      ensures IsShrunk(old(chunks), old(ListAt(lists, GlobalQuarantine)), ListAt(lists, GlobalQuarantine), quarantineSize)
      ensures Shed(old(chunks), chunks, old(lists), lists,
        Gone(old(ListAt(lists, GlobalQuarantine)), ListAt(lists, GlobalQuarantine)), {})
    {
      hide ReachedStates, SoundStates, IsShrunk, Shrinking, Shed, ListAt, SizeAt, Bytes, Filled, Gone, ChunkSize;
      ghost var before, q, gone := chunks, ListAt(lists, GlobalQuarantine), [];
      ReachedSound(State());
      ShrinkStart(State(), quarantineSize);
      while SizeAt(sizes, GlobalQuarantine) > quarantineSize
        invariant Sound() && Shed(before, chunks, old(lists), lists, gone, {}) && q == gone + ListAt(lists, GlobalQuarantine)
        invariant Shrinking(before, q, ListAt(lists, GlobalQuarantine), quarantineSize)
        invariant memaligns == old(memaligns) && groups == old(groups)
        decreases |ListAt(lists, GlobalQuarantine)|
      {
        SoundCoheres();
        ShedClasses(before, chunks, old(lists), lists, gone, {});
        ShrinkStep(State(), before, q, quarantineSize);
        ghost var mid, lists1, m := chunks, lists, ListAt(lists, GlobalQuarantine)[0];
        FrontLeaves(gone, ListAt(lists, GlobalQuarantine));
        QuarantinePop();
        ShedMore(before, mid, chunks, old(lists), lists1, lists, gone, m);
        gone := gone + [m];
      }
      ReachedSound(State());
      ShedClasses(before, chunks, old(lists), lists, gone, {});
      ShrinkEnd(State(), before, q, quarantineSize);
      GoneFrom(gone, ListAt(lists, GlobalQuarantine));
    }

    /** `quarantine_.PushList(q)`. */
    method Surrender(thread: nat)
      requires Valid()
      modifies this
      ensures Valid() && chunks == old(chunks) && memaligns == old(memaligns) && groups == old(groups)
      ensures ListAt(lists, ThreadQuarantine(thread)) == []
      ensures ListAt(lists, GlobalQuarantine) == old(ListAt(lists, GlobalQuarantine) + ListAt(lists, ThreadQuarantine(thread)))
      ensures SameLists(old(lists), lists, {GlobalQuarantine, ThreadQuarantine(thread)})
    {
      hide ReachedStates, SoundStates, ListAt, Appended, Relabelled, SizeAt, SameLists;
      var tq := ThreadQuarantine(thread);
      ghost var x := State();
      SurrenderReached(x, tq);
      SurrenderedParts(x, tq);
      hide Surrendered;
      AppendEffects(lists, tq, GlobalQuarantine);
      Write(chunks, Appended(lists, tq, GlobalQuarantine),
        sizes[GlobalQuarantine := SizeAt(sizes, GlobalQuarantine) + SizeAt(sizes, tq)][tq := 0], memaligns, groups,
        Relabelled(where, tq, GlobalQuarantine));
      assert State() == Surrendered(x, tq);
    }

    /** lib/asan/asan_allocator.cc:341-349. */
    method SwallowQuarantine(thread: nat)
      requires Valid()
      modifies this, shadow
      ensures Valid() && Committed(old(chunks), chunks, old(lists), lists, thread, quarantineSize)
      ensures memaligns == old(memaligns) && groups == old(groups)
    {
      hide ReachedStates, SoundStates, IsShrunk, Shed, State, SameLists, Gone;
      var tq := ThreadQuarantine(thread);
      QueueLength(tq);
      if SizeAt(sizes, tq) > 0 {
        Surrender(thread);
        ghost var lists1 := lists;
        Shrink();
        CommittedBy(old(chunks), chunks, old(lists), lists1, lists, thread, quarantineSize);
      }
    }

    lemma {:induction false} QueueLength(p: Place)
      requires Sound() && p.ThreadQuarantine?
      ensures SizeAt(sizes, p) > 0 <==> ListAt(lists, p) != []
    {
      ReachedSound(State());
      QueueEmpty(State(), p);
    }

    /** lib/asan/asan_allocator.cc:350-362: the thread's free lists go to the global ones, last chunk first. */
    method SwallowFreeLists(thread: nat)
      requires Valid()
      modifies this
      ensures Valid() && chunks == old(chunks) && memaligns == old(memaligns) && groups == old(groups)
      ensures AllSwallowed(old(lists), lists, thread)
    {
      hide ReachedStates, SoundStates, Reversed, Valid;
      var size_class := 0;
      while size_class < CLASSES
        invariant 0 <= size_class <= CLASSES && Valid() && chunks == old(chunks) && memaligns == old(memaligns) && groups == old(groups)
        invariant forall k: nat :: k < size_class ==> Swallowed(old(lists), lists, thread, k)
        invariant forall p: Place :: !OwnFree(p, thread) || p.sizeClass >= size_class ==> ListAt(lists, p) == old(ListAt(lists, p))
      {
        ghost var mid := lists;
        SwallowFreeList(ThreadFree(thread, size_class));
        SwallowedMore(old(lists), mid, lists, thread, size_class);
        size_class := size_class + 1;
      }
    }

    method SwallowFreeList(p: Place)
      requires Valid() && p.ThreadFree?
      modifies this
      ensures Valid() && chunks == old(chunks) && memaligns == old(memaligns) && groups == old(groups) && ListAt(lists, p) == []
      ensures ListAt(lists, GlobalFree(p.sizeClass)) ==
        Reversed(old(ListAt(lists, p))) + old(ListAt(lists, GlobalFree(p.sizeClass)))
      ensures SameLists(old(lists), lists, {p, GlobalFree(p.sizeClass)})
    {
      hide ReachedStates, SoundStates;
      while ListAt(lists, p) != []
        invariant Valid() && chunks == old(chunks) && memaligns == old(memaligns) && groups == old(groups)
        invariant Reversed(ListAt(lists, p)) + ListAt(lists, GlobalFree(p.sizeClass)) ==
          Reversed(old(ListAt(lists, p))) + old(ListAt(lists, GlobalFree(p.sizeClass)))
        invariant SameLists(old(lists), lists, {p, GlobalFree(p.sizeClass)})
        decreases |ListAt(lists, p)|
      {
        ReversedStep(ListAt(lists, p), ListAt(lists, GlobalFree(p.sizeClass)));
        SwallowChunk(p);
      }
    }

    method SwallowChunk(p: Place)
      requires Valid() && p.ThreadFree? && ListAt(lists, p) != []
      modifies this
      ensures Valid() && chunks == old(chunks) && memaligns == old(memaligns) && groups == old(groups)
      ensures ListAt(lists, p) == old(ListAt(lists, p))[1..]
      ensures ListAt(lists, GlobalFree(p.sizeClass)) == [old(ListAt(lists, p))[0]] + old(ListAt(lists, GlobalFree(p.sizeClass)))
      ensures SameLists(old(lists), lists, {p, GlobalFree(p.sizeClass)})
    {
      hide ReachedStates, SoundStates;
      ghost var x := State();
      var m := ListAt(lists, p)[0];
      ShiftReached(x, p, GlobalFree(p.sizeClass), m);
      Write(chunks, PushedFront(Popped(lists, p), GlobalFree(p.sizeClass), m), sizes, memaligns, groups,
        where[m := GlobalFree(p.sizeClass)]);
      assert State() == Shifted(x, p, GlobalFree(p.sizeClass), m);
    }

    /** AsanThreadLocalMallocStorage::CommitBack(): a thread that ends gives back all it has, its quarantine before
        its free lists.  Nothing of another thread changes. */
    method CommitBack(thread: nat)
      requires Valid()
      modifies this, shadow
      ensures Valid() && memaligns == old(memaligns) && groups == old(groups)
      ensures exists mid ::
        Committed(old(chunks), chunks, old(lists), mid, thread, quarantineSize) && AllSwallowed(mid, lists, thread)
    {
      hide ReachedStates, SoundStates, Committed, AllSwallowed;
      SwallowQuarantine(thread);
      ghost var mid := lists;
      SwallowFreeLists(thread);
      assert Committed(old(chunks), chunks, old(lists), mid, thread, quarantineSize);
    }

    /** The user's chunk a goes to the end of a quarantine. */
    method Retire(a: nat, p: Place)
      requires Sound() && (p.ThreadQuarantine? || p.GlobalQuarantine?)
      requires a in chunks && chunks[a].state.Allocated?
      modifies this, shadow
      ensures Sound() && chunks == old(chunks)[a := old(chunks)[a].(state := Quarantine)]
      ensures lists == PushedBack(old(lists), p, a) && memaligns == FreedMemaligns(rz, a, old(memaligns)) && groups == old(groups)
      ensures Bytes(shadow) == Filled(old(Bytes(shadow)), Beg(a, old(chunks)[a].alignLog), RoundUp(old(chunks)[a].used, rz), HEAP_FREE)
    {
      hide ReachedStates, SoundStates, Painted, Filled, Beg, RoundUp, PushedBack, FreedMemaligns, Aligned;
      ghost var x := State();
      RetireReady(a);
      PoisonShadow(shadow, Beg(a, chunks[a].alignLog), RoundUp(chunks[a].used, rz), HEAP_FREE);
      Enlist(x, a, p);
    }

    lemma {:induction false} RetireReady(a: nat)
      requires Sound() && a in chunks && chunks[a].state.Allocated?
      ensures var beg, rounded := Beg(a, chunks[a].alignLog), RoundUp(chunks[a].used, rz);
        Aligned(beg) && Aligned(beg + rounded) && beg + rounded <= GRANULARITY * shadow.Length
      ensures State().shadow == Bytes(shadow) == shadow[..] && State().chunks == chunks && State().rz == rz
      ensures State() == State().(shadow := Bytes(shadow))
    {
      hide ReachedStates, SoundStates, Beg, RoundUp, Aligned;
      ReachedSound(State());
      RetireFacts(State(), a);
    }

    /** lib/asan/asan_allocator.cc:712-725: the chunk, poisoned, goes to the end of a quarantine. */
    method Enlist(ghost x: Snapshot, a: nat, p: Place)
      requires x in ReachedStates() && State() == x.(shadow := Bytes(shadow)) && (p.ThreadQuarantine? || p.GlobalQuarantine?)
      requires a in chunks && chunks[a].state.Allocated?
      requires Bytes(shadow) == Filled(x.shadow, Beg(a, chunks[a].alignLog), RoundUp(chunks[a].used, rz), HEAP_FREE)
      modifies this
      ensures Sound() && chunks == old(chunks)[a := old(chunks)[a].(state := Quarantine)]
      ensures lists == PushedBack(old(lists), p, a) && memaligns == FreedMemaligns(rz, a, old(memaligns)) && groups == old(groups)
    {
      hide ReachedStates, Filled, Beg, RoundUp, SizeAt, ChunkSize, FreedMemaligns, PushedBack, Bytes;
      ghost var s := Bytes(shadow);
      FreeReached(x, a, p, s);
      Write(chunks[a := chunks[a].(state := Quarantine)], PushedBack(lists, p, a),
        sizes[p := SizeAt(sizes, p) + ChunkSize(chunks[a])], FreedMemaligns(rz, a, memaligns), groups, where[a := p]);
      assert State() == FreedTo(x, a, p, s);
    }

    /** PtrToChunk(). */
    function Chunk(ptr: nat): Option<nat>
      reads this
    {
      PtrToChunk(rz, chunks, memaligns, ptr)
    }

    /** lib/asan/asan_allocator.cc:683-733.  stray is the byte that Deallocate() takes for a chunk_state where
        no header is known to be.  There is no test for a misplaced pointer: Deallocate() goes on, and
        nothing is said of what it leaves. */
    method Deallocate(thread: Option<nat>, ptr: nat, stray: ChunkState) returns (r: FreeResult)
      requires Valid()
      modifies this, shadow
      ensures r == Outcome(ptr, old(Chunk(ptr)), old(chunks), stray)
      ensures !r.Misplaced? ==> Valid()
      ensures !r.Freed? && !r.Misplaced? ==> State() == old(State())
      ensures r.Freed? ==> memaligns == FreedMemaligns(rz, old(Chunk(ptr)).value, old(memaligns)) && groups == old(groups)
      ensures r.Freed? ==> Released(old(chunks), chunks, old(Chunk(ptr)).value)
      ensures r.Freed? ==> Filed(old(chunks), chunks, old(lists), lists, thread, old(Chunk(ptr)).value, quarantineSize)
    {
      hide ReachedStates, SoundStates, Released, IsShrunk, Filed, State, Beg, FreedMemaligns;
      if ptr == 0 {
        return NullFree;
      }
      ChunkKnown(ptr);
      var chunk := Chunk(ptr);
      var old_chunk_state := if chunk.Some? then chunks[chunk.value].state else stray;
      if old_chunk_state.Quarantine? {
        return DoubleFree;
      } else if !old_chunk_state.Allocated? {
        return NotMalloced;
      }
      if chunk.None? || Beg(chunk.value, chunks[chunk.value].alignLog) != ptr {
        return Misplaced;
      }
      FileAway(thread, chunk.value);
      FiledReleases(old(chunks), chunks, old(lists), lists, thread, chunk.value, quarantineSize);
      return Freed;
    }

    lemma {:induction false} ChunkKnown(ptr: nat)
      requires Sound()
      ensures Chunk(ptr).Some? ==> Chunk(ptr).value in chunks
    {
      ReachedSound(State());
      FoundInChunks(rz, chunks, memaligns, ptr);
    }

    /** lib/asan/asan_allocator.cc:723-732. */
    method FileAway(thread: Option<nat>, m: nat)
      requires Valid() && m in chunks && chunks[m].state.Allocated?
      modifies this, shadow
      ensures Valid() && Filed(old(chunks), chunks, old(lists), lists, thread, m, quarantineSize)
      ensures memaligns == FreedMemaligns(rz, m, old(memaligns)) && groups == old(groups)
    {
      hide ReachedStates, SoundStates, Committed, State, FreedMemaligns;
      if thread.Some? {
        var tq := ThreadQuarantine(thread.value);
        Retire(m, tq);
        QueueCounted(tq);
        if SizeAt(sizes, tq) > MAX_THREAD_QUARANTINE {
          SwallowQuarantine(thread.value);
        }
      } else {
        Retire(m, GlobalQuarantine);
      }
    }

    lemma {:induction false} QueueCounted(p: Place)
      requires Sound() && p.ThreadQuarantine?
      ensures Counted(chunks, ListAt(lists, p), SizeAt(sizes, p))
    {
      ReachedSound(State());
      QueueSize(State(), p);
    }
  }

  /** Lists that the thread's free lists are swallowed by, and these. */
  ghost predicate OwnFree(p: Place, thread: nat)
  {
    (p.GlobalFree? || (p.ThreadFree? && p.thread == thread)) && p.sizeClass < CLASSES
  }

  /** The thread's free list is in front of the global one, last chunk first. */
  ghost predicate Swallowed(lists: Lists, lists': Lists, thread: nat, sizeClass: nat)
  {
    && ListAt(lists', ThreadFree(thread, sizeClass)) == []
    && ListAt(lists', GlobalFree(sizeClass)) ==
         Reversed(ListAt(lists, ThreadFree(thread, sizeClass))) + ListAt(lists, GlobalFree(sizeClass))
  }

  ghost predicate AllSwallowed(lists: Lists, lists': Lists, thread: nat)
  {
    && (forall k: nat :: k < CLASSES ==> Swallowed(lists, lists', thread, k))
    && (forall p: Place :: !OwnFree(p, thread) ==> ListAt(lists', p) == ListAt(lists, p))
  }

  lemma {:induction false} SwallowedMore(before: Lists, mid: Lists, lists: Lists, thread: nat, n: nat)
    requires forall k: nat :: k < n ==> Swallowed(before, mid, thread, k)
    requires ListAt(mid, ThreadFree(thread, n)) == ListAt(before, ThreadFree(thread, n))
    requires ListAt(mid, GlobalFree(n)) == ListAt(before, GlobalFree(n))
    requires Swallowed(mid, lists, thread, n)
    requires SameLists(mid, lists, {ThreadFree(thread, n), GlobalFree(n)})
    ensures forall k: nat :: k < n + 1 ==> Swallowed(before, lists, thread, k)
  {
    hide Reversed;
    forall k: nat | k < n ensures Swallowed(before, lists, thread, k) {
      assert Swallowed(before, mid, thread, k);
      assert ThreadFree(thread, k) != ThreadFree(thread, n) && GlobalFree(k) != GlobalFree(n);
    }
  }

  /** The chunks of one class among gone, the last first. */
  ghost function Recycled(chunks: Chunks, gone: seq<nat>, sizeClass: nat): seq<nat>
  {
    if gone == [] then [] else
      var a, before := gone[|gone| - 1], Recycled(chunks, gone[..|gone| - 1], sizeClass);
      if a in chunks && chunks[a].sizeClass == sizeClass then [a] + before else before
  }

  ghost function Topped(chunks: Chunks, gone: seq<nat>, lists: Lists, p: Place): seq<nat>
  {
    if p.GlobalFree? then Recycled(chunks, gone, p.sizeClass) + ListAt(lists, p) else ListAt(lists, p)
  }

  /** The quarantined chunks gone have become available; of the others, none has changed. */
  ghost predicate Evicting(chunks: Chunks, chunks': Chunks, gone: seq<nat>)
  {
    && (forall a :: a in gone ==> a in chunks && chunks[a].state.Quarantine?)
    && chunks'.Keys == chunks.Keys
    && (forall a :: a in chunks ==> chunks'[a] == if a in gone then chunks[a].(state := Available) else chunks[a])
  }

  /** The chunks gone have been pushed, one after the other, on the global free lists of their classes.  Of the other
      lists, but the global quarantine, none has changed. */
  ghost predicate PushedAll(chunks: Chunks, lists: Lists, lists': Lists, gone: seq<nat>, but: set<Place>)
  {
    forall p: Place :: p != GlobalQuarantine && p !in but ==> ListAt(lists', p) == Topped(chunks, gone, lists, p)
  }

  /** The chunks gone have left the global quarantine for the free lists. */
  ghost predicate Shed(chunks: Chunks, chunks': Chunks, lists: Lists, lists': Lists, gone: seq<nat>, but: set<Place>)
  {
    Evicting(chunks, chunks', gone) && PushedAll(chunks, lists, lists', gone, but)
  }

  /** What has left the front of a queue. */
  ghost function Gone(q: seq<nat>, q': seq<nat>): seq<nat>
  {
    if |q'| <= |q| then q[..|q| - |q'|] else []
  }

  lemma {:induction false} GoneFrom(gone: seq<nat>, q: seq<nat>)
    ensures Gone(gone + q, q) == gone
  {
  }

  lemma {:induction false} FrontLeaves(gone: seq<nat>, q: seq<nat>)
    requires q != []
    ensures gone + q == (gone + [q[0]]) + q[1..]
  {
  }

  /** A thread's quarantine has gone to the end of the global one, which has then shed its oldest chunks. */
  ghost predicate Committed(chunks: Chunks, chunks': Chunks, lists: Lists, lists': Lists, thread: nat, limit: nat)
  {
    var q, q' := ListAt(lists, GlobalQuarantine) + ListAt(lists, ThreadQuarantine(thread)), ListAt(lists', GlobalQuarantine);
    && ListAt(lists', ThreadQuarantine(thread)) == []
    && if ListAt(lists, ThreadQuarantine(thread)) == [] then lists' == lists && chunks' == chunks
       else IsShrunk(chunks, q, q', limit) && Shed(chunks, chunks', lists, lists', Gone(q, q'), {ThreadQuarantine(thread)})
  }

  ghost predicate SameClasses(chunks: Chunks, chunks': Chunks)
  {
    chunks'.Keys == chunks.Keys && forall a :: a in chunks ==> chunks'[a].sizeClass == chunks[a].sizeClass
  }

  lemma {:induction false} ShedClasses(chunks: Chunks, chunks': Chunks, lists: Lists, lists': Lists, gone: seq<nat>, but: set<Place>)
    requires Shed(chunks, chunks', lists, lists', gone, but)
    ensures SameClasses(chunks, chunks')
  {
  }

  lemma {:induction false} ShedMore(chunks: Chunks, mid: Chunks, chunks': Chunks, lists: Lists, lists1: Lists, lists': Lists,
      gone: seq<nat>, m: nat)
    requires Shed(chunks, mid, lists, lists1, gone, {}) && Shed(mid, chunks', lists1, lists', [m], {})
    ensures Shed(chunks, chunks', lists, lists', gone + [m], {})
  {
    hide PushedAll;
    assert m in [m];
    PushedMore(chunks, mid, lists, lists1, lists', gone, m);
  }

  lemma {:induction false} PushedMore(chunks: Chunks, mid: Chunks, lists: Lists, lists1: Lists, lists': Lists, gone: seq<nat>, m: nat)
    requires m in chunks && m in mid && mid[m].sizeClass == chunks[m].sizeClass
    requires PushedAll(chunks, lists, lists1, gone, {}) && PushedAll(mid, lists1, lists', [m], {})
    ensures PushedAll(chunks, lists, lists', gone + [m], {})
  {
    hide Topped, ListAt;
    forall p: Place | p != GlobalQuarantine ensures ListAt(lists', p) == Topped(chunks, gone + [m], lists, p) {
      ToppedMore(chunks, mid, lists, lists1, p, gone, m);
    }
  }

  lemma {:induction false} ToppedMore(chunks: Chunks, mid: Chunks, lists: Lists, lists1: Lists, p: Place, gone: seq<nat>, m: nat)
    requires m in chunks && m in mid && mid[m].sizeClass == chunks[m].sizeClass
    requires ListAt(lists1, p) == Topped(chunks, gone, lists, p)
    ensures Topped(mid, [m], lists1, p) == Topped(chunks, gone + [m], lists, p)
  {
    hide Recycled, ListAt;
    if p.GlobalFree? {
      var k, r := p.sizeClass, Recycled(chunks, gone, p.sizeClass);
      RecycledMore(chunks, gone, m, k);
      RecycledMore(mid, [], m, k);
      assert [m] + (r + ListAt(lists, p)) == ([m] + r) + ListAt(lists, p);
      assert [] + r == r && [] + ListAt(lists1, p) == ListAt(lists1, p);
    }
  }

  lemma {:induction false} RecycledMore(chunks: Chunks, gone: seq<nat>, m: nat, sizeClass: nat)
    requires m in chunks
    ensures Recycled(chunks, gone + [m], sizeClass) ==
      (if chunks[m].sizeClass == sizeClass then [m] else []) + Recycled(chunks, gone, sizeClass)
    ensures gone == [] ==> Recycled(chunks, [m], sizeClass) == if chunks[m].sizeClass == sizeClass then [m] else []
  {
    assert (gone + [m])[..|gone|] == gone;
    if gone == [] { assert gone + [m] == [m]; }
  }

  lemma {:induction false} CommittedBy(chunks: Chunks, chunks': Chunks, lists: Lists, lists1: Lists, lists': Lists, t: nat, limit: nat)
    requires ListAt(lists, ThreadQuarantine(t)) != [] && ListAt(lists1, ThreadQuarantine(t)) == []
    requires SameLists(lists, lists1, {GlobalQuarantine, ThreadQuarantine(t)})
    requires ListAt(lists1, GlobalQuarantine) == ListAt(lists, GlobalQuarantine) + ListAt(lists, ThreadQuarantine(t))
    requires IsShrunk(chunks, ListAt(lists1, GlobalQuarantine), ListAt(lists', GlobalQuarantine), limit)
    requires Shed(chunks, chunks', lists1, lists', Gone(ListAt(lists1, GlobalQuarantine), ListAt(lists', GlobalQuarantine)), {})
    ensures Committed(chunks, chunks', lists, lists', t, limit) && ListAt(lists', BUILT) == ListAt(lists, BUILT)
  {
    hide IsShrunk, Gone, ListAt, Recycled, Evicting;
    assert Topped(chunks, Gone(ListAt(lists1, GlobalQuarantine), ListAt(lists', GlobalQuarantine)), lists1, ThreadQuarantine(t)) == [];
  }

  /** q' is what is left of q when the oldest chunks have gone, as long as it was over the limit. */
  ghost predicate IsShrunk(chunks: Chunks, q: seq<nat>, q': seq<nat>, limit: nat)
  {
    && (forall i :: 0 <= i < |q| ==> q[i] in chunks)
    && q' == Survivors(chunks, q, limit)
  }

  /** q' has the same survivors as q. */
  ghost predicate Shrinking(chunks: Chunks, q: seq<nat>, q': seq<nat>, limit: nat)
  {
    && (forall i :: 0 <= i < |q| ==> q[i] in chunks)
    && (forall i :: 0 <= i < |q'| ==> q'[i] in chunks)
    && Survivors(chunks, q, limit) == Survivors(chunks, q', limit)
  }

  /** The chunk the user has given back is quarantined, or already available again. */
  ghost predicate Released(chunks: Chunks, chunks': Chunks, m: nat)
  {
    && m in chunks && m in chunks' && chunks[m].state.Allocated? && !chunks'[m].state.Allocated?
    && forall a :: a in chunks && chunks[a].state.Allocated? && a != m ==> a in chunks' && chunks'[a] == chunks[a]
  }

  lemma {:induction false} QueueEmpty(x: Snapshot, p: Place)
    requires x in SoundStates() && p.ThreadQuarantine?
    ensures SizeAt(x.sizes, p) > 0 <==> ListAt(x.lists, p) != []
  {
    assert Counted(x.chunks, ListAt(x.lists, p), SizeAt(x.sizes, p));
    if ListAt(x.lists, p) != [] {
      SizePositive(x.chunks[ListAt(x.lists, p)[0]]);
    }
  }

  /** The quarantine knows its size, also in terms of the chunks as they were. */
  lemma {:induction false} QueueTotal(x: Snapshot, before: Chunks)
    requires x in SoundStates() && SameClasses(before, x.chunks)
    ensures forall i :: 0 <= i < |ListAt(x.lists, GlobalQuarantine)| ==> ListAt(x.lists, GlobalQuarantine)[i] in before
    ensures Total(before, ListAt(x.lists, GlobalQuarantine)) == SizeAt(x.sizes, GlobalQuarantine)
  {
    assert Counted(x.chunks, ListAt(x.lists, GlobalQuarantine), SizeAt(x.sizes, GlobalQuarantine));
    TotalKept(x.chunks, before, ListAt(x.lists, GlobalQuarantine));
  }

  lemma {:induction false} ShrinkStart(x: Snapshot, limit: nat)
    requires x in SoundStates()
    ensures Shed(x.chunks, x.chunks, x.lists, x.lists, [], {})
    ensures Shrinking(x.chunks, ListAt(x.lists, GlobalQuarantine), ListAt(x.lists, GlobalQuarantine), limit)
  {
    QueueTotal(x, x.chunks);
  }

  lemma {:induction false} ShrinkStep(x: Snapshot, before: Chunks, q: seq<nat>, limit: nat)
    requires x in SoundStates() && SameClasses(before, x.chunks)
    requires Shrinking(before, q, ListAt(x.lists, GlobalQuarantine), limit) && SizeAt(x.sizes, GlobalQuarantine) > limit
    ensures ListAt(x.lists, GlobalQuarantine) != []
    ensures Shrinking(before, q, ListAt(x.lists, GlobalQuarantine)[1..], limit)
  {
    QueueTotal(x, before);
  }

  lemma {:induction false} ShrinkEnd(x: Snapshot, before: Chunks, q: seq<nat>, limit: nat)
    requires x in SoundStates() && SameClasses(before, x.chunks)
    requires Shrinking(before, q, ListAt(x.lists, GlobalQuarantine), limit) && SizeAt(x.sizes, GlobalQuarantine) <= limit
    ensures IsShrunk(before, q, ListAt(x.lists, GlobalQuarantine), limit)
  {
    QueueTotal(x, before);
  }

  lemma {:induction false} EvictEffects(chunks: Chunks, lists: Lists, m: nat)
    requires m in chunks && chunks[m].state.Quarantine?
    requires ListAt(lists, GlobalQuarantine) != [] && ListAt(lists, GlobalQuarantine)[0] == m
    ensures var lists' := PushedFront(Popped(lists, GlobalQuarantine), GlobalFree(chunks[m].sizeClass), m);
      && Shed(chunks, chunks[m := chunks[m].(state := Available)], lists, lists', [m], {})
      && ListAt(lists', GlobalQuarantine) == ListAt(lists, GlobalQuarantine)[1..]
  {
    forall sizeClass: nat
      ensures Recycled(chunks, [m], sizeClass) == if chunks[m].sizeClass == sizeClass then [m] else []
    {
      RecycledMore(chunks, [], m, sizeClass);
    }
  }

  lemma {:induction false} AppendEffects(lists: Lists, from: Place, to: Place)
    requires from != to
    ensures var lists' := Appended(lists, from, to);
      && ListAt(lists', from) == [] && ListAt(lists', to) == ListAt(lists, to) + ListAt(lists, from)
      && SameLists(lists, lists', {to, from})
      && (from != BUILT && to != BUILT ==> ListAt(lists', BUILT) == ListAt(lists, BUILT))
  {
  }

  lemma {:induction false} QueueSize(x: Snapshot, p: Place)
    requires x in SoundStates() && p.ThreadQuarantine?
    ensures Counted(x.chunks, ListAt(x.lists, p), SizeAt(x.sizes, p))
  {
    assert Counted(x.chunks, ListAt(x.lists, p), SizeAt(x.sizes, p));
  }

  /** Where a freed chunk goes.  A thread keeps up to a megabyte of its own; when it has more, all of it
      goes to the end of the global quarantine, which then sheds its oldest chunks. */
  ghost predicate Filed(chunks: Chunks, chunks': Chunks, lists: Lists, lists': Lists, thread: Option<nat>, m: nat, limit: nat)
  {
    && m in chunks
    && var mid := chunks[m := chunks[m].(state := Quarantine)];
    match thread
    case None => chunks' == mid && lists' == PushedBack(lists, GlobalQuarantine, m)
    case Some(t) =>
      var own := PushedBack(lists, ThreadQuarantine(t), m);
      var q := ListAt(own, ThreadQuarantine(t));
      && (forall i :: 0 <= i < |q| ==> q[i] in mid)
      && if Total(mid, q) <= MAX_THREAD_QUARANTINE then chunks' == mid && lists' == own
         else Committed(mid, chunks', own, lists', t, limit)
  }

  lemma {:induction false} FiledReleases(chunks: Chunks, chunks': Chunks, lists: Lists, lists': Lists, thread: Option<nat>, m: nat, limit: nat)
    requires Filed(chunks, chunks', lists, lists', thread, m, limit) && chunks[m].state.Allocated?
    ensures Released(chunks, chunks', m)
  {
    var mid := chunks[m := chunks[m].(state := Quarantine)];
    assert m in mid && !mid[m].state.Allocated?;
  }

  lemma {:induction false} SameSelf(lists: Lists, p: Place)
    ensures SameLists(lists, lists, {p})
  {
  }

  lemma {:induction false} ShiftLists(lists: Lists, x: Snapshot, p: Place, t: nat)
    requires p.GlobalFree? && SameLists(lists, x.lists, {p}) && ListAt(x.lists, p) != []
    requires t in x.chunks && x.chunks[t].sizeClass == p.sizeClass
    ensures var lists' := PushedFront(Popped(x.lists, p), BUILT, t);
      && SameLists(lists, lists', {p, BUILT})
      && Prepended(x.chunks, ListAt(lists, BUILT), ListAt(lists', BUILT), p.sizeClass)
  {
    assert ListAt(x.lists, BUILT) == ListAt(lists, BUILT);
  }

  lemma {:induction false} ReversedFront(s: seq<nat>, t: nat)
    ensures Reversed([t] + s) == Reversed(s) + [t]
    ensures Reversed([]) == []
  {
    assert ([t] + s)[1..] == s;
  }

  lemma {:induction false} FrontAndRest(s: seq<nat>)
    requires s != []
    ensures [s[0]] + s[1..] == s
  {
  }

  lemma {:induction false} GrownSelf(chunks: Chunks)
    ensures Grown(chunks, chunks)
  {
  }

  lemma {:induction false} SoundChunk(x: Snapshot, a: nat)
    requires x in SoundStates() && a in x.chunks
    ensures ChunkOk(x.rz, a, x.chunks[a])
  {
  }

  lemma {:induction false} FreeListClass(x: Snapshot, p: Place)
    requires x in SoundStates() && p.ThreadFree?
    ensures ListAt(x.lists, p) != [] ==> OfClass(x.chunks, [ListAt(x.lists, p)[0]], p.sizeClass)
  {
    if ListAt(x.lists, p) != [] {
      FrontAvailable(x.chunks, x.lists, x.where, p);
    }
  }
}
