/** Runs of the heap of lib/asan/asan_allocator.cc, and what holds in every state of every run.

A move is what one critical section, or one thread on its own storage, does to the heap: the methods of
AsanHeap.Heap are sequences of moves, and in a run the moves of any number of calls may alternate. */
module AsanRuns {
  import opened Bits
  import opened Shadow
  import opened AsanSizes
  import opened AsanChunks
  import opened AsanLayout
  import opened AsanPages
  import opened Partition
  import opened AsanState
  import opened Options
  import PageGroups

  datatype Move =
    | Carve(mem: nat, sizeClass: nat)
    | Shift(from: Place, to: Place)
    | Stock(from: Place, to: Place)
    | Hand(from: Place, al: nat, size: nat)
    | Free(chunk: nat, to: Place)
    | Surrender(from: Place)
    | Evict

  /** What the code has tested before it makes the move. */
  ghost predicate Allowed(x: Snapshot, v: Move)
  {
    match v
    case Carve(mem, sizeClass) => ListAt(x.lists, GlobalFree(sizeClass)) == [] && Mappable(x, mem, sizeClass)
    case Shift(from, to) =>
      && from != to && IsFree(from) && IsFree(to) && !from.Transit? && ListAt(x.lists, from) != []
      && (to.Transit? || from.sizeClass == to.sizeClass)
    case Stock(from, to) => from.Transit? && to.ThreadFree? && OfClass(x.chunks, ListAt(x.lists, from), to.sizeClass)
    case Hand(from, al, size) =>
      && (from.ThreadFree? || from.Transit?) && ListAt(x.lists, from) != []
      && var m := ListAt(x.lists, from)[0];
      && m in x.chunks && size > 0 && Needed(x.rz, al, size) <= ChunkSize(x.chunks[m])
    case Free(a, to) => (to.ThreadQuarantine? || to.GlobalQuarantine?) && a in x.chunks && x.chunks[a].state.Allocated?
    case Surrender(from) => from.ThreadQuarantine?
    case Evict =>
      && ListAt(x.lists, GlobalQuarantine) != [] && SizeAt(x.sizes, GlobalQuarantine) > x.limit
      && var m := ListAt(x.lists, GlobalQuarantine)[0];
      && m in x.chunks && SizeAt(x.sizes, GlobalQuarantine) >= ChunkSize(x.chunks[m])
  }

  ghost function After(x: Snapshot, v: Move): Snapshot
    requires Allowed(x, v)
  {
    match v
    case Carve(mem, sizeClass) => Carved(x, mem, sizeClass, PagesShadow(x, mem, sizeClass))
    case Shift(from, to) => Shifted(x, from, to, ListAt(x.lists, from)[0])
    case Stock(from, to) => Stocked(x, from, to)
    case Hand(from, al, size) =>
      var m := ListAt(x.lists, from)[0];
      HandedOut(x, from, m, al, size, HandShadow(x, m, al, size))
    case Free(a, to) => FreedTo(x, a, to, FreeShadow(x, a))
    case Surrender(from) => Surrendered(x, from)
    case Evict =>
      var m := ListAt(x.lists, GlobalQuarantine)[0];
      Evicted(x, m, EvictShadow(x, m))
  }

  /** The heap at the start of the process, over any shadow memory. */
  ghost predicate Fresh(x: Snapshot)
  {
    && 5 <= x.rz <= 12 && |x.shadow| == x.n
    && x.chunks == map[] && x.lists == map[] && x.where == map[] && x.sizes == map[] && x.memaligns == map[] && x.groups == []
  }

  ghost predicate StepAt(xs: seq<Snapshot>, vs: seq<Move>, i: nat)
    requires i < |vs| && |xs| == |vs| + 1
  {
    Allowed(xs[i], vs[i]) && xs[i + 1] == After(xs[i], vs[i])
  }

  /** The states xs from the start of the process, between the moves vs. */
  ghost predicate IsRun(xs: seq<Snapshot>, vs: seq<Move>)
  {
    && |xs| == |vs| + 1 && Fresh(xs[0])
    && forall i {:trigger StepAt(xs, vs, i)} :: 0 <= i < |vs| ==> StepAt(xs, vs, i)
  }

  lemma {:induction false} RunLength(xs: seq<Snapshot>, vs: seq<Move>)
    requires IsRun(xs, vs)
    ensures |xs| == |vs| + 1 && Fresh(xs[0])
  {
  }

  lemma {:induction false} RunStep(xs: seq<Snapshot>, vs: seq<Move>, i: nat)
    requires IsRun(xs, vs) && i < |vs|
    ensures Allowed(xs[i], vs[i]) && xs[i + 1] == After(xs[i], vs[i])
  {
    hide Allowed, After, Fresh;
    assert StepAt(xs, vs, i);
  }

  ghost predicate EndsIn(xs: seq<Snapshot>, vs: seq<Move>, x: Snapshot) { IsRun(xs, vs) && xs[|vs|] == x }

  ghost predicate Reached(x: Snapshot) { exists xs, vs :: EndsIn(xs, vs, x) }

  ghost function ReachedStates(): iset<Snapshot> { iset x: Snapshot | Reached(x) }

  // ----- Every state is sound

  lemma {:induction false} FreshSound(x: Snapshot)
    requires Fresh(x)
    ensures x in SoundStates()
  {
    assert QueuesOk(x.chunks, x.lists, x.sizes);
  }

  lemma {:induction false} MoveSound(x: Snapshot, v: Move)
    requires x in SoundStates() && Allowed(x, v)
    ensures After(x, v) in SoundStates()
  {
    hide SoundStates, Mappable, Painted, Repainted, Carved, Shifted, Stocked, HandedOut, FreedTo, Surrendered, Evicted;
    hide PagesShadow, HandShadow, FreeShadow, EvictShadow, NewChunk, Needed;
    match v
    case Carve(mem, sizeClass) =>
      PagesPainted(x, mem, sizeClass);
      CarveSound(x, PagesShadow(x, mem, sizeClass), mem, sizeClass);
    case Shift(from, to) => ShiftSound(x, from, to, ListAt(x.lists, from)[0]);
    case Stock(from, to) => StockSound(x, from, to);
    case Hand(from, al, size) =>
      var m := ListAt(x.lists, from)[0];
      HandPainted(x, from, m, al, size);
      HandoutSound(x, from, m, al, size, HandShadow(x, m, al, size));
    case Free(a, to) =>
      FreePainted(x, a);
      FreeSound(x, a, to, FreeShadow(x, a));
    case Surrender(from) => SurrenderSound(x, from);
    case Evict =>
      var m := ListAt(x.lists, GlobalQuarantine)[0];
      EvictPainted(x, m);
      EvictSound(x, m, EvictShadow(x, m));
  }

  lemma {:induction false} StateSound(xs: seq<Snapshot>, vs: seq<Move>, i: nat)
    requires IsRun(xs, vs) && i <= |vs|
    ensures xs[i] in SoundStates()
  {
    hide SoundStates, Allowed, After, Fresh;
    if i == 0 {
      FreshSound(xs[0]);
    } else {
      StateSound(xs, vs, i - 1);
      assert StepAt(xs, vs, i - 1);
      MoveSound(xs[i - 1], vs[i - 1]);
    }
  }

  lemma {:induction false} ReachedSound(x: Snapshot)
    requires x in ReachedStates()
    ensures x in SoundStates() && 5 <= x.rz <= 12 && |x.shadow| == x.n
  {
    var xs, vs :| EndsIn(xs, vs, x);
    StateSound(xs, vs, |vs|);
  }

  lemma {:induction false} FreshReached(x: Snapshot)
    requires Fresh(x)
    ensures x in ReachedStates()
  {
    var xs: seq<Snapshot>, vs: seq<Move> := [x], [];
    assert EndsIn(xs, vs, x);
  }

  /** One move leads from x to y. */
  ghost predicate Next(x: Snapshot, y: Snapshot) { exists v :: Allowed(x, v) && y == After(x, v) }

  /** Moves lead from x to y. */
  ghost predicate Leads(x: Snapshot, y: Snapshot) { exists xs :: Path(xs, x, y) }

  ghost predicate Path(xs: seq<Snapshot>, x: Snapshot, y: Snapshot)
  {
    && xs != [] && xs[0] == x && xs[|xs| - 1] == y
    && forall i {:trigger xs[i]} :: 0 < i < |xs| ==> Next(xs[i - 1], xs[i])
  }

  lemma {:induction false} LeadsOne(x: Snapshot, y: Snapshot)
    requires Next(x, y)
    ensures Leads(x, y)
  {
    hide Next;
    assert Path([x, y], x, y);
  }

  lemma {:induction false} LeadsOn(x: Snapshot, y: Snapshot, z: Snapshot)
    requires Leads(x, y) && Leads(y, z)
    ensures Leads(x, z)
  {
    hide Next;
    var xs :| Path(xs, x, y);
    var ys :| Path(ys, y, z);
    var zs := xs + ys[1..];
    forall i | 0 < i < |zs| ensures Next(zs[i - 1], zs[i]) {
      if i >= |xs| {
        assert zs[i] == ys[i - |xs| + 1] && zs[i - 1] == ys[i - |xs|];
      }
    }
    assert Path(zs, x, z);
  }

  /** One more move. */
  lemma {:induction false} Go(x: Snapshot, v: Move)
    requires x in ReachedStates() && Allowed(x, v)
    ensures After(x, v) in ReachedStates() && Next(x, After(x, v))
  {
    hide Allowed, After, Fresh;
    var xs, vs :| EndsIn(xs, vs, x);
    var xs', vs' := xs + [After(x, v)], vs + [v];
    forall i | 0 <= i < |vs'| ensures StepAt(xs', vs', i) {
      assert i < |vs| ==> StepAt(xs, vs, i);
    }
    assert EndsIn(xs', vs', After(x, v));
  }

  // ----- The moves, one by one

  lemma {:induction false} CarveReached(x: Snapshot, s': seq<Byte>, mem: nat, sizeClass: nat)
    requires x in ReachedStates() && ListAt(x.lists, GlobalFree(sizeClass)) == [] && Mappable(x, mem, sizeClass)
    requires s' == PagesShadow(x, mem, sizeClass)
    ensures Carved(x, mem, sizeClass, s') in ReachedStates() && Next(x, Carved(x, mem, sizeClass, s'))
    ensures Grown(x.chunks, Carved(x, mem, sizeClass, s').chunks)
  {
    hide SoundStates, ReachedStates, Next, Mappable, Painted, Carved, MapBytes, Grown, PagesShadow;
    ReachedSound(x);
    PagesPainted(x, mem, sizeClass);
    CarveSound(x, s', mem, sizeClass);
    Go(x, Carve(mem, sizeClass));
  }

  lemma {:induction false} ShiftReached(x: Snapshot, from: Place, to: Place, m: nat)
    requires x in ReachedStates() && from != to && IsFree(from) && IsFree(to) && !from.Transit?
    requires ListAt(x.lists, from) != [] && ListAt(x.lists, from)[0] == m
    requires to.Transit? || from.sizeClass == to.sizeClass
    ensures Shifted(x, from, to, m) in ReachedStates() && Next(x, Shifted(x, from, to, m))
    ensures m in x.chunks && x.chunks[m].state.Available? && x.chunks[m].sizeClass == from.sizeClass
  {
    hide SoundStates, ReachedStates, Next, Shifted;
    ReachedSound(x);
    ShiftSound(x, from, to, m);
    Go(x, Shift(from, to));
  }

  lemma {:induction false} StockReached(x: Snapshot, from: Place, to: Place)
    requires x in ReachedStates() && from.Transit? && to.ThreadFree?
    requires OfClass(x.chunks, ListAt(x.lists, from), to.sizeClass)
    ensures Stocked(x, from, to) in ReachedStates() && Next(x, Stocked(x, from, to))
  {
    hide ReachedStates, Next, Stocked, OfClass;
    Go(x, Stock(from, to));
  }

  lemma {:induction false} HandReached(x: Snapshot, from: Place, m: nat, al: nat, size: nat, s': seq<Byte>)
    requires x in ReachedStates()
    requires (from.ThreadFree? || from.Transit?) && ListAt(x.lists, from) != [] && ListAt(x.lists, from)[0] == m
    requires m in x.chunks && size > 0 && Needed(x.rz, al, size) <= ChunkSize(x.chunks[m])
    requires s' == HandShadow(x, m, al, size)
    ensures HandedOut(x, from, m, al, size, s') in ReachedStates() && Next(x, HandedOut(x, from, m, al, size, s'))
  {
    hide ReachedStates, Next, HandedOut, HandShadow, NewChunk;
    Go(x, Hand(from, al, size));
  }

  lemma {:induction false} FreeReached(x: Snapshot, a: nat, p: Place, s': seq<Byte>)
    requires x in ReachedStates() && (p.ThreadQuarantine? || p.GlobalQuarantine?)
    requires a in x.chunks && x.chunks[a].state.Allocated?
    requires s' == FreeShadow(x, a)
    ensures FreedTo(x, a, p, s') in ReachedStates() && Next(x, FreedTo(x, a, p, s'))
  {
    hide ReachedStates, Next, FreedTo, FreeShadow;
    Go(x, Free(a, p));
  }

  lemma {:induction false} SurrenderReached(x: Snapshot, from: Place)
    requires x in ReachedStates() && from.ThreadQuarantine?
    ensures Surrendered(x, from) in ReachedStates() && Next(x, Surrendered(x, from))
  {
    hide ReachedStates, Next, Surrendered;
    Go(x, Surrender(from));
  }

  lemma {:induction false} EvictReached(x: Snapshot, m: nat, s': seq<Byte>)
    requires x in ReachedStates() && SizeAt(x.sizes, GlobalQuarantine) > x.limit
    requires ListAt(x.lists, GlobalQuarantine) != [] && ListAt(x.lists, GlobalQuarantine)[0] == m && m in x.chunks
    requires s' == EvictShadow(x, m)
    ensures SizeAt(x.sizes, GlobalQuarantine) >= ChunkSize(x.chunks[m])
    ensures Evicted(x, m, s') in ReachedStates() && Next(x, Evicted(x, m, s'))
  {
    hide SoundStates, ReachedStates, Next, Evicted, Painted, EvictShadow;
    ReachedSound(x);
    EvictPainted(x, m);
    EvictSound(x, m, s');
    Go(x, Evict);
  }

  // ----- What holds in every state of every run

  /** A byte of the heap's pages is unpoisoned exactly when the user has asked for it and not freed it, and
      then it is in one chunk only. */
  lemma {:induction false} ByteExact(xs: seq<Snapshot>, vs: seq<Move>, i: nat, a: nat)
    requires IsRun(xs, vs) && i <= |vs| && Mapped(xs[i].groups, a)
    ensures InMem(xs[i].shadow, a) && (Poisoned(xs[i].shadow, a) <==> !Addressable(xs[i].chunks, a))
    ensures forall b, c ::
      b in xs[i].chunks && c in xs[i].chunks && Live(b, xs[i].chunks[b], a) && Live(c, xs[i].chunks[c], a) ==> b == c
  {
    StateSound(xs, vs, i);
    var x := xs[i];
    hide IsRun, Conserved, QueuesOk, GroupsOk, Housed, MemalignsOk;
    forall b, c | b in x.chunks && c in x.chunks && Live(b, x.chunks[b], a) && Live(c, x.chunks[c], a) ensures b == c {
      LiveInside(x.rz, b, x.chunks[b], a);
      LiveInside(x.rz, c, x.chunks[c], a);
    }
  }

  /** Every chunk is in exactly one list, or in the user's hands, and its state says which. */
  lemma {:induction false} OnePlaceEach(xs: seq<Snapshot>, vs: seq<Move>, i: nat, a: nat)
    requires IsRun(xs, vs) && i <= |vs| && a in xs[i].chunks
    ensures forall p: Place, q: Place :: a in ListAt(xs[i].lists, p) && a in ListAt(xs[i].lists, q) ==> p == q
    ensures xs[i].chunks[a].state.Allocated? <==> forall p: Place :: a !in ListAt(xs[i].lists, p)
    ensures forall p: Place :: a in ListAt(xs[i].lists, p) ==> Belongs(xs[i].chunks[a], p) && NoDuplicates(ListAt(xs[i].lists, p))
  {
    StateSound(xs, vs, i);
    hide IsRun;
    ExactlyOnePlace(xs[i].chunks, xs[i].lists, xs[i].where, a);
  }

  /** Chunks do not overlap, and whatever byte of a chunk one asks for, the scan of the page groups finds
      the group that the chunk was carved from. */
  lemma {:induction false} GroupFound(xs: seq<Snapshot>, vs: seq<Move>, i: nat, a: nat, addr: nat) returns (g: Group)
    requires IsRun(xs, vs) && i <= |vs| && a in xs[i].chunks && a <= addr < a + ChunkSize(xs[i].chunks[a])
    ensures g in xs[i].groups && Contains(g, a, xs[i].chunks[a]) && PageGroups.Scan(xs[i].groups, addr) == Some(g)
    ensures forall b :: b in xs[i].chunks && b != a ==> !(b <= addr < b + ChunkSize(xs[i].chunks[b]))
  {
    StateSound(xs, vs, i);
    var x := xs[i];
    hide IsRun, Conserved, QueuesOk, MemalignsOk, ShadowOk;
    assert Home(x.groups, a, x.chunks[a]);
    var j :| 0 <= j < |x.groups| && Contains(x.groups[j], a, x.chunks[a]);
    g := x.groups[j];
    PageGroups.HeapGroups(x.groups, GRANULARITY * x.n);
    PageGroups.ScanUnique(x.groups, addr, g);
  }

  // ----- What a move does to one chunk

  /** Chunks are never given up, and the parameters of the heap stay. */
  lemma {:induction false} Stays(xs: seq<Snapshot>, vs: seq<Move>, i: nat, j: nat)
    requires IsRun(xs, vs) && i <= j <= |vs|
    ensures forall a :: a in xs[i].chunks ==> a in xs[j].chunks && xs[j].chunks[a].sizeClass == xs[i].chunks[a].sizeClass
    ensures xs[i].rz == xs[j].rz && xs[i].n == xs[j].n && xs[i].limit == xs[j].limit
  {
    hide IsRun, SoundStates, Allowed, After, Fresh, Touches;
    RunLength(xs, vs);
    if i < j {
      Stays(xs, vs, i, j - 1);
      RunStep(xs, vs, j - 1);
      StateSound(xs, vs, j - 1);
      ChunkKept(xs[j - 1], vs[j - 1]);
    }
  }

  /** The chunk whose state a move changes. */
  ghost predicate Touches(x: Snapshot, v: Move, a: nat)
    requires Allowed(x, v)
  {
    match v
    case Hand(from, _, _) => a == ListAt(x.lists, from)[0]
    case Free(chunk, _) => a == chunk
    case Evict => a == ListAt(x.lists, GlobalQuarantine)[0]
    case _ => false
  }

  lemma {:induction false} ChunkKept(x: Snapshot, v: Move)
    requires x in SoundStates() && Allowed(x, v)
    ensures forall a :: a in x.chunks ==> a in After(x, v).chunks && After(x, v).chunks[a].sizeClass == x.chunks[a].sizeClass
    ensures forall a :: a in x.chunks && !Touches(x, v, a) ==> After(x, v).chunks[a] == x.chunks[a]
    ensures After(x, v).rz == x.rz && After(x, v).n == x.n && After(x, v).limit == x.limit
  {
    hide SoundStates, Mappable, Painted, Repainted, Carved, HandedOut, FreedTo, Evicted, Shifted, Stocked, Surrendered, PagesShadow;
    if v.Carve? {
      PagesPainted(x, v.mem, v.sizeClass);
      CarveSound(x, PagesShadow(x, v.mem, v.sizeClass), v.mem, v.sizeClass);
      CarvedKeeps(x, v);
    } else {
      OthersKept(x, v);
    }
  }

  lemma {:induction false} CarvedKeeps(x: Snapshot, v: Move)
    requires Allowed(x, v) && v.Carve?
    ensures After(x, v).chunks == Carved(x, v.mem, v.sizeClass, PagesShadow(x, v.mem, v.sizeClass)).chunks
    ensures After(x, v).rz == x.rz && After(x, v).n == x.n && After(x, v).limit == x.limit
  {
    hide Mappable, PagesShadow, NewChunks, RowOf, GroupOf, MapBytes;
  }

  lemma {:induction false} OthersKept(x: Snapshot, v: Move)
    requires Allowed(x, v) && !v.Carve?
    ensures forall a :: a in x.chunks ==> a in After(x, v).chunks && After(x, v).chunks[a].sizeClass == x.chunks[a].sizeClass
    ensures forall a :: a in x.chunks && !Touches(x, v, a) ==> After(x, v).chunks[a] == x.chunks[a]
    ensures After(x, v).rz == x.rz && After(x, v).n == x.n && After(x, v).limit == x.limit
  {
    hide Painted, Repainted, HandShadow, FreeShadow, EvictShadow, NewMemaligns, FreedMemaligns, PlacedLog, Beg, RoundUp, Needed, Mappable, Carved, MapBytes;
    hide ChunkSize, SizeAt, Popped, PushedFront, PushedBack, Appended, Relabelled;
  }

  /** The chunk a move hands out was available, and the one it evicts was quarantined. */
  lemma {:induction false} MovedFrom(x: Snapshot, v: Move)
    requires x in SoundStates() && Allowed(x, v)
    ensures v.Hand? ==> x.chunks[ListAt(x.lists, v.from)[0]].state.Available?
    ensures v.Evict? ==> x.chunks[ListAt(x.lists, GlobalQuarantine)[0]].state.Quarantine?
    ensures v.Free? ==> x.chunks[v.chunk].state.Allocated?
  {
    hide QueuesOk, ChunksOk, GroupsOk, Housed, MemalignsOk, ShadowOk, Mappable, Painted, Repainted;
    if v.Hand? {
      FrontAvailable(x.chunks, x.lists, x.where, v.from);
    } else if v.Evict? {
      FrontAvailable(x.chunks, x.lists, x.where, GlobalQuarantine);
    }
  }

  /** What the user holds stays as it is until he frees it. */
  lemma {:induction false} HeldUntilFreed(xs: seq<Snapshot>, vs: seq<Move>, i: nat, j: nat, a: nat)
    requires IsRun(xs, vs) && i <= j <= |vs| && a in xs[i].chunks && xs[i].chunks[a].state.Allocated?
    requires forall k {:trigger vs[k]} :: i <= k < j ==> !(vs[k].Free? && vs[k].chunk == a)
    ensures a in xs[j].chunks && xs[j].chunks[a] == xs[i].chunks[a]
  {
    hide IsRun, SoundStates, Allowed, After, Fresh;
    RunLength(xs, vs);
    if i < j {
      HeldUntilFreed(xs, vs, i, j - 1, a);
      RunStep(xs, vs, j - 1);
      StateSound(xs, vs, j - 1);
      ChunkKept(xs[j - 1], vs[j - 1]);
      MovedFrom(xs[j - 1], vs[j - 1]);
    }
  }

  // ----- The quarantines are queues

  /** The chunks that a move puts at the end of quarantine p. */
  ghost function Joining(x: Snapshot, v: Move, p: Place): seq<nat>
  {
    if v.Free? && v.to == p then [v.chunk]
    else if v.Surrender? && p.GlobalQuarantine? then ListAt(x.lists, v.from)
    else []
  }

  /** The chunks that a move takes from the front of quarantine p. */
  ghost function Leaving(x: Snapshot, v: Move, p: Place): seq<nat>
  {
    if v.Surrender? && v.from == p then ListAt(x.lists, p)
    else if v.Evict? && p.GlobalQuarantine? && ListAt(x.lists, p) != [] then [ListAt(x.lists, p)[0]]
    else []
  }

  ghost function Joiners(xs: seq<Snapshot>, vs: seq<Move>, p: Place, k: nat): seq<nat>
    requires k <= |vs| < |xs|
  {
    if k == 0 then [] else Joiners(xs, vs, p, k - 1) + Joining(xs[k - 1], vs[k - 1], p)
  }

  ghost function Leavers(xs: seq<Snapshot>, vs: seq<Move>, p: Place, k: nat): seq<nat>
    requires k <= |vs| < |xs|
  {
    if k == 0 then [] else Leavers(xs, vs, p, k - 1) + Leaving(xs[k - 1], vs[k - 1], p)
  }

  /** First in, first out, over any run: what has left a quarantine and then what is in it is what has
      joined it, in order. */
  lemma {:induction false} FirstInFirstOut(xs: seq<Snapshot>, vs: seq<Move>, p: Place, k: nat)
    requires IsRun(xs, vs) && k <= |vs| && (p.ThreadQuarantine? || p.GlobalQuarantine?)
    ensures Leavers(xs, vs, p, k) + ListAt(xs[k].lists, p) == Joiners(xs, vs, p, k)
  {
    hide IsRun, Allowed, After, Joining, Leaving, ListAt, Fresh;
    RunLength(xs, vs);
    if k == 0 {
      FreshLists(xs[0], p);
    } else {
      FirstInFirstOut(xs, vs, p, k - 1);
      RunStep(xs, vs, k - 1);
      var x, v := xs[k - 1], vs[k - 1];
      QueueStep(x, v, p);
      Queued(Leavers(xs, vs, p, k - 1), ListAt(x.lists, p), Joiners(xs, vs, p, k - 1), Leaving(x, v, p), ListAt(xs[k].lists, p),
        Joining(x, v, p));
    }
  }

  lemma {:induction false} FreshLists(x: Snapshot, p: Place)
    requires Fresh(x)
    ensures ListAt(x.lists, p) == []
  {
  }

  lemma {:induction false} Queued(out: seq<nat>, q: seq<nat>, joined: seq<nat>, leaving: seq<nat>, q': seq<nat>,
      joining: seq<nat>)
    requires out + q == joined && leaving + q' == q + joining
    ensures out + leaving + q' == joined + joining
  {
    assert out + leaving + q' == out + (leaving + q');
    assert out + q + joining == out + (q + joining);
  }

  lemma {:induction false} QueueStep(x: Snapshot, v: Move, p: Place)
    requires Allowed(x, v) && (p.ThreadQuarantine? || p.GlobalQuarantine?)
    ensures Leaving(x, v, p) + ListAt(After(x, v).lists, p) == ListAt(x.lists, p) + Joining(x, v, p)
  {
    hide Mappable, Painted, Repainted, HandShadow, FreeShadow, EvictShadow, NewMemaligns, FreedMemaligns, NewChunk, Needed, Beg, RoundUp, ChunkSize, AllAt;
    hide Relabelled, Carved, Shifted, Stocked, HandedOut;
    var q, q' := ListAt(x.lists, p), ListAt(After(x, v).lists, p);
    if v.Evict? && p.GlobalQuarantine? {
      assert [q[0]] + q[1..] == q && q' == q[1..];
    } else if v.Carve? || v.Shift? || v.Stock? || v.Hand? {
      QueuesStill(x, v, p);
    }
  }

  lemma {:induction false} QueuesStill(x: Snapshot, v: Move, p: Place)
    requires Allowed(x, v) && (p.ThreadQuarantine? || p.GlobalQuarantine?)
    requires v.Carve? || v.Shift? || v.Stock? || v.Hand?
    ensures ListAt(After(x, v).lists, p) == ListAt(x.lists, p)
  {
    hide Mappable, Painted, Repainted, HandShadow, FreeShadow, EvictShadow, NewMemaligns, FreedMemaligns, NewChunk, Needed, Beg, RoundUp, ChunkSize, AllAt;
    hide Relabelled, FreedTo, Evicted, Surrendered;
  }

  /** A chunk does not come out of quarantine except as the oldest of the global one, and while that
      holds more bytes than quarantine_size. */
  lemma {:induction false} EvictedFirst(xs: seq<Snapshot>, vs: seq<Move>, i: nat, j: nat, a: nat) returns (k: nat)
    requires IsRun(xs, vs) && i <= j <= |vs| && a in xs[i].chunks && xs[i].chunks[a].state.Quarantine?
    requires a in xs[j].chunks && !xs[j].chunks[a].state.Quarantine?
    ensures i <= k < j && vs[k].Evict?
    ensures var q := ListAt(xs[k].lists, GlobalQuarantine);
      && q != [] && q[0] == a
      && (forall n :: 0 <= n < |q| ==> q[n] in xs[k].chunks) && Total(xs[k].chunks, q) > xs[i].limit
  {
    hide IsRun, SoundStates, Allowed, After, Fresh;
    RunLength(xs, vs);
    Stays(xs, vs, i, j - 1);
    if xs[j - 1].chunks[a].state.Quarantine? {
      k := j - 1;
      RunStep(xs, vs, k);
      StateSound(xs, vs, k);
      ChunkKept(xs[k], vs[k]);
      MovedFrom(xs[k], vs[k]);
      EvictionDue(xs[k], vs[k]);
    } else {
      k := EvictedFirst(xs, vs, i, j - 1, a);
    }
  }

  lemma {:induction false} EvictionDue(x: Snapshot, v: Move)
    requires x in SoundStates() && Allowed(x, v) && v.Evict?
    ensures var q := ListAt(x.lists, GlobalQuarantine);
      q != [] && (forall n :: 0 <= n < |q| ==> q[n] in x.chunks) && Total(x.chunks, q) > x.limit
  {
    hide Conserved, ChunksOk, GroupsOk, Housed, MemalignsOk, ShadowOk, Painted;
    assert Counted(x.chunks, ListAt(x.lists, GlobalQuarantine), SizeAt(x.sizes, GlobalQuarantine));
  }

  // ----- What Deallocate() makes of a pointer

  /** Misplaced: the chunk found is in use, but not by this pointer. */
  datatype FreeResult = Freed | NullFree | DoubleFree | NotMalloced | Misplaced

  /** The tests of Deallocate() for the chunk that PtrToChunk() finds.  stray is what the byte it reads as a
      chunk_state says where no header is known to be. */
  function Outcome(ptr: nat, m: Option<nat>, chunks: Chunks, stray: ChunkState): FreeResult
  {
    if ptr == 0 then NullFree
    else
      var known := m.Some? && m.value in chunks;
      match if known then chunks[m.value].state else stray
      case Quarantine => DoubleFree
      case Available => NotMalloced
      case Allocated => if known && Beg(m.value, chunks[m.value].alignLog) == ptr then Freed else Misplaced
  }

  function OutcomeIn(x: Snapshot, ptr: nat, stray: ChunkState): FreeResult
  {
    Outcome(ptr, PtrToChunk(x.rz, x.chunks, x.memaligns, ptr), x.chunks, stray)
  }

  /** Freeing ptr is reported as a double free, whatever the stray byte is. */
  ghost predicate SurelyDouble(x: Snapshot, ptr: nat)
  {
    forall stray :: OutcomeIn(x, ptr, stray) == DoubleFree
  }

  /** Whatever run led there: the pointer that Allocate() returned is accepted until it is freed. */
  lemma {:induction false} PointerRoundTrip(xs: seq<Snapshot>, vs: seq<Move>, i: nat, m: nat, stray: ChunkState)
    requires IsRun(xs, vs) && i <= |vs| && m in xs[i].chunks && xs[i].chunks[m].state.Allocated?
    ensures PtrToChunk(xs[i].rz, xs[i].chunks, xs[i].memaligns, Beg(m, xs[i].chunks[m].alignLog)) == Some(m)
    ensures OutcomeIn(xs[i], Beg(m, xs[i].chunks[m].alignLog), stray) == Freed
  {
    StateSound(xs, vs, i);
    hide IsRun;
    HeaderOfLive(xs[i].rz, xs[i].chunks, xs[i].memaligns, m);
    assert ChunkOk(xs[i].rz, m, xs[i].chunks[m]);
  }

  /** While the chunk is quarantined, freeing its pointer again is surely a double free if and only if the
      user's memory did not start two redzones behind the chunk's start. */
  lemma {:induction false} RepeatedFree(xs: seq<Snapshot>, vs: seq<Move>, i: nat, m: nat)
    requires IsRun(xs, vs) && i <= |vs| && m in xs[i].chunks && xs[i].chunks[m].state.Quarantine?
    ensures var ptr := Beg(m, xs[i].chunks[m].alignLog);
      SurelyDouble(xs[i], ptr) <==> ptr != m + 2 * Pow2(xs[i].rz)
  {
    StateSound(xs, vs, i);
    FreedAgain(xs[i], m);
  }

  lemma {:induction false} FreedAgain(x: Snapshot, m: nat)
    requires x in SoundStates() && m in x.chunks && x.chunks[m].state.Quarantine?
    ensures var ptr := Beg(m, x.chunks[m].alignLog);
      SurelyDouble(x, ptr) <==> ptr != m + 2 * Pow2(x.rz)
  {
    FreedPointer(x, m);
    hide SoundStates, Beg;
    assert OutcomeIn(x, Beg(m, x.chunks[m].alignLog), Available) != DoubleFree
      || PtrToChunk(x.rz, x.chunks, x.memaligns, Beg(m, x.chunks[m].alignLog)).Some?;
  }

  lemma {:induction false} FreedPointer(x: Snapshot, m: nat)
    requires x in SoundStates() && m in x.chunks && x.chunks[m].state.Quarantine?
    ensures Beg(m, x.chunks[m].alignLog) > 0
    ensures PtrToChunk(x.rz, x.chunks, x.memaligns, Beg(m, x.chunks[m].alignLog)) ==
      if Beg(m, x.chunks[m].alignLog) == m + 2 * Pow2(x.rz) then None else Some(m)
  {
    hide Conserved, QueuesOk, GroupsOk, Housed, ShadowOk;
    HeaderOfFreed(x.rz, x.chunks, x.memaligns, m);
    assert ChunkOk(x.rz, m, x.chunks[m]);
  }

  /** That is the place exactly for a larger alignment that it has. */
  lemma {:induction false} TwoRedzones(m: nat, rz: nat, al: nat)
    requires IsAligned(m, rz)
    ensures Placed(m, rz, al) == m + 2 * Pow2(rz) <==> al > rz && IsAligned(m + 2 * Pow2(rz), al)
  {
    BegIsPlaced(m, rz, al);
    if al > rz && IsAligned(m + 2 * Pow2(rz), al) {
      if IsAligned(m + Pow2(rz), al) {
        AlignedSum(m + 2 * Pow2(rz), m + Pow2(rz), al);
        Pow2Mono(rz, al);
        SplitSmall(Pow2(rz), al);
      } else {
        var p := RoundUp(m + Pow2(rz), al);
        RoundUpLeast(m + Pow2(rz), al);
        AlignedCoarser(p, rz, al - rz);
        AlignedPower(rz, rz);
        AlignedSum(m, Pow2(rz), rz);
        AlignedStep(m + Pow2(rz), p, rz);
      }
    }
  }

  /** Chunk m is handed out, for an alignment of 1 << al. */
  ghost predicate Hands(x: Snapshot, v: Move, y: Snapshot, m: nat, al: nat, size: nat)
  {
    Allowed(x, v) && y == After(x, v) && v.Hand? && v.al == al && v.size == size && ListAt(x.lists, v.from)[0] == m
  }

  /** And then freed. */
  ghost predicate HandedAndFreed(x: Snapshot, v: Move, y: Snapshot, w: Move, z: Snapshot, m: nat, al: nat)
  {
    Hands(x, v, y, m, al, if v.Hand? then v.size else 0) && w.Free? && w.chunk == m && Allowed(y, w) && z == After(y, w)
  }

  /** In terms of the request: a second free is surely a double free exactly if not so.  With redzones of up to
      1024 bytes the address of the chunk does not matter: it fails exactly for twice the redzone. */
  lemma {:induction false} SecondFree(x: Snapshot, v: Move, y: Snapshot, w: Move, z: Snapshot, m: nat, al: nat)
    requires x in SoundStates() && HandedAndFreed(x, v, y, w, z, m, al)
    ensures SurelyDouble(z, Placed(m, x.rz, al)) <==> !(al > x.rz && IsAligned(m + 2 * Pow2(x.rz), al))
    ensures x.rz <= 10 ==> (SurelyDouble(z, Placed(m, x.rz, al)) <==> al != x.rz + 1)
  {
    hide SoundStates, SurelyDouble, Beg, Placed, IsAligned, HandedAndFreed, ChunkOk, Needed, Pow2;
    SecondFreeAny(x, v, y, w, z, m, al);
    if x.rz <= 10 {
      SecondFreePlace(x, v, y, w, z, m, al);
      TwiceRedzone(x.rz, m, x.chunks[m], al, v.size);
    }
  }

  lemma {:induction false} SecondFreeAny(x: Snapshot, v: Move, y: Snapshot, w: Move, z: Snapshot, m: nat, al: nat)
    requires x in SoundStates() && HandedAndFreed(x, v, y, w, z, m, al)
    ensures SurelyDouble(z, Placed(m, x.rz, al)) <==> (Placed(m, x.rz, al) != m + 2 * Pow2(x.rz))
    ensures SurelyDouble(z, Placed(m, x.rz, al)) <==> !(al > x.rz && IsAligned(m + 2 * Pow2(x.rz), al))
  {
    hide SoundStates, SurelyDouble, Beg, Placed, IsAligned, HandedAndFreed, ChunkOk, Needed, Pow2;
    SecondFreePlace(x, v, y, w, z, m, al);
    FreedAgain(z, m);
    TwoRedzones(m, x.rz, al);
  }

  lemma {:induction false} SecondFreePlace(x: Snapshot, v: Move, y: Snapshot, w: Move, z: Snapshot, m: nat, al: nat)
    requires x in SoundStates() && HandedAndFreed(x, v, y, w, z, m, al)
    ensures z in SoundStates() && m in x.chunks && m in z.chunks && z.chunks[m].state.Quarantine? && z.rz == x.rz
    ensures Beg(m, z.chunks[m].alignLog) == Placed(m, x.rz, al) && IsAligned(m, x.rz)
    ensures ChunkOk(x.rz, m, x.chunks[m]) && v.Hand? && Needed(x.rz, al, v.size) <= ChunkSize(x.chunks[m])
  {
    hide Conserved, QueuesOk, GroupsOk, Housed, ShadowOk, MemalignsOk, Painted, Repainted, RoundUp, Beg, Placed, PlacedLog;
    MoveSound(x, v);
    MoveSound(y, w);
    ChunkAt(x.rz, x.chunks, m);
    BegIsPlaced(m, x.rz, al);
  }

  /** Chunks that take the alignment are themselves aligned to at least four redzones, or to pages. */
  lemma {:induction false} TwiceRedzone(rz: nat, m: nat, c: Chunk, al: nat, size: nat)
    requires rz <= 10 && ChunkOk(rz, m, c) && Needed(rz, al, size) <= ChunkSize(c)
    ensures al > rz && IsAligned(m + 2 * Pow2(rz), al) <==> al == rz + 1
  {
    hide IsAligned, RoundUp;
    if al > rz {
      LargeClass(rz, c.sizeClass, al);
      AlignedPower(rz + 1, rz + 1);
      if al == rz + 1 {
        AlignedCoarser(m, rz + 1, Grain(c.sizeClass) - (rz + 1));
        AlignedSum(m, 2 * Pow2(rz), rz + 1);
      } else if IsAligned(m + 2 * Pow2(rz), al) {
        AlignedCoarser(m, rz + 2, Grain(c.sizeClass) - (rz + 2));
        AlignedCoarser(m + 2 * Pow2(rz), rz + 2, al - (rz + 2));
        AlignedSum(m + 2 * Pow2(rz), m, rz + 2);
        HalfStep(rz + 1);
      }
    }
  }

  lemma {:induction false} HalfStep(k: nat)
    ensures !IsAligned(Pow2(k), k + 1)
  {
    SplitSmall(Pow2(k), k + 1);
  }

  lemma {:induction false} LargeClass(rz: nat, sizeClass: nat, al: nat)
    requires rz <= 10 && rz < al && Pow2(al) < SizeClassToSize(sizeClass)
    ensures Grain(sizeClass) >= if al == rz + 1 then rz + 1 else rz + 2
  {
    if sizeClass <= al && sizeClass <= STEP_LOG { Pow2Mono(sizeClass, al); }
  }

  /** A misplaced free is not noticed, and the shadow is wrong after it: Deallocate() paints where the pointer
      is, not where the user's memory is. */
  lemma {:induction false} FreeExactly(x: Snapshot, m: nat, ptr: nat, s': seq<Byte>)
    requires x in SoundStates() && m in x.chunks && x.chunks[m].state.Allocated?
    requires PtrToChunk(x.rz, x.chunks, x.memaligns, ptr) == Some(m)
    requires Painted(x.shadow, s', ptr, RoundUp(x.chunks[m].used, x.rz), HEAP_FREE)
    ensures ShadowOk(s', x.chunks[m := x.chunks[m].(state := Quarantine)], x.groups) <==> ptr == Beg(m, x.chunks[m].alignLog)
  {
    var c := x.chunks[m];
    var beg, rounded := Beg(m, c.alignLog), RoundUp(c.used, x.rz);
    if ptr == beg {
      FreedShadow(x, m, s');
    } else {
      FoundInChunks(x.rz, x.chunks, x.memaligns, ptr);
      MissedByte(x, m, ptr, s', if ptr > beg then beg else beg + c.used - 1);
    }
  }

  lemma {:induction false} FreedShadow(x: Snapshot, a: nat, s': seq<Byte>)
    requires x in SoundStates() && a in x.chunks && x.chunks[a].state.Allocated?
    requires Painted(x.shadow, s', Beg(a, x.chunks[a].alignLog), RoundUp(x.chunks[a].used, x.rz), HEAP_FREE)
    ensures ShadowOk(s', x.chunks[a := x.chunks[a].(state := Quarantine)], x.groups)
  {
    hide Painted;
    FreeSound(x, a, GlobalQuarantine, s');
  }

  /** A byte of the chunk that stays unpoisoned. */
  lemma {:induction false} MissedByte(x: Snapshot, m: nat, ptr: nat, s': seq<Byte>, b: nat)
    requires x in SoundStates() && m in x.chunks && x.chunks[m].state.Allocated? && IsAligned(ptr, x.rz)
    requires Painted(x.shadow, s', ptr, RoundUp(x.chunks[m].used, x.rz), HEAP_FREE)
    requires ptr != Beg(m, x.chunks[m].alignLog)
    requires b == if ptr > Beg(m, x.chunks[m].alignLog) then Beg(m, x.chunks[m].alignLog)
      else Beg(m, x.chunks[m].alignLog) + x.chunks[m].used - 1
    ensures !ShadowOk(s', x.chunks[m := x.chunks[m].(state := Quarantine)], x.groups)
  {
    var c := x.chunks[m];
    var c' := c.(state := Quarantine);
    var beg, rounded := Beg(m, c.alignLog), RoundUp(c.used, x.rz);
    ChunkAt(x.rz, x.chunks, m);
    assert Live(m, c, b);
    RoundUpLeast(c.used, x.rz);
    if ptr < beg { AlignedStep(ptr, beg, x.rz); }
    LiveInside(x.rz, m, c, b);
    assert Home(x.groups, m, c);
    HomeMapped(x.groups, m, c, b);
    assert InMem(x.shadow, b) && !Poisoned(x.shadow, b);
    assert !Poisoned(s', b);
    ChangeAddressable(x.rz, x.chunks, m, c', b);
  }

  /** How a misplaced pointer gets by: a header left by an earlier memalign() in the chunk still leads to it
      when the chunk is handed out again, exactly if it is not in the new user's memory.  The old pointer is
      then taken for one of the new user. */
  lemma {:induction false} StaleHeader(x: Snapshot, v: Move, y: Snapshot, m: nat, al: nat, size: nat, q: nat)
    requires x in SoundStates() && Hands(x, v, y, m, al, size)
    requires q in x.memaligns && x.memaligns[q] == q - m && q != Placed(m, x.rz, al) - Pow2(x.rz)
    ensures PtrToChunk(y.rz, y.chunks, y.memaligns, q + Pow2(x.rz)) ==
      if Placed(m, x.rz, al) <= q < Placed(m, x.rz, al) + RoundUp(size, x.rz) then None else Some(m)
  {
    hide SoundStates, Hands, Placed, RoundUp, NewMemaligns, Beg, Pow2, InChunk, PtrToChunk;
    HandedParts(x, v, y, m, al, size);
    HeaderInside(x, q);
    assert q !in y.chunks;
    KeptHeader(x.rz, m, al, size, x.memaligns, q);
    ThroughHeader(y.rz, y.chunks, y.memaligns, q);
  }

  lemma {:induction false} ThroughHeader(rz: nat, chunks: Chunks, memaligns: Memaligns, q: nat)
    requires q !in chunks
    ensures PtrToChunk(rz, chunks, memaligns, q + Pow2(rz)) ==
      if q in memaligns && memaligns[q] <= q then Some(q - memaligns[q]) else None
  {
  }

  lemma {:induction false} HandedParts(x: Snapshot, v: Move, y: Snapshot, m: nat, al: nat, size: nat)
    requires x in SoundStates() && Hands(x, v, y, m, al, size)
    ensures m in x.chunks && y.rz == x.rz && y.chunks.Keys == x.chunks.Keys
    ensures y.chunks[m].state.Allocated? && Beg(m, y.chunks[m].alignLog) == Placed(m, x.rz, al) >= m + Pow2(x.rz)
    ensures y.memaligns == NewMemaligns(x.rz, m, al, size, x.memaligns)
  {
    hide Conserved, QueuesOk, GroupsOk, Housed, ShadowOk, MemalignsOk, Repainted, RoundUp, NewMemaligns, Beg, Placed, PlacedLog;
    ChunkAt(x.rz, x.chunks, m);
    BegIsPlaced(m, x.rz, al);
  }

  lemma {:induction false} HeaderInside(x: Snapshot, q: nat)
    requires x in SoundStates() && q in x.memaligns
    ensures q !in x.chunks && 0 < x.memaligns[q] <= q
  {
    assert InChunk(x.rz, x.chunks, q, x.memaligns[q]);
    MemalignInside(x.rz, x.chunks, x.memaligns, q);
  }

  lemma {:induction false} KeptHeader(rz: nat, m: nat, al: nat, size: nat, memaligns: Memaligns, q: nat)
    requires q in memaligns && q != Placed(m, rz, al) - Pow2(rz)
    ensures var memaligns' := NewMemaligns(rz, m, al, size, memaligns);
      && (q in memaligns' <==> !(Placed(m, rz, al) <= q < Placed(m, rz, al) + RoundUp(size, rz)))
      && (q in memaligns' ==> memaligns'[q] == memaligns[q])
  {
    hide Placed, RoundUp;
  }

  /** What comes of it. */
  lemma {:induction false} StaleAccepted(x: Snapshot, v: Move, y: Snapshot, m: nat, al: nat, size: nat, q: nat, stray: ChunkState)
    requires x in SoundStates() && Hands(x, v, y, m, al, size)
    requires q in x.memaligns && x.memaligns[q] == q - m && q != Placed(m, x.rz, al) - Pow2(x.rz)
    requires !(Placed(m, x.rz, al) <= q < Placed(m, x.rz, al) + RoundUp(size, x.rz))
    ensures OutcomeIn(y, q + Pow2(x.rz), stray) == Misplaced
  {
    hide SoundStates, Hands, Placed, RoundUp, Beg, PtrToChunk;
    HandedParts(x, v, y, m, al, size);
    StaleHeader(x, v, y, m, al, size, q);
  }
}
