/** SizeClassAllocator64 and its per-thread caches, from lib/sanitizer_common/sanitizer_allocator64.h.

An operation on a region holds the region's lock, and a cache belongs to its thread: a method here is
one step, any thread may take the next.  When PopulateFreeList() runs out of space the process dies;
the methods then return false, and promise nothing. */
module SizeClassAllocator {
  import opened Bits
  import opened Partition
  import opened SizeClassMap
  import opened SizeClassState
  import opened SizeClassRuns

  const POPULATE_SIZE := 0x4_0000

  /** How many chunks PopulateFreeList() makes: kPopulateSize bytes of them, and at least one. */
  function Batch(c: nat): nat
    requires Size(c) > 0
  {
    (POPULATE_SIZE + Size(c) - 1) / Size(c)
  }

  /** The loop stops when kPopulateSize bytes are reached, and not before. */
  lemma {:induction false} BatchReached(c: nat, i: nat)
    requires Size(c) > 0 && i > 0 && (i == 1 || (i - 1) * Size(c) < POPULATE_SIZE) && i * Size(c) >= POPULATE_SIZE
    ensures i == Batch(c)
  {
    hide Size;
    var size := Size(c);
    Distrib(i - 1, 1, size);
    if i == 1 {
      DivModUnique(POPULATE_SIZE + size - 1, size, 1, POPULATE_SIZE - 1);
    } else {
      DivModUnique(POPULATE_SIZE + size - 1, size, i, POPULATE_SIZE + size - 1 - i * size);
    }
  }

  /** A region with no room for one batch more, metadata included. */
  predicate Exhausted(cfg: Config, user: seq<nat>, meta: seq<nat>, c: nat)
    requires |user| == |meta| == NUM_CLASSES && c < NUM_CLASSES && Size(c) > 0
  {
    user[c] + Batch(c) * Size(c) + (meta[c] + Batch(c) * cfg.meta) >= cfg.RegionSize()
  }

  /** What i turns of the loop have made. */
  ghost predicate Turned(cfg: Config, c: nat, beg_idx: nat, i: nat, idx: nat, order: seq<nat>, made: Places)
  {
    && idx == beg_idx + i * Size(c) && order == Row(cfg.RegionBeg(c) + beg_idx, Size(c), i)
    && Multiple(idx, c) && (Size(c) > 0 ==> idx / Size(c) == beg_idx / Size(c) + i)
    && Made(cfg, made, c, beg_idx, idx)
    && NoDuplicates(order) && forall p: nat :: p in order <==> p in made
  }

  lemma {:induction false} FirstTurn(cfg: Config, c: nat, beg_idx: nat)
    requires c < NUM_CLASSES && Multiple(beg_idx, c)
    ensures Turned(cfg, c, beg_idx, 0, beg_idx, [], map[])
  {
    hide Multiple, Made, Config.RegionBeg;
    MulComm(0, Size(c));
    MadeNone(cfg, c, beg_idx);
    RowNone(cfg.RegionBeg(c) + beg_idx, Size(c));
  }

  lemma {:induction false} OneTurn(cfg: Config, c: nat, beg_idx: nat, i: nat, idx: nat, order: seq<nat>, made: Places)
    requires c < NUM_CLASSES && Size(c) > 0 && Turned(cfg, c, beg_idx, i, idx, order, made)
    ensures var p := cfg.RegionBeg(c) + idx;
      Turned(cfg, c, beg_idx, i + 1, idx + Size(c), [p] + order, made[p := Region(c)])
  {
    hide Size, Multiple, Made, Config.RegionBeg, Row;
    var p := cfg.RegionBeg(c) + idx;
    MadeMore(cfg, made, c, beg_idx, idx);
    NextMultiple(idx, c);
    Distrib(i, 1, Size(c));
    RowMore(cfg.RegionBeg(c) + beg_idx, Size(c), i);
    Joined([p], order);
  }

  /** The do-while loop of PopulateFreeList(): at least one chunk, the last one in front. */
  method Carve(cfg: Config, c: nat, beg_idx: nat) returns (idx: nat, i: nat, order: seq<nat>, made: Places)
    requires c < NUM_CLASSES && Multiple(beg_idx, c)
    ensures Size(c) > 0 && i == Batch(c) > 0 && idx > beg_idx && Turned(cfg, c, beg_idx, i, idx, order, made) && order != []
  {
    hide Size, Multiple, Made, Config.RegionBeg, Batch, Row, Turned;
    ClassSizes(c);
    var end_idx := beg_idx + POPULATE_SIZE;
    idx, i, order, made := beg_idx, 0, [], map[];
    MulComm(0, Size(c));
    FirstTurn(cfg, c, beg_idx);
    while i == 0 || idx < end_idx
      invariant idx == beg_idx + i * Size(c) && (i > 0 ==> idx > beg_idx && order != [])
      invariant (i <= 1 || (i - 1) * Size(c) < POPULATE_SIZE) && Turned(cfg, c, beg_idx, i, idx, order, made)
      decreases if i == 0 then 1 else 0, end_idx - idx
    {
      var p := cfg.RegionBeg(c) + idx;
      OneTurn(cfg, c, beg_idx, i, idx, order, made);
      Distrib(i, 1, Size(c));
      order := [p] + order;
      made := made[p := Region(c)];
      idx := idx + Size(c);
      i := i + 1;
    }
    BatchReached(c, i);
  }

  lemma {:induction false} RowNone(mem: nat, size: nat)
    ensures Row(mem, size, 0) == []
  {
  }

  lemma {:induction false} FilledList(lists: Lists, p: Place, order: seq<nat>)
    ensures ListAt(lists[p := order], p) == order && SameBut(lists, lists[p := order], {p})
  {
  }

  ghost predicate SameBut(lists: Lists, lists': Lists, but: set<Place>)
  {
    forall p: Place :: p !in but ==> ListAt(lists', p) == ListAt(lists, p)
  }

  /** The chunks that were there are where they were, and the new ones are not in use. */
  ghost predicate OnlyAdded(where: Places, where': Places)
  {
    && (forall p :: p in where ==> p in where' && where'[p] == where[p])
    && (forall p :: p in where' && where'[p] == InUse ==> p in where)
  }

  /** Chunks have moved between the lists; those in use have not. */
  ghost predicate UseKept(where: Places, where': Places)
  {
    && (forall p :: p in where ==> p in where' && (where'[p] == InUse <==> where[p] == InUse))
    && (forall p :: p in where' && where'[p] == InUse ==> p in where)
  }

  lemma {:induction false} PopulatedRegion(cfg: Config, lists: Lists, where: Places, user: seq<nat>, meta: seq<nat>,
      c: nat, hi: nat, i: nat)
    requires Owned(cfg, lists, where, user, meta) && c < NUM_CLASSES && Multiple(hi, c) && hi > user[c]
    requires Size(c) > 0 && hi / Size(c) == user[c] / Size(c) + i && hi + (meta[c] + i * cfg.meta) < cfg.RegionSize()
    ensures RegionOk(cfg, c, hi, meta[c] + i * cfg.meta)
  {
    hide Size, Config.RegionSize, Starts, ClassFits, Partitioned;
    assert RegionOk(cfg, c, user[c], meta[c]);
    Distrib(user[c] / Size(c), i, cfg.meta);
  }

  lemma {:induction false} PopulateAdds(cfg: Config, lists: Lists, where: Places, user: seq<nat>, meta: seq<nat>, made: Places,
      c: nat, hi: nat)
    requires Owned(cfg, lists, where, user, meta) && c < NUM_CLASSES
    requires hi < cfg.RegionSize() && Made(cfg, made, c, user[c], hi)
    ensures OnlyAdded(where, where + made)
  {
    hide Size, Config.RegionSize, RegionOk, ClassFits, Partitioned, Starts, Made, MadeFrom, Multiple;
    PopulateFresh(cfg, where, user, meta, made, c, hi);
    hide Owned, Config.Mine, Config.ClassOf, Config.Offset;
  }

  lemma {:induction false} Shape(cfg: Config, lists: Lists, where: Places, user: seq<nat>, meta: seq<nat>)
    requires Owned(cfg, lists, where, user, meta)
    ensures |user| == |meta| == NUM_CLASSES && cfg.Valid() && ListAt(lists, InUse) == []
    ensures forall c: nat :: c < NUM_CLASSES ==> Multiple(user[c], c)
  {
    forall c: nat | c < NUM_CLASSES ensures Multiple(user[c], c) {
      assert RegionOk(cfg, c, user[c], meta[c]);
    }
  }

  lemma {:induction false} EmptyReached(cfg: Config, user: seq<nat>, meta: seq<nat>)
    requires cfg.Valid() && |user| == |meta| == NUM_CLASSES
    requires forall c: nat :: c < NUM_CLASSES ==> user[c] == 0 == meta[c]
    ensures Reached(Snapshot(cfg, map[], map[], user, meta, map[]))
  {
    hide Reached;
    FreshReached(Snapshot(cfg, map[], map[], user, meta, map[]));
  }

  /** Without a drain the caches are within their bound, and there is no list of one. */
  lemma {:induction false} NoDrains(x: Snapshot)
    requires Reached(x) && x.drains == map[]
    ensures CachesOk(x.lists) && forall t: nat, c: nat :: c < NUM_CLASSES ==> ListAt(x.lists, Half(t, c)) == []
  {
    ReachedSound(x);
    hide Reached, Owned, Bounded, MaxCached;
    forall t: nat, c: nat | c < NUM_CLASSES
      ensures |ListAt(x.lists, Cache(t, c))| < 2 * MaxCached(c) && ListAt(x.lists, Half(t, c)) == []
    {
      CacheAt(x, t, c);
    }
  }

  /** A thread may give this list back to the region: a cache list that is not being drained, or the list of a drain
      that has moved all it has to. */
  predicate Returns(drains: Drains, from: Place)
    requires from.Cache? || from.Half?
  {
    if from.Cache? then (from.thread, from.class_id) !in drains
    else (from.thread, from.class_id) in drains && drains[(from.thread, from.class_id)] == 0
  }

  class Primary {
    const cfg: Config
    var lists: Lists
    var user: seq<nat>  // allocated_user of each region
    var meta: seq<nat>  // allocated_meta
    ghost var where: Places
    ghost var drains: Drains  // the calls of DrainHalf() that have not returned

    ghost function State(): Snapshot
      reads this
    {
      Snapshot(cfg, lists, where, user, meta, drains)
    }

    /** A run leads to this state. */
    ghost predicate Sound()
      reads this
    {
      Reached(State())
    }

    lemma {:induction false} Known()
      requires Sound()
      ensures Owned(cfg, lists, where, user, meta)
    {
      hide Reached, Owned, Bounded;
      ReachedSound(State());
    }

    /** Between calls. */
    ghost predicate Valid()
      reads this
    {
      Sound() && drains == map[] && CachesOk(lists)
    }

    lemma {:induction false} AtRest()
      requires Sound() && drains == map[]
      ensures Valid() && forall t: nat, c: nat :: c < NUM_CLASSES ==> ListAt(lists, Half(t, c)) == []
    {
      hide Reached, CachesOk;
      NoDrains(State());
    }

    constructor (cfg: Config)
      requires cfg.Valid()
      ensures Valid() && this.cfg == cfg && where == map[]
    {
      this.cfg := cfg;
      lists := map[];
      user, meta := seq(NUM_CLASSES, _ => 0), seq(NUM_CLASSES, _ => 0);
      where, drains := map[], map[];
      new;
      hide Reached, CachesOk;
      EmptyReached(cfg, user, meta);
      AtRest();
    }

    /** What the free list of a class holds, or is filled with if it is empty: all chunks of up to 256 KB of fresh memory,
        one at least, the last one first. */
    ghost function Stock(class_id: nat): seq<nat>
      requires Sound() && class_id < NUM_CLASSES
      reads this
    {
      Known();
      Shape(cfg, lists, where, user, meta);
      ClassSizes(class_id);
      if ListAt(lists, Region(class_id)) != [] then ListAt(lists, Region(class_id))
      else Row(cfg.RegionBeg(class_id) + user[class_id], Size(class_id), Batch(class_id))
    }

    method PopulateFreeList(class_id: nat) returns (ok: bool)
      requires Sound() && class_id < NUM_CLASSES && ListAt(lists, Region(class_id)) == []
      modifies this`lists, this`user, this`meta, this`where
      ensures ok ==> Sound() && ListAt(lists, Region(class_id)) != [] && SameBut(old(lists), lists, {Region(class_id)})
      ensures ok ==> OnlyAdded(old(where), where) && ListAt(lists, Region(class_id)) == old(Stock(class_id))
      ensures |old(user)| == |old(meta)| == NUM_CLASSES && Size(class_id) > 0 && (ok <==> !Exhausted(cfg, old(user), old(meta), class_id))
      ensures ok ==> user == old(user)[class_id := old(user)[class_id] + Batch(class_id) * Size(class_id)]
      ensures ok ==> meta == old(meta)[class_id := old(meta)[class_id] + Batch(class_id) * cfg.meta]
    {
      hide Reached, Owned, Batch, Made, Multiple, RegionOk, NoDuplicates, Size, OnlyAdded, SameBut, ListAt, Config.RegionSize, Row;
      Known();
      Shape(cfg, lists, where, user, meta);
      ClassSizes(class_id);
      var idx, i, order, made := Carve(cfg, class_id, user[class_id]);
      var metadata := meta[class_id] + i * cfg.meta;
      if idx + metadata >= cfg.RegionSize() {
        // CHECK_LT(allocated_user + allocated_meta, kRegionSize)
        return false;
      }
      PopulatedRegion(cfg, lists, where, user, meta, class_id, idx, i);
      ghost var x, v := State(), Populate(class_id, made, order, idx, metadata);
      Go(x, v);
      PopulateAdds(cfg, lists, where, user, meta, made, class_id, idx);
      FilledList(lists, Region(class_id), order);
      lists := lists[Region(class_id) := order];
      where := where + made;
      user := user[class_id := idx];
      meta := meta[class_id := metadata];
      assert State() == After(x, v);
      return true;
    }

    /** One node goes from the front of a list to the front of another: from a region to a cache that holds
        less than one transfer brings, or within a cache to the half that is to be drained. */
    method MoveFront(from: Place, to: Place) returns (p: nat)
      requires Sound() && ListAt(lists, from) != []
      requires if from.Region? then
          && to.Cache? && from.class_id == to.class_id && |ListAt(lists, to)| < MaxCached(to.class_id)
          && (to.thread, to.class_id) !in drains
        else
          && from.Cache? && to == Half(from.thread, from.class_id)
          && (from.thread, from.class_id) in drains && drains[(from.thread, from.class_id)] > 0
      modifies this`lists, this`where, this`drains
      ensures Sound() && p == old(ListAt(lists, from))[0] && drains == Moved(old(drains), from)
      ensures lists == PushedFront(Popped(old(lists), from), to, p) && UseKept(old(where), where)
    {
      hide Reached, Owned, Starts, MaxCached, Moved;
      Known();
      FrontOwned(cfg, lists, where, user, meta, from);
      ghost var x, v := State(), Pass(from, to);
      Go(x, v);
      p := ListAt(lists, from)[0];
      lists := PushedFront(Popped(lists, from), to, p);
      where := where[p := to];
      drains := Moved(drains, from);
      assert State() == After(x, v);
    }

    /** `front()` and `pop_front()`: the chunk is handed out. */
    method TakeFront(from: Place) returns (p: nat)
      requires Sound() && ListAt(lists, from) != []
      requires from.Region? || (from.Cache? && (from.thread, from.class_id) !in drains)
      modifies this`lists, this`where
      ensures Sound() && p == old(ListAt(lists, from))[0] && lists == Popped(old(lists), from)
      ensures p in old(where) && old(where)[p] == from && where == old(where)[p := InUse]
      ensures |user| == NUM_CLASSES && cfg.ClassOf(p) == from.class_id && Starts(cfg, user, p)
    {
      hide Reached, Owned, Starts, Config.ClassOf;
      Known();
      Shape(cfg, lists, where, user, meta);
      FrontOwned(cfg, lists, where, user, meta, from);
      ghost var x, v := State(), Take(from);
      Go(x, v);
      p := ListAt(lists, from)[0];
      lists := Popped(lists, from);
      where := where[p := InUse];
      assert State() == After(x, v);
    }

    /** `push_front()` of a chunk that comes back; a cache list that is full now is to be drained. */
    method GiveFront(p: nat, to: Place)
      requires Sound() && p in where && where[p] == InUse
      requires to == Region(cfg.ClassOf(p))
        || (to.Cache? && to.class_id == cfg.ClassOf(p) && (to.thread, to.class_id) !in drains)
      modifies this`lists, this`where, this`drains
      ensures Sound() && lists == PushedFront(old(lists), to, p) && where == old(where)[p := to]
      ensures drains == Due(old(drains), to, |old(ListAt(lists, to))| + 1)
    {
      hide Reached, Config.ClassOf, Due;
      ghost var x, v := State(), Give(p, to);
      Go(x, v);
      drains := Due(drains, to, |ListAt(lists, to)| + 1);
      lists := PushedFront(lists, to, p);
      where := where[p := to];
      assert State() == After(x, v);
    }

    /** `append_front()`: one list goes in front of another, whole: a short region list to an empty cache, or
        back to the region. */
    method AppendFront(from: Place, to: Place)
      requires Sound()
      requires if to.Cache? then
          && from == Region(to.class_id) && ListAt(lists, to) == [] && |ListAt(lists, from)| <= MaxCached(to.class_id)
          && (to.thread, to.class_id) !in drains
        else (from.Cache? || from.Half?) && to == Region(from.class_id) && Returns(drains, from)
      modifies this`lists, this`where, this`drains
      ensures Sound() && lists == Prefixed(old(lists), from, to) && UseKept(old(where), where)
      ensures drains == Done(old(drains), from)
    {
      hide Reached, MaxCached, Done;
      ghost var x, v := State(), Append(from, to);
      Go(x, v);
      lists := Prefixed(lists, from, to);
      where := Relabelled(where, from, to);
      drains := Done(drains, from);
      assert State() == After(x, v);
    }

    // ----- SizeClassAllocator64

    /** Nothing is left in the region, and nothing more can be made. */
    ghost predicate Dry(class_id: nat)
      requires Sound() && class_id < NUM_CLASSES
      reads this
    {
      Known();
      Shape(cfg, lists, where, user, meta);
      ClassSizes(class_id);
      ListAt(lists, Region(class_id)) == [] && Exhausted(cfg, user, meta, class_id)
    }

    /** The cache gets the chunks from the front of the region's list, or that list as it is if it is short. */
    method BulkAllocate(class_id: nat, thread: nat) returns (ok: bool)
      requires Valid() && class_id < NUM_CLASSES && ListAt(lists, Cache(thread, class_id)) == []
      modifies this
      ensures ok ==> Sound() && drains == map[] && UseKept(old(where), where)
      ensures ok ==> SameBut(old(lists), lists, {Region(class_id), Cache(thread, class_id)})
      ensures ok ==> 0 < |ListAt(lists, Cache(thread, class_id))| <= MaxCached(class_id)
      ensures ok ==> Transferred(old(Stock(class_id)), MaxCached(class_id), ListAt(lists, Region(class_id)),
          ListAt(lists, Cache(thread, class_id)))
      ensures ok <==> !old(Dry(class_id))
    {
      hide Reached, Owned, MaxCached, UseKept, OnlyAdded, Exhausted, Batch, Size, Transferred, Row;
      ClassSizes(class_id);
      CachesHold(class_id);
      UseSame(where);
      if ListAt(lists, Region(class_id)) == [] {
        ok := PopulateFreeList(class_id);
        if !ok {
          return;
        }
        AddedUse(old(where), where);
      }
      ghost var mid, stock := where, ListAt(lists, Region(class_id));
      Transfer(class_id, thread);
      UseTwice(old(where), mid, where);
      TransferredAll(stock, MaxCached(class_id), ListAt(lists, Region(class_id)), ListAt(lists, Cache(thread, class_id)));
      return true;
    }

    /** lib/sanitizer_common/sanitizer_allocator64.h:153-163. */
    method Transfer(class_id: nat, thread: nat)
      requires Sound() && class_id < NUM_CLASSES && drains == map[]
      requires ListAt(lists, Cache(thread, class_id)) == [] && ListAt(lists, Region(class_id)) != []
      modifies this`lists, this`where, this`drains
      ensures Sound() && drains == map[] && UseKept(old(where), where)
      ensures SameBut(old(lists), lists, {Region(class_id), Cache(thread, class_id)})
      ensures Transferred(old(ListAt(lists, Region(class_id))), MaxCached(class_id), ListAt(lists, Region(class_id)),
        ListAt(lists, Cache(thread, class_id)))
    {
      hide Reached, Owned, MaxCached, UseKept;
      CachesHold(class_id);
      UseSame(where);
      var region, free_list := Region(class_id), Cache(thread, class_id);
      ghost var stock := ListAt(lists, region);
      var count := MaxCached(class_id);
      if |ListAt(lists, region)| <= count {
        AppendFront(region, free_list);
      } else {
        var i := 0;
        while i < count
          invariant 0 <= i <= count < |stock| && Sound() && drains == map[] && UseKept(old(where), where)
          invariant ListAt(lists, free_list) == Reversed(stock[..i]) && ListAt(lists, region) == stock[i..]
          invariant SameBut(old(lists), lists, {region, free_list})
        {
          ghost var where1 := where;
          ReversedMore(stock, i);
          var node := MoveFront(region, free_list);
          UseTwice(old(where), where1, where);
          i := i + 1;
        }
      }
    }

    method BulkDeallocate(class_id: nat, from: Place)
      requires Sound() && class_id < NUM_CLASSES
      requires (from.Cache? || from.Half?) && from.class_id == class_id && Returns(drains, from)
      modifies this`lists, this`where, this`drains
      ensures Sound() && drains == Done(old(drains), from) && UseKept(old(where), where) && ListAt(lists, from) == []
      ensures ListAt(lists, Region(class_id)) == old(ListAt(lists, from)) + old(ListAt(lists, Region(class_id)))
      ensures SameBut(old(lists), lists, {Region(class_id), from})
    {
      hide Reached, Owned, UseKept;
      AppendFront(from, Region(class_id));
    }

    method Allocate(size: nat) returns (ok: bool, p: nat)
      requires Valid() && 1 <= size <= MAX_SIZE
      modifies this
      ensures ok ==> Valid() && HandedOut(cfg, old(where), where, user, p, ClassID(size))
      ensures ok ==> var stock := old(Stock(ClassID(size)));
        && stock != [] && p == stock[0] && ListAt(lists, Region(ClassID(size))) == stock[1..]
        && SameBut(old(lists), lists, {Region(ClassID(size))})
      ensures ClassID(size) < NUM_CLASSES && (ok <==> !old(Dry(ClassID(size))))
    {
      hide Exhausted, Batch, Row;
      hide Reached, Owned, Starts, Config.ClassOf, OnlyAdded, Size, MaxCached, ClassID;
      LeastClass(size);
      var class_id := ClassID(size);
      ok, p := true, 0;
      if ListAt(lists, Region(class_id)) == [] {
        ok := PopulateFreeList(class_id);
        if !ok {
          return;
        }
      } else {
        OnlyAddedSelf(where);
      }
      ghost var where1 := where;
      p := TakeFront(Region(class_id));
      HandedOutBy(cfg, old(where), where1, where, user, p, Region(class_id));
    }

    method Deallocate(p: nat)
      requires Valid() && p in where && where[p] == InUse
      modifies this`lists, this`where, this`drains
      ensures Valid() && where == old(where)[p := Region(cfg.ClassOf(p))]
      ensures lists == PushedFront(old(lists), Region(cfg.ClassOf(p)), p)
    {
      hide Reached, Owned, MaxCached;
      GiveFront(p, Region(cfg.ClassOf(p)));
    }

    // ----- SizeClassAllocatorLocalCache

    method CacheAllocate(thread: nat, class_id: nat) returns (ok: bool, p: nat)
      requires Valid() && class_id < NUM_CLASSES
      modifies this
      ensures ok ==> Valid() && HandedOut(cfg, old(where), where, user, p, class_id)
      ensures ok ==> CacheTook(old(lists), old(Stock(class_id)), lists, thread, class_id, p)
      ensures ok <==> !(old(ListAt(lists, Cache(thread, class_id))) == [] && old(Dry(class_id)))
    {
      hide Exhausted, Batch, Size, Row, Transferred;
      hide Reached, Owned, Starts, Config.ClassOf, UseKept, MaxCached;
      var free_list := Cache(thread, class_id);
      ok, p := true, 0;
      UseSame(where);
      ghost var stock := Stock(class_id);
      if ListAt(lists, free_list) == [] {
        ok := BulkAllocate(class_id, thread);
        if !ok {
          return;
        }
        TookTransferred(old(lists), lists, stock, thread, class_id);
      } else {
        TookFront(lists, Popped(lists, free_list), stock, thread, class_id);
      }
      ghost var where1 := where;
      p := TakeFront(free_list);
      HandedOutFrom(cfg, old(where), where1, where, user, p, free_list);
    }

    method CacheDeallocate(thread: nat, p: nat)
      requires Valid() && p in where && where[p] == InUse
      modifies this`lists, this`where, this`drains
      ensures Valid() && TakenBack(old(where), where, p)
      ensures CacheGave(old(lists), lists, thread, cfg.ClassOf(p), p)
    {
      hide Reached, Owned, Config.ClassOf, UseKept, MaxCached, TakenBack;
      var class_id := cfg.ClassOf(p);
      ClassInRange(cfg, p);
      CachesHold(class_id);
      AtRest();
      var free_list := Cache(thread, class_id);
      GiveFront(p, free_list);
      ghost var where1 := where;
      UseSame(where);
      ghost var mid := lists;
      if |ListAt(lists, free_list)| >= 2 * MaxCached(class_id) {
        DrainHalf(thread, class_id);
        GaveByDrain(old(lists), mid, lists, thread, class_id, p);
      }
      TakenBackBy(old(where), where1, where, p, free_list);
    }

    /** All caches of a thread go back to the regions. */
    method Drain(thread: nat)
      requires Valid()
      modifies this`lists, this`where, this`drains
      ensures Valid() && UseKept(old(where), where)
      ensures forall c: nat :: c < NUM_CLASSES ==> Emptied(old(lists), lists, thread, c)
      ensures forall p: Place :: !p.Region? && !(p.Cache? && p.thread == thread) ==> ListAt(lists, p) == old(ListAt(lists, p))
    {
      hide Reached, Owned, UseKept, MaxCached, Emptied, Untouched, CachesOk;
      UseSame(where);
      UntouchedSelf(lists, thread);
      var i := 0;
      while i < NUM_CLASSES
        invariant 0 <= i <= NUM_CLASSES && Valid() && UseKept(old(where), where)
        invariant forall c: nat :: c < i ==> Emptied(old(lists), lists, thread, c)
        invariant forall c: nat :: i <= c ==> Untouched(old(lists), lists, thread, c)
        invariant forall p: Place :: !p.Region? && !(p.Cache? && p.thread == thread) ==> ListAt(lists, p) == old(ListAt(lists, p))
      {
        ghost var where1, mid := where, lists;
        CachesHold(i);
        BulkDeallocate(i, Cache(thread, i));
        EmptiedBy(mid, lists, thread, i);
        EmptiedMore(old(lists), mid, lists, thread, i);
        UseTwice(old(where), where1, where);
        AtRest();
        i := i + 1;
      }
    }

    /** The first half of the cache's list goes back to the region, last chunk first. */
    method DrainHalf(thread: nat, class_id: nat)
      requires Sound() && class_id < NUM_CLASSES && ListAt(lists, Half(thread, class_id)) == []
      requires (thread, class_id) in drains && drains[(thread, class_id)] == |ListAt(lists, Cache(thread, class_id))| / 2
      modifies this`lists, this`where, this`drains
      ensures drains == old(drains) - {(thread, class_id)}
      ensures Sound() && UseKept(old(where), where) && ListAt(lists, Half(thread, class_id)) == []
      ensures var cached := old(ListAt(lists, Cache(thread, class_id)));
        && ListAt(lists, Cache(thread, class_id)) == cached[|cached| / 2..]
        && ListAt(lists, Region(class_id)) == Reversed(cached[..|cached| / 2]) + old(ListAt(lists, Region(class_id)))
      ensures SameBut(old(lists), lists, {Region(class_id), Cache(thread, class_id), Half(thread, class_id)})
    {
      hide Reached, Owned, UseKept, Reversed;
      var free_list, half := Cache(thread, class_id), Half(thread, class_id);
      ghost var cached := ListAt(lists, free_list);
      UseSame(where);
      var count := |ListAt(lists, free_list)| / 2;
      var i := 0;
      while i < count
        invariant 0 <= i <= count && Sound() && UseKept(old(where), where)
        invariant drains == old(drains)[(thread, class_id) := count - i]
        invariant ListAt(lists, free_list) == cached[i..] && ListAt(lists, half) == Reversed(cached[..i])
        invariant SameBut(old(lists), lists, {free_list, half})
      {
        ghost var where1 := where;
        var node := MoveFront(free_list, half);
        UseTwice(old(where), where1, where);
        ReversedMore(cached, i);
        i := i + 1;
      }
      ghost var where1 := where;
      BulkDeallocate(class_id, half);
      UseTwice(old(where), where1, where);
    }
  }

  /** The thread's list of the class is in front of the region's. */
  ghost predicate Emptied(lists: Lists, lists': Lists, thread: nat, c: nat)
  {
    && ListAt(lists', Cache(thread, c)) == []
    && ListAt(lists', Region(c)) == ListAt(lists, Cache(thread, c)) + ListAt(lists, Region(c))
  }

  lemma {:induction false} EmptiedBy(lists: Lists, lists': Lists, thread: nat, c: nat)
    requires ListAt(lists', Cache(thread, c)) == []
    requires ListAt(lists', Region(c)) == ListAt(lists, Cache(thread, c)) + ListAt(lists, Region(c))
    ensures Emptied(lists, lists', thread, c)
  {
  }

  lemma {:induction false} UntouchedSelf(lists: Lists, thread: nat)
    ensures forall c: nat :: Untouched(lists, lists, thread, c)
  {
  }

  ghost predicate Untouched(lists: Lists, lists': Lists, thread: nat, c: nat)
  {
    ListAt(lists', Cache(thread, c)) == ListAt(lists, Cache(thread, c)) && ListAt(lists', Region(c)) == ListAt(lists, Region(c))
  }

  lemma {:induction false} EmptiedMore(lists: Lists, mid: Lists, lists': Lists, thread: nat, i: nat)
    requires forall c: nat :: c < i ==> Emptied(lists, mid, thread, c)
    requires forall c: nat :: i <= c ==> Untouched(lists, mid, thread, c)
    requires Emptied(mid, lists', thread, i) && SameBut(mid, lists', {Region(i), Cache(thread, i)})
    ensures forall c: nat :: c < i + 1 ==> Emptied(lists, lists', thread, c)
    ensures forall c: nat :: i + 1 <= c ==> Untouched(lists, lists', thread, c)
  {
    assert Untouched(lists, mid, thread, i);
    forall c: nat | i + 1 <= c ensures Untouched(lists, lists', thread, c) {
      assert Untouched(lists, mid, thread, c);
      assert Region(c) != Region(i) && Cache(thread, c) != Cache(thread, i);
    }
    forall c: nat | c < i ensures Emptied(lists, lists', thread, c) {
      assert Emptied(lists, mid, thread, c);
      assert Region(c) != Region(i) && Cache(thread, c) != Cache(thread, i);
    }
  }

  /** What SizeClassAllocatorLocalCache::Allocate() takes: the front of the thread's list, which has been filled from the
      region's stock if it was empty. */
  ghost predicate CacheTook(lists: Lists, stock: seq<nat>, lists': Lists, thread: nat, class_id: nat, p: nat)
  {
    var cached, cached' := ListAt(lists, Cache(thread, class_id)), ListAt(lists', Cache(thread, class_id));
    if cached != [] then
      p == cached[0] && cached' == cached[1..] && SameBut(lists, lists', {Cache(thread, class_id)})
    else
      && Transferred(stock, MaxCached(class_id), ListAt(lists', Region(class_id)), [p] + cached')
      && SameBut(lists, lists', {Region(class_id), Cache(thread, class_id)})
  }

  /** Where SizeClassAllocatorLocalCache::Deallocate() puts a chunk: in front of the thread's list.  When that is full,
      its first half goes to the region, last chunk first. */
  ghost predicate CacheGave(lists: Lists, lists': Lists, thread: nat, class_id: nat, p: nat)
  {
    var cached := [p] + ListAt(lists, Cache(thread, class_id));
    if |cached| < 2 * MaxCached(class_id) then
      ListAt(lists', Cache(thread, class_id)) == cached && SameBut(lists, lists', {Cache(thread, class_id)})
    else
      && ListAt(lists', Cache(thread, class_id)) == cached[|cached| / 2..]
      && ListAt(lists', Region(class_id)) == Reversed(cached[..|cached| / 2]) + ListAt(lists, Region(class_id))
      && SameBut(lists, lists', {Region(class_id), Cache(thread, class_id)})
  }

  lemma {:induction false} GaveByDrain(lists: Lists, mid: Lists, lists': Lists, thread: nat, class_id: nat, p: nat)
    requires mid == PushedFront(lists, Cache(thread, class_id), p) && |ListAt(mid, Cache(thread, class_id))| >= 2 * MaxCached(class_id)
    requires var cached := ListAt(mid, Cache(thread, class_id));
      && ListAt(lists', Cache(thread, class_id)) == cached[|cached| / 2..]
      && ListAt(lists', Region(class_id)) == Reversed(cached[..|cached| / 2]) + ListAt(mid, Region(class_id))
    requires SameBut(mid, lists', {Region(class_id), Cache(thread, class_id), Half(thread, class_id)})
    requires ListAt(lists', Half(thread, class_id)) == [] == ListAt(lists, Half(thread, class_id))
    ensures CacheGave(lists, lists', thread, class_id, p)
  {
    hide Reversed, MaxCached;
    forall q: Place | q !in {Region(class_id), Cache(thread, class_id)} ensures ListAt(lists', q) == ListAt(lists, q) {
      assert ListAt(mid, q) == ListAt(lists, q);
    }
  }

  lemma {:induction false} TookFront(lists: Lists, lists': Lists, stock: seq<nat>, thread: nat, class_id: nat)
    requires ListAt(lists, Cache(thread, class_id)) != [] && lists' == Popped(lists, Cache(thread, class_id))
    ensures CacheTook(lists, stock, lists', thread, class_id, ListAt(lists, Cache(thread, class_id))[0])
  {
  }

  lemma {:induction false} TookTransferred(lists: Lists, mid: Lists, stock: seq<nat>, thread: nat, class_id: nat)
    requires ListAt(lists, Cache(thread, class_id)) == [] && ListAt(mid, Cache(thread, class_id)) != []
    requires SameBut(lists, mid, {Region(class_id), Cache(thread, class_id)})
    requires Transferred(stock, MaxCached(class_id), ListAt(mid, Region(class_id)), ListAt(mid, Cache(thread, class_id)))
    ensures CacheTook(lists, stock, Popped(mid, Cache(thread, class_id)), thread, class_id, ListAt(mid, Cache(thread, class_id))[0])
  {
    hide MaxCached, Transferred;
    var cached := ListAt(mid, Cache(thread, class_id));
    assert [cached[0]] + cached[1..] == cached;
  }

  /** Allocating right after giving back yields the same chunk, if and only if the list was not full. */
  lemma {:induction false} SameChunkBack(lists: Lists, mid: Lists, lists': Lists, stock: seq<nat>, thread: nat, class_id: nat, p: nat, q: nat)
    requires CacheGave(lists, mid, thread, class_id, p) && CacheTook(mid, stock, lists', thread, class_id, q)
    requires |ListAt(lists, Cache(thread, class_id))| < 2 * MaxCached(class_id) && class_id < NUM_CLASSES
    requires p !in ListAt(lists, Cache(thread, class_id)) && (ListAt(mid, Cache(thread, class_id)) == [] ==> stock != [])
    ensures q == p <==> |ListAt(lists, Cache(thread, class_id))| + 1 < 2 * MaxCached(class_id)
    ensures q == p ==> forall r: Place :: ListAt(lists', r) == ListAt(lists, r)
  {
    CachesHold(class_id);
    hide MaxCached, Reversed;
  }

  /** What one transfer leaves of a region's list, and what it brings an empty cache. */
  ghost predicate Transferred(stock: seq<nat>, count: nat, region: seq<nat>, cache: seq<nat>)
  {
    if |stock| <= count then region == [] && cache == stock
    else region == stock[count..] && cache == Reversed(stock[..count])
  }

  lemma {:induction false} TransferredAll(stock: seq<nat>, count: nat, region: seq<nat>, cache: seq<nat>)
    requires Transferred(stock, count, region, cache) && stock != [] && count > 0
    ensures |region| + |cache| == |stock| && 0 < |cache| <= count
  {
  }

  /** p, which was not in use, is in use now, and is a chunk of its class; nothing else has come into
      use or gone out of it. */
  ghost predicate HandedOut(cfg: Config, where: Places, where': Places, user: seq<nat>, p: nat, class_id: nat)
  {
    && |user| == NUM_CLASSES && Starts(cfg, user, p) && cfg.ClassOf(p) == class_id
    && p in where' && where'[p] == InUse && (p in where ==> where[p] != InUse)
    && (forall q :: q in where && q != p ==> q in where' && (where'[q] == InUse <==> where[q] == InUse))
    && (forall q :: q in where' && where'[q] == InUse && q != p ==> q in where)
  }

  ghost predicate TakenBack(where: Places, where': Places, p: nat)
  {
    && p in where' && where'[p] != InUse
    && (forall q :: q in where && q != p ==> q in where' && (where'[q] == InUse <==> where[q] == InUse))
    && (forall q :: q in where' && where'[q] == InUse ==> q in where)
  }

  lemma {:induction false} HandedOutFrom(cfg: Config, where: Places, mid: Places, where': Places, user: seq<nat>, p: nat, from: Place)
    requires UseKept(where, mid) && p in mid && mid[p] == from && from != InUse && where' == mid[p := InUse]
    requires |user| == NUM_CLASSES && Starts(cfg, user, p) && cfg.ClassOf(p) == from.class_id
    ensures HandedOut(cfg, where, where', user, p, from.class_id)
  {
  }

  lemma {:induction false} HandedOutBy(cfg: Config, where: Places, mid: Places, where': Places, user: seq<nat>, p: nat, from: Place)
    requires OnlyAdded(where, mid) && p in mid && mid[p] == from && from != InUse && where' == mid[p := InUse]
    requires |user| == NUM_CLASSES && Starts(cfg, user, p) && cfg.ClassOf(p) == from.class_id
    ensures HandedOut(cfg, where, where', user, p, from.class_id)
  {
    AddedUse(where, mid);
    HandedOutFrom(cfg, where, mid, where', user, p, from);
  }

  lemma {:induction false} TakenBackBy(where: Places, mid: Places, where': Places, p: nat, to: Place)
    requires p in where && mid == where[p := to] && to != InUse && UseKept(mid, where')
    ensures TakenBack(where, where', p)
  {
  }

  lemma {:induction false} UseSame(where: Places)
    ensures UseKept(where, where)
  {
  }

  lemma {:induction false} OnlyAddedSelf(where: Places)
    ensures OnlyAdded(where, where)
  {
  }

  lemma {:induction false} AddedUse(where: Places, where': Places)
    requires OnlyAdded(where, where')
    ensures UseKept(where, where')
  {
  }

  lemma {:induction false} UseTwice(where: Places, mid: Places, where': Places)
    requires UseKept(where, mid) && UseKept(mid, where')
    ensures UseKept(where, where')
  {
  }

  lemma {:induction false} ClassInRange(cfg: Config, p: nat)
    ensures cfg.ClassOf(p) < NUM_CLASSES
  {
  }
}
