/** Runs of SizeClassAllocator64 and its caches (lib/sanitizer_common/sanitizer_allocator64.h), and what
holds in every state of every run.

A move is what happens under a region's lock, or one operation of a thread on its own cache; the methods
of SizeClassAllocator.Primary are sequences of moves, and those of different threads may alternate. */
module SizeClassRuns {
  import opened Bits
  import opened Partition
  import opened SizeClassMap
  import opened SizeClassState

  /** The drains that are pending: for a thread and a class, how many chunks DrainHalf() has yet to move. */
  type Drains = map<(nat, nat), nat>

  datatype Snapshot = Snapshot(cfg: Config, lists: Lists, where: Places, user: seq<nat>, meta: seq<nat>, drains: Drains)

  ghost predicate Sound(x: Snapshot)
  {
    Owned(x.cfg, x.lists, x.where, x.user, x.meta) && Bounded(x)
  }

  ghost predicate Bounded(x: Snapshot)
  {
    forall t: nat, c: nat {:trigger CacheOk(x, t, c)} :: c < NUM_CLASSES ==> CacheOk(x, t, c)
  }

  /** A cache list holds less than twice what one transfer brings, and the list of DrainHalf() nothing.  While a drain
      is pending the two hold just that much together, and what is yet to be moved is on top of one transfer. */
  ghost predicate CacheOk(x: Snapshot, t: nat, c: nat)
  {
    var cached, half := |ListAt(x.lists, Cache(t, c))|, |ListAt(x.lists, Half(t, c))|;
    if (t, c) in x.drains then
      cached == MaxCached(c) + x.drains[(t, c)] && half + x.drains[(t, c)] == MaxCached(c)
    else
      cached < 2 * MaxCached(c) && half == 0
  }

  datatype Move =
    | Populate(class_id: nat, made: Places, order: seq<nat>, hi: nat, metaHi: nat)
    | Pass(from: Place, to: Place)
    | Take(from: Place)
    | Give(chunk: nat, to: Place)
    | Append(from: Place, to: Place)

  /** A drain of this list of a thread is pending, with so many chunks yet to be moved. */
  predicate Pending(x: Snapshot, p: Place)
    requires p.Cache? || p.Half?
  {
    (p.thread, p.class_id) in x.drains
  }

  /** What the code has tested before it makes the move, and where in its call the thread is.  BulkAllocate() fills an
      empty list with MaxCached chunks, so that the list is as long as the loop has run.  DrainHalf() moves one chunk
      after the other, then gives up its list, and its thread does nothing else with the cache list before. */
  ghost predicate Allowed(x: Snapshot, v: Move)
  {
    match v
    case Populate(c, made, order, hi, metaHi) =>
      && |x.user| == |x.meta| == NUM_CLASSES && c < NUM_CLASSES && ListAt(x.lists, Region(c)) == [] && x.user[c] < hi
      && RegionOk(x.cfg, c, hi, metaHi) && Made(x.cfg, made, c, x.user[c], hi)
      && NoDuplicates(order) && (forall p: nat :: p in order <==> p in made)
    case Pass(from, to) =>
      && ListAt(x.lists, from) != []
      && if from.Region? then
           to.Cache? && from.class_id == to.class_id && |ListAt(x.lists, to)| < MaxCached(to.class_id) && !Pending(x, to)
         else
           from.Cache? && to == Half(from.thread, from.class_id) && Pending(x, from) && x.drains[(from.thread, from.class_id)] > 0
    case Take(from) => (from.Region? || (from.Cache? && !Pending(x, from))) && ListAt(x.lists, from) != []
    case Give(p, to) =>
      && p in x.where && x.where[p] == InUse
      && (to == Region(x.cfg.ClassOf(p)) || (to.Cache? && to.class_id == x.cfg.ClassOf(p) && !Pending(x, to)))
    case Append(from, to) =>
      if to.Cache? then
        && from == Region(to.class_id) && ListAt(x.lists, to) == [] && |ListAt(x.lists, from)| <= MaxCached(to.class_id)
        && !Pending(x, to)
      else
        && (from.Cache? || from.Half?) && to == Region(from.class_id)
        && if from.Cache? then !Pending(x, from) else Pending(x, from) && x.drains[(from.thread, from.class_id)] == 0
  }

  /** `if (free_list->size() >= 2 * MaxCached(class_id)) DrainHalf(...)`: half of the list is to go. */
  function Due(drains: Drains, to: Place, size: nat): Drains
  {
    if to.Cache? && size >= 2 * MaxCached(to.class_id) then drains[(to.thread, to.class_id) := size / 2] else drains
  }

  ghost function After(x: Snapshot, v: Move): Snapshot
    requires Allowed(x, v)
  {
    match v
    case Populate(c, made, order, hi, metaHi) =>
      x.(lists := x.lists[Region(c) := order], where := x.where + made, user := x.user[c := hi], meta := x.meta[c := metaHi])
    case Pass(from, to) =>
      var p := ListAt(x.lists, from)[0];
      x.(lists := PushedFront(Popped(x.lists, from), to, p), where := x.where[p := to], drains := Moved(x.drains, from))
    case Take(from) =>
      x.(lists := Popped(x.lists, from), where := x.where[ListAt(x.lists, from)[0] := InUse])
    case Give(p, to) =>
      x.(lists := PushedFront(x.lists, to, p), where := x.where[p := to], drains := Due(x.drains, to, |ListAt(x.lists, to)| + 1))
    case Append(from, to) =>
      x.(lists := Prefixed(x.lists, from, to), where := Relabelled(x.where, from, to), drains := Done(x.drains, from))
  }

  /** One chunk less to be moved. */
  function Moved(drains: Drains, from: Place): Drains
  {
    if from.Cache? && (from.thread, from.class_id) in drains && drains[(from.thread, from.class_id)] > 0 then
      drains[(from.thread, from.class_id) := drains[(from.thread, from.class_id)] - 1]
    else drains
  }

  /** DrainHalf() returns. */
  function Done(drains: Drains, from: Place): Drains
  {
    if from.Half? then drains - {(from.thread, from.class_id)} else drains
  }

  ghost predicate Fresh(x: Snapshot)
  {
    && x.cfg.Valid() && x.lists == map[] && x.where == map[] && |x.user| == |x.meta| == NUM_CLASSES
    && x.drains == map[] && forall c: nat :: c < NUM_CLASSES ==> x.user[c] == 0 == x.meta[c]
  }

  ghost predicate StepAt(xs: seq<Snapshot>, vs: seq<Move>, i: nat)
    requires i < |vs| && |xs| == |vs| + 1
  {
    Allowed(xs[i], vs[i]) && xs[i + 1] == After(xs[i], vs[i])
  }

  /** The states xs from the start of the process, between the moves vs. */
  ghost predicate IsRun(xs: seq<Snapshot>, vs: seq<Move>)
  {
    && |xs| == |vs| + 1 && Fresh(xs[0])
    && forall i {:trigger StepAt(xs, vs, i)} :: 0 <= i < |vs| ==> StepAt(xs, vs, i)
  }

  ghost predicate EndsIn(xs: seq<Snapshot>, vs: seq<Move>, x: Snapshot) { IsRun(xs, vs) && xs[|vs|] == x }

  ghost predicate Reached(x: Snapshot) { exists xs, vs :: EndsIn(xs, vs, x) }

  // ----- Every state is sound

  lemma {:induction false} FreshSound(x: Snapshot)
    requires Fresh(x)
    ensures Sound(x)
  {
    forall c: nat | c < NUM_CLASSES ensures RegionOk(x.cfg, c, 0, 0) {
      ClassSizes(c);
      EmptyRegion(x.cfg, c);
    }
    forall t: nat, c: nat | c < NUM_CLASSES ensures CacheOk(x, t, c) {
      CachesHold(c);
    }
  }

  lemma {:induction false} MoveOwner(x: Snapshot, v: Move)
    requires Owned(x.cfg, x.lists, x.where, x.user, x.meta) && Allowed(x, v)
    ensures var y := After(x, v);
      Owned(y.cfg, y.lists, y.where, y.user, y.meta)
  {
    hide Owned, RegionOk, Made, NoDuplicates, Config.ClassOf, MaxCached, Size;
    match v
    case Populate(c, made, order, hi, metaHi) =>
      PopulateOwned(x.cfg, x.lists, x.where, x.user, x.meta, made, order, c, hi, metaHi);
    case Pass(from, to) =>
      FrontOwned(x.cfg, x.lists, x.where, x.user, x.meta, from);
      var p := ListAt(x.lists, from)[0];
      MoveOwned(x.cfg, x.lists, x.where, x.user, x.meta, p, from, to, Popped(x.lists, from),
        PushedFront(Popped(x.lists, from), to, p));
    case Take(from) =>
      FrontOwned(x.cfg, x.lists, x.where, x.user, x.meta, from);
      MoveOwned(x.cfg, x.lists, x.where, x.user, x.meta, ListAt(x.lists, from)[0], from, InUse,
        Popped(x.lists, from), Popped(x.lists, from));
    case Give(p, to) =>
      MoveOwned(x.cfg, x.lists, x.where, x.user, x.meta, p, InUse, to, x.lists, PushedFront(x.lists, to, p));
    case Append(from, to) =>
      PrefixOwned(x.cfg, x.lists, x.where, x.user, x.meta, from, to);
  }

  lemma {:induction false} MoveBounded(x: Snapshot, v: Move)
    requires Bounded(x) && Allowed(x, v)
    ensures Bounded(After(x, v))
  {
    hide Bounded;
    var y := After(x, v);
    forall t: nat, c: nat | c < NUM_CLASSES ensures CacheOk(y, t, c) {
      CacheAt(x, t, c);
      CachesHold(c);
      match v
      case Populate(_, _, _, _, _) => PopulateCache(x, v, t, c);
      case Pass(_, _) => PassCache(x, v, t, c);
      case Take(_) => TakeCache(x, v, t, c);
      case Give(_, _) => GiveCache(x, v, t, c);
      case Append(_, _) => AppendCache(x, v, t, c);
    }
    BoundedAll(y);
  }

  lemma {:induction false} CacheAt(x: Snapshot, t: nat, c: nat)
    requires Bounded(x) && c < NUM_CLASSES
    ensures CacheOk(x, t, c)
  {
  }

  lemma {:induction false} BoundedAll(x: Snapshot)
    requires forall t: nat, c: nat :: c < NUM_CLASSES ==> CacheOk(x, t, c)
    ensures Bounded(x)
  {
    hide CacheOk;
  }

  lemma {:induction false} PopulateCache(x: Snapshot, v: Move, t: nat, c: nat)
    requires CacheOk(x, t, c) && Allowed(x, v) && v.Populate?
    ensures CacheOk(After(x, v), t, c)
  {
    hide RegionOk, Made, NoDuplicates, MaxCached;
  }

  lemma {:induction false} PassCache(x: Snapshot, v: Move, t: nat, c: nat)
    requires CacheOk(x, t, c) && Allowed(x, v) && v.Pass? && MaxCached(c) >= 1
    ensures CacheOk(After(x, v), t, c)
  {
    hide RegionOk, Made, NoDuplicates, MaxCached;
  }

  lemma {:induction false} TakeCache(x: Snapshot, v: Move, t: nat, c: nat)
    requires CacheOk(x, t, c) && Allowed(x, v) && v.Take?
    ensures CacheOk(After(x, v), t, c)
  {
    hide RegionOk, Made, NoDuplicates, MaxCached;
  }

  /** The list that is full is drained. */
  lemma {:induction false} GiveCache(x: Snapshot, v: Move, t: nat, c: nat)
    requires CacheOk(x, t, c) && Allowed(x, v) && v.Give?
    ensures CacheOk(After(x, v), t, c)
  {
    hide RegionOk, Made, NoDuplicates, MaxCached, Config.ClassOf;
  }

  lemma {:induction false} AppendCache(x: Snapshot, v: Move, t: nat, c: nat)
    requires CacheOk(x, t, c) && Allowed(x, v) && v.Append? && MaxCached(c) >= 1
    ensures CacheOk(After(x, v), t, c)
  {
    hide RegionOk, Made, NoDuplicates, MaxCached, Relabelled;
  }

  lemma {:induction false} StateSound(xs: seq<Snapshot>, vs: seq<Move>, i: nat)
    requires IsRun(xs, vs) && i <= |vs|
    ensures Sound(xs[i])
  {
    hide Owned, Bounded, Allowed, After, Fresh;
    if i == 0 {
      FreshSound(xs[0]);
    } else {
      StateSound(xs, vs, i - 1);
      assert StepAt(xs, vs, i - 1);
      MoveOwner(xs[i - 1], vs[i - 1]);
      MoveBounded(xs[i - 1], vs[i - 1]);
    }
  }

  lemma {:induction false} ReachedSound(x: Snapshot)
    requires Reached(x)
    ensures Sound(x)
  {
    var xs, vs :| EndsIn(xs, vs, x);
    StateSound(xs, vs, |vs|);
  }

  lemma {:induction false} FreshReached(x: Snapshot)
    requires Fresh(x)
    ensures Reached(x)
  {
    var xs: seq<Snapshot>, vs: seq<Move> := [x], [];
    assert EndsIn(xs, vs, x);
  }

  /** One more move. */
  lemma {:induction false} Go(x: Snapshot, v: Move)
    requires Reached(x) && Allowed(x, v)
    ensures Reached(After(x, v))
  {
    hide Allowed, After, Fresh;
    var xs, vs :| EndsIn(xs, vs, x);
    var xs', vs' := xs + [After(x, v)], vs + [v];
    forall i | 0 <= i < |vs'| ensures StepAt(xs', vs', i) {
      assert i < |vs| ==> StepAt(xs, vs, i);
    }
    assert EndsIn(xs', vs', After(x, v));
  }

  lemma {:induction false} RunLength(xs: seq<Snapshot>, vs: seq<Move>)
    requires IsRun(xs, vs)
    ensures |xs| == |vs| + 1
  {
  }

  lemma {:induction false} RunStep(xs: seq<Snapshot>, vs: seq<Move>, i: nat)
    requires IsRun(xs, vs) && i < |vs|
    ensures Allowed(xs[i], vs[i]) && xs[i + 1] == After(xs[i], vs[i])
  {
    hide Allowed, After, Fresh;
    assert StepAt(xs, vs, i);
  }

  // ----- What holds in every state of every run

  /** Every chunk ever made is either in use or in exactly one of all the lists, regions and caches taken
      together, and once only; lists hold nothing but chunks of their class. */
  lemma {:induction false} OneOwner(xs: seq<Snapshot>, vs: seq<Move>, i: nat, p: nat)
    requires IsRun(xs, vs) && i <= |vs|
    ensures |xs[i].user| == NUM_CLASSES && (p in xs[i].where <==> Starts(xs[i].cfg, xs[i].user, p))
    ensures forall q: Place, r: Place :: p in ListAt(xs[i].lists, q) && p in ListAt(xs[i].lists, r) ==> q == r
    ensures forall q: Place :: p in ListAt(xs[i].lists, q) ==>
      Starts(xs[i].cfg, xs[i].user, p) && ClassFits(xs[i].cfg, p, q) && NoDuplicates(ListAt(xs[i].lists, q))
    ensures p in xs[i].where ==> (xs[i].where[p] == InUse <==> forall q: Place :: p !in ListAt(xs[i].lists, q))
  {
    StateSound(xs, vs, i);
    var x := xs[i];
    hide IsRun, Bounded, RegionOk, Starts, Config.ClassOf;
    forall q: Place | p in ListAt(x.lists, q) ensures p in x.where && x.where[p] == q && NoDuplicates(ListAt(x.lists, q)) {
      assert q != InUse && Holds(ListAt(x.lists, q), x.where, q);
    }
    if p in x.where { InOneList(x.lists, x.where, InUse, p); }
  }

  /** Chunks are disjoint, and so is their metadata as long as offsets fit 32 bits. */
  lemma {:induction false} ChunksApart(xs: seq<Snapshot>, vs: seq<Move>, i: nat, p: nat, q: nat)
    requires IsRun(xs, vs) && i <= |vs| && p in xs[i].where && q in xs[i].where && p < q
    ensures p + Size(xs[i].cfg.ClassOf(p)) <= q
    ensures |xs[i].user| == NUM_CLASSES && forall c: nat :: c < NUM_CLASSES ==>
      (SlotsDisjoint(xs[i].cfg, xs[i].user, c) <==> xs[i].user[c] < 0x1_0000_0000 + Size(c))
  {
    StateSound(xs, vs, i);
    var x := xs[i];
    hide IsRun, Bounded, Partitioned, Starts, ClassFits, RegionOk, SlotsDisjoint, Size, Config.ClassOf;
    forall c: nat | c < NUM_CLASSES ensures SlotsDisjoint(x.cfg, x.user, c) <==> x.user[c] < 0x1_0000_0000 + Size(c) {
      SlotsExactly(x.cfg, x.user, x.meta, c);
    }
    StartsApart(x.cfg, x.user, x.meta, p, q);
  }

  lemma {:induction false} StartsApart(cfg: Config, user: seq<nat>, meta: seq<nat>, p: nat, q: nat)
    requires |user| == |meta| == NUM_CLASSES && forall c: nat :: c < NUM_CLASSES ==> RegionOk(cfg, c, user[c], meta[c])
    requires Starts(cfg, user, p) && Starts(cfg, user, q) && p < q
    ensures p + Size(cfg.ClassOf(p)) <= q
  {
    var c, d := cfg.ClassOf(p), cfg.ClassOf(q);
    PartsRegion(cfg, p);
    PartsRegion(cfg, q);
    ClassSizes(c);
    assert RegionOk(cfg, c, user[c], meta[c]);
    hide Size, Config.Mine, Config.ClassOf, Config.Offset;
    IndexBelow(cfg.Offset(p), user[c], Size(c));
    if c == d {
      IndexBelow(cfg.Offset(p), cfg.Offset(q), Size(c));
    } else {
      RegionsApart(cfg, c, d, cfg.Offset(p), cfg.Offset(q), Size(c));
    }
  }

  /** Regions follow each other. */
  lemma {:induction false} RegionsApart(cfg: Config, c: nat, d: nat, o: nat, u: nat, size: nat)
    requires c != d && o + size <= cfg.RegionSize() && u < cfg.RegionSize()
    requires cfg.RegionBeg(c) + o < cfg.RegionBeg(d) + u
    ensures cfg.RegionBeg(c) + o + size <= cfg.RegionBeg(d) + u
  {
    var b := 256 * cfg.space;
    LshPow2(0, cfg.r);
    if c < d {
      LshSum(b + c, 1, cfg.r);
      LshMono(b + c + 1, b + d, cfg.r);
    } else {
      LshSum(b + d, 1, cfg.r);
      LshMono(b + d + 1, b + c, cfg.r);
    }
  }

  /** A cache list holds less than 2 * MaxCached chunks, whatever other threads do, except while its thread drains it,
      and then at most that many: it is drained as soon as it is full, and half empty when the drain is over. */
  lemma {:induction false} CachesBounded(xs: seq<Snapshot>, vs: seq<Move>, i: nat, t: nat, c: nat)
    requires IsRun(xs, vs) && i <= |vs| && c < NUM_CLASSES
    ensures |ListAt(xs[i].lists, Cache(t, c))| <= 2 * MaxCached(c)
    ensures !Pending(xs[i], Cache(t, c)) ==> |ListAt(xs[i].lists, Cache(t, c))| < 2 * MaxCached(c)
    ensures Pending(xs[i], Cache(t, c)) ==>
      |ListAt(xs[i].lists, Cache(t, c))| == MaxCached(c) + xs[i].drains[(t, c)] && xs[i].drains[(t, c)] <= MaxCached(c)
  {
    StateSound(xs, vs, i);
    hide IsRun, Owned, Bounded, MaxCached;
    CacheAt(xs[i], t, c);
  }

  /** A drain never gets stuck: its next move is allowed, whatever other threads have done. */
  lemma {:induction false} DrainGoesOn(xs: seq<Snapshot>, vs: seq<Move>, i: nat, t: nat, c: nat)
    requires IsRun(xs, vs) && i <= |vs| && c < NUM_CLASSES && Pending(xs[i], Cache(t, c))
    ensures Allowed(xs[i], if xs[i].drains[(t, c)] > 0 then Pass(Cache(t, c), Half(t, c)) else Append(Half(t, c), Region(c)))
  {
    CachesBounded(xs, vs, i, t, c);
    hide IsRun, MaxCached;
    CachesHold(c);
  }

  /** A chunk that has been handed out is not handed out again, nor put in any list, before it is given
      back. */
  lemma {:induction false} HeldUntilGiven(xs: seq<Snapshot>, vs: seq<Move>, i: nat, j: nat, p: nat)
    requires IsRun(xs, vs) && i <= j <= |vs| && p in xs[i].where && xs[i].where[p] == InUse
    requires forall k {:trigger vs[k]} :: i <= k < j ==> !(vs[k].Give? && vs[k].chunk == p)
    ensures p in xs[j].where && xs[j].where[p] == InUse
    ensures forall k {:trigger vs[k]} :: i <= k < j && vs[k].Take? ==>
      ListAt(xs[k].lists, vs[k].from) != [] && ListAt(xs[k].lists, vs[k].from)[0] != p
  {
    RunLength(xs, vs);
    hide IsRun, Allowed, After, Sound;
    if i < j {
      HeldUntilGiven(xs, vs, i, j - 1, p);
      RunStep(xs, vs, j - 1);
      StateSound(xs, vs, j - 1);
      HeldStep(xs[j - 1], vs[j - 1], p);
    }
  }

  lemma {:induction false} HeldStep(x: Snapshot, v: Move, p: nat)
    requires Sound(x) && Allowed(x, v) && p in x.where && x.where[p] == InUse && !(v.Give? && v.chunk == p)
    ensures p in After(x, v).where && After(x, v).where[p] == InUse
    ensures v.Take? ==> ListAt(x.lists, v.from) != [] && ListAt(x.lists, v.from)[0] != p
  {
    hide Owned, Bounded, NoDuplicates, Config.ClassOf, MaxCached, Size, RegionOk, Made;
    match v
    case Populate(c, made, order, hi, metaHi) =>
      MadeElsewhere(x, v);
    case Pass(from, to) =>
      FrontOwned(x.cfg, x.lists, x.where, x.user, x.meta, from);
    case Take(from) =>
      FrontOwned(x.cfg, x.lists, x.where, x.user, x.meta, from);
    case Give(_, _) =>
    case Append(from, to) =>
  }

  /** What PopulateFreeList() makes was not there. */
  lemma {:induction false} MadeElsewhere(x: Snapshot, v: Move)
    requires Sound(x) && Allowed(x, v) && v.Populate?
    ensures forall p :: p in v.made ==> p !in x.where
  {
    hide Bounded, NoDuplicates, Partitioned, ClassFits, MaxCached, Size, Made, Starts, Multiple, Config.Mine, Config.ClassOf,
      Config.Offset;
    PopulateFresh(x.cfg, x.where, x.user, x.meta, v.made, v.class_id, v.hi);
  }

  // ----- A run that leads to a shared metadata slot

  /** n chunks of two megabytes are allocated, one after the other. */
  lemma {:induction false} AllocateAll(cfg: Config, n: nat) returns (x: Snapshot)
    requires cfg.Valid() && cfg.r > 32 && cfg.meta <= 0x10_0000 && n <= 2049
    ensures Reached(x) && x.cfg == cfg && ListAt(x.lists, Region(255)) == []
    ensures x.user == OneRegion(255, n * MAX_SIZE) && x.meta == OneRegion(255, n * cfg.meta)
  {
    hide Reached, Allowed, After, RegionOk;
    if n == 0 {
      x := Snapshot(cfg, map[], map[], OneRegion(255, 0), OneRegion(255, 0), map[]);
      FreshReached(x);
    } else {
      var w := AllocateAll(cfg, n - 1);
      x := AllocateOne(w, n - 1);
    }
  }

  lemma {:induction false} AllocateOne(w: Snapshot, n: nat) returns (x: Snapshot)
    requires w.cfg.Valid() && w.cfg.r > 32 && w.cfg.meta <= 0x10_0000 && n < 2049
    requires Reached(w) && ListAt(w.lists, Region(255)) == []
    requires w.user == OneRegion(255, n * MAX_SIZE) && w.meta == OneRegion(255, n * w.cfg.meta)
    ensures Reached(x) && x.cfg == w.cfg && ListAt(x.lists, Region(255)) == []
    ensures x.user == OneRegion(255, (n + 1) * MAX_SIZE) && x.meta == OneRegion(255, (n + 1) * w.cfg.meta)
  {
    hide Reached, RegionOk, Made, Size, Multiple, Config.RegionBeg;
    var cfg, lo := w.cfg, n * MAX_SIZE;
    var p := cfg.RegionBeg(255) + lo;
    FilledRegionOk(cfg, n + 1);
    assert RegionOk(cfg, 255, OneRegion(255, (n + 1) * MAX_SIZE)[255], OneRegion(255, (n + 1) * cfg.meta)[255]);
    LastMultiple(cfg, n);
    MadeNone(cfg, 255, lo);
    MadeMore(cfg, map[], 255, lo, lo);
    var v := Populate(255, map[p := Region(255)], [p], lo + MAX_SIZE, (n + 1) * cfg.meta);
    Go(w, v);
    var y := After(w, v);
    Go(y, Take(Region(255)));
    x := After(y, Take(Region(255)));
    assert x.user == OneRegion(255, (n + 1) * MAX_SIZE) && x.meta == OneRegion(255, (n + 1) * cfg.meta);
  }

  lemma {:induction false} LastMultiple(cfg: Config, n: nat)
    ensures Multiple(n * MAX_SIZE, 255) && Size(255) == MAX_SIZE
  {
    DivModUnique(n * MAX_SIZE, MAX_SIZE, n, 0);
  }

  /** After 2049 allocations of two megabytes two chunks in use share their metadata, and GetBlockBegin() takes
      one for the other. */
  lemma {:induction false} CollisionReached(cfg: Config) returns (x: Snapshot, p: nat, q: nat)
    requires cfg.Valid() && cfg.r > 32 && cfg.meta <= 0x10_0000
    ensures Reached(x) && x.cfg == cfg && p in x.where && q in x.where && p != q
    ensures Slot(cfg, p) == Slot(cfg, q) && Begin(cfg, p) == q
  {
    x := AllocateAll(cfg, 2049);
    p, q := SlotsCollide(cfg);
    ReachedSound(x);
  }
}
