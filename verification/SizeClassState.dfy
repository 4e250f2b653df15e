/** The layout of SizeClassAllocator64 (lib/sanitizer_common/sanitizer_allocator64.h): one region of the
space for each size class, chunks from its start, metadata from its end.

A region has 1 << r bytes, with r at least 32; the space starts at a multiple of 256 regions. */
module SizeClassState {
  import opened Bits
  import opened Partition
  import opened SizeClassMap

  /** Where a chunk can be: in its region's free list, in the cache of a thread, in the list that
      DrainHalf() builds, or in use. */
  datatype Place =
    | Region(class_id: nat)
    | Cache(thread: nat, class_id: nat)
    | Half(thread: nat, class_id: nat)
    | InUse

  type Lists = map<Place, seq<nat>>
  type Places = map<nat, Place>

  /** kSpaceBeg >> (r + 8), r, kMetadataSize. */
  datatype Config = Config(space: nat, r: nat, meta: nat) {
    ghost predicate Valid() { r >= 32 && meta > 0 }
    function RegionBeg(class_id: nat): nat { Lsh(256 * space + class_id, r) }
    // PointerIsMine(): p / kSpaceSize == kSpaceBeg / kSpaceSize
    predicate Mine(p: nat) { Shr(p, r) / 256 == space }
    // GetSizeClass()
    function ClassOf(p: nat): nat { Shr(p, r) % 256 }
    function Offset(p: nat): nat { Low(p, r) }
    function RegionSize(): nat { Pow2(r) }
  }

  lemma {:induction false} RegionParts(cfg: Config, class_id: nat, offset: nat)
    requires class_id < NUM_CLASSES && offset < cfg.RegionSize()
    ensures var p := cfg.RegionBeg(class_id) + offset;
      cfg.Mine(p) && cfg.ClassOf(p) == class_id && cfg.Offset(p) == offset
  {
    SplitUnique(256 * cfg.space + class_id, offset, cfg.r);
  }

  lemma {:induction false} PartsRegion(cfg: Config, p: nat)
    requires cfg.Mine(p)
    ensures cfg.ClassOf(p) < NUM_CLASSES && cfg.Offset(p) < cfg.RegionSize()
    ensures p == cfg.RegionBeg(cfg.ClassOf(p)) + cfg.Offset(p)
  {
    Split(p, cfg.r);
  }

  // ----- Chunks and metadata

  /** A chunk starts at p, in a region with so many bytes of chunks. */
  predicate Starts(cfg: Config, user: seq<nat>, p: nat)
    requires |user| == NUM_CLASSES
  {
    cfg.Mine(p) && cfg.Offset(p) < user[cfg.ClassOf(p)] && Multiple(cfg.Offset(p), cfg.ClassOf(p))
  }

  /** n is a multiple of the size of class c. */
  predicate Multiple(n: nat, c: nat) { Size(c) > 0 && n % Size(c) == 0 }

  /** `allocated_user` and `allocated_meta` count the same chunks, and leave room in the region. */
  ghost predicate RegionOk(cfg: Config, c: nat, user: nat, meta: nat)
    requires c < NUM_CLASSES
  {
    Multiple(user, c) && meta == user / Size(c) * cfg.meta && (user > 0 ==> user + meta < cfg.RegionSize())
  }

  /** GetChunkIdx(): the offset is stored in a u32. */
  function ChunkIdx(offset: nat, size: nat): nat
    requires size > 0
  {
    offset % 0x1_0000_0000 / size
  }

  /** GetBlockBegin(), for the size of the pointer's class. */
  function BlockBegin(cfg: Config, p: nat, size: nat): int
    requires size > 0
  {
    Lsh(Shr(p, cfg.r), cfg.r) + ChunkIdx(cfg.Offset(p), size) * size
  }

  /** GetMetaData(): back from the end of the region. */
  function MetaOffset(cfg: Config, p: nat, size: nat): int
    requires size > 0
  {
    cfg.RegionSize() - (1 + ChunkIdx(cfg.Offset(p), size)) * cfg.meta
  }

  lemma {:induction false} ClassSizes(c: nat)
    requires c < NUM_CLASSES
    ensures 16 <= Size(c) <= MAX_SIZE
  {
  }

  /** Any pointer into a chunk leads to the chunk's start, if and only if the chunk index survives its
      storage in 32 bits: always when the region has 2^32 bytes. */
  lemma {:induction false} BlockBeginExact(cfg: Config, p: nat, size: nat)
    requires cfg.Valid() && cfg.Mine(p) && size == Size(cfg.ClassOf(p))
    ensures 0 < size
    ensures var start := cfg.RegionBeg(cfg.ClassOf(p)) + cfg.Offset(p) / size * size;
      && start <= p < start + size
      && (BlockBegin(cfg, p, size) == start <==> cfg.Offset(p) < 0x1_0000_0000)
    ensures cfg.r == 32 ==> cfg.Offset(p) < 0x1_0000_0000
  {
    PartsRegion(cfg, p);
    WordSizes();
    ClassSizes(cfg.ClassOf(p));
    hide Size;
    var o := cfg.Offset(p);
    DivMod(o, size);
    TruncatedQuotient(o, size);
    MulLe(o % 0x1_0000_0000 / size, o / size, size);
  }

  lemma {:induction false} TruncatedQuotient(o: nat, size: nat)
    requires 0 < size < 0x1_0000_0000
    ensures o % 0x1_0000_0000 / size == o / size <==> o < 0x1_0000_0000
    ensures o % 0x1_0000_0000 / size <= o / size
  {
    var t := o % 0x1_0000_0000;
    DivMod(o, size);
    DivMod(t, size);
    if o >= 0x1_0000_0000 {
      // a whole 2^32 was dropped, which is more than one chunk
      MulLe(o / size, t / size, size);
      assert (t / size) * size <= t <= o - 0x1_0000_0000 < o - size < (o / size) * size;
    }
  }

  /** Chunks of a region, its metadata slots, and chunks and slots, do not meet. */
  lemma {:induction false} RegionDisjoint(cfg: Config, user: seq<nat>, meta: seq<nat>, p: nat, q: nat)
    requires cfg.Valid() && |user| == |meta| == NUM_CLASSES
    requires forall c: nat :: c < NUM_CLASSES ==> RegionOk(cfg, c, user[c], meta[c])
    requires Starts(cfg, user, p) && Starts(cfg, user, q) && cfg.ClassOf(p) == cfg.ClassOf(q)
    requires cfg.Offset(p) < 0x1_0000_0000 && cfg.Offset(q) < 0x1_0000_0000
    ensures var size := Size(cfg.ClassOf(p));
      && size > 0
      && cfg.Offset(p) + size <= user[cfg.ClassOf(p)] < MetaOffset(cfg, q, size)
      && MetaOffset(cfg, q, size) + cfg.meta <= cfg.RegionSize()
      && (p < q ==> p + size <= q && MetaOffset(cfg, q, size) + cfg.meta <= MetaOffset(cfg, p, size))
  {
    var c := cfg.ClassOf(p);
    PartsRegion(cfg, p);
    PartsRegion(cfg, q);
    ClassSizes(c);
    assert RegionOk(cfg, c, user[c], meta[c]);
    hide Size, Multiple, MetaOffset, Config.Mine, Config.ClassOf, Config.Offset, Config.RegionBeg, Config.RegionSize;
    MetaPlain(cfg, p, Size(c));
    MetaPlain(cfg, q, Size(c));
    RegionFacts(cfg, c, user[c], meta[c], cfg.Offset(p), cfg.Offset(q));
    SlotAbove(cfg.Offset(q), user[c], Size(c), cfg.meta, cfg.RegionSize());
    IndexBelow(cfg.Offset(p), user[c], Size(c));
    if p < q {
      SlotsApart(cfg.Offset(p), cfg.Offset(q), Size(c), cfg.meta, cfg.RegionSize());
    }
  }

  lemma {:induction false} MetaPlain(cfg: Config, p: nat, size: nat)
    requires size > 0 && cfg.Offset(p) < 0x1_0000_0000
    ensures MetaOffset(cfg, p, size) == cfg.RegionSize() - (1 + cfg.Offset(p) / size) * cfg.meta
  {
  }

  lemma {:induction false} RegionFacts(cfg: Config, c: nat, user: nat, meta: nat, o: nat, u: nat)
    requires c < NUM_CLASSES && RegionOk(cfg, c, user, meta) && Multiple(o, c) && Multiple(u, c) && o < user
    ensures var size := Size(c);
      size > 0 && user % size == 0 && o % size == 0 && u % size == 0 && user + user / size * cfg.meta < cfg.RegionSize()
  {
  }

  /** The slot of a chunk lies above all chunks. */
  lemma {:induction false} SlotAbove(o: nat, user: nat, size: nat, meta: nat, region: nat)
    requires size > 0 && o % size == 0 && user % size == 0 && o < user && user + user / size * meta < region
    ensures user < region - (1 + o / size) * meta && region - (1 + o / size) * meta + meta <= region
  {
    IndexBelow(o, user, size);
    MulLe(1 + o / size, user / size, meta);
    Distrib(o / size, 1, meta);
    if meta > 0 { MulSign(o / size, meta); }
  }

  lemma {:induction false} SlotsApart(o: nat, u: nat, size: nat, meta: nat, region: nat)
    requires size > 0 && o % size == 0 && u % size == 0 && o < u
    ensures o + size <= u && region - (1 + u / size) * meta + meta <= region - (1 + o / size) * meta
  {
    IndexBelow(o, u, size);
    Distrib(u / size, 1, meta);
    MulLe(1 + o / size, u / size, meta);
  }

  /** Multiples of size are at least size apart. */
  lemma {:induction false} IndexBelow(x: nat, y: nat, size: nat)
    requires size > 0 && x % size == 0 && y % size == 0 && x < y
    ensures x + size <= y && x / size + 1 <= y / size
  {
    DivMod(x, size);
    DivMod(y, size);
    MulLe(y / size, x / size, size);
    Distrib(x / size, 1, size);
    MulLe(x / size + 1, y / size, size);
  }

  // ----- Offsets of more than 32 bits

  /** Where the metadata of a chunk starts, in its region. */
  ghost function Slot(cfg: Config, p: nat): int
  {
    ClassSizes(cfg.ClassOf(p));
    MetaOffset(cfg, p, Size(cfg.ClassOf(p)))
  }

  /** What GetBlockBegin() returns. */
  ghost function Begin(cfg: Config, p: nat): int
  {
    ClassSizes(cfg.ClassOf(p));
    BlockBegin(cfg, p, Size(cfg.ClassOf(p)))
  }

  /** No two chunks of class c share a byte of metadata. */
  ghost predicate SlotsDisjoint(cfg: Config, user: seq<nat>, c: nat)
    requires |user| == NUM_CLASSES
  {
    forall p: nat, q: nat :: Starts(cfg, user, p) && Starts(cfg, user, q) && cfg.ClassOf(p) == cfg.ClassOf(q) == c && p != q ==>
      Slot(cfg, p) + cfg.meta <= Slot(cfg, q) || Slot(cfg, q) + cfg.meta <= Slot(cfg, p)
  }

  /** A chunk whose offset does not fit 32 bits is taken for another one of its region, below it. */
  lemma {:induction false} TakenForAnother(cfg: Config, user: seq<nat>, meta: seq<nat>, p: nat) returns (q: nat)
    requires cfg.Valid() && |user| == |meta| == NUM_CLASSES
    requires forall c: nat :: c < NUM_CLASSES ==> RegionOk(cfg, c, user[c], meta[c])
    requires Starts(cfg, user, p) && cfg.Offset(p) >= 0x1_0000_0000
    ensures Starts(cfg, user, q) && cfg.ClassOf(q) == cfg.ClassOf(p) && q < p
    ensures Slot(cfg, q) == Slot(cfg, p) && Begin(cfg, p) == q == Begin(cfg, q)
  {
    var c, o := cfg.ClassOf(p), cfg.Offset(p);
    PartsRegion(cfg, p);
    ClassSizes(c);
    assert RegionOk(cfg, c, user[c], meta[c]);
    hide Size, Multiple, Config.Mine, Config.ClassOf, Config.Offset, Config.RegionBeg, Config.RegionSize;
    var u := CutOffset(o, Size(c));
    CutMultiple(u, c);
    RegionParts(cfg, c, u);
    q := cfg.RegionBeg(c) + u;
    RegionStart(cfg, p);
    RegionStart(cfg, q);
  }

  lemma {:induction false} CutOffset(o: nat, size: nat) returns (u: nat)
    requires size > 0 && o >= 0x1_0000_0000
    ensures u % size == 0 && u < 0x1_0000_0000 && u == ChunkIdx(o, size) * size && ChunkIdx(u, size) == ChunkIdx(o, size)
  {
    var i := ChunkIdx(o, size);
    DivMod(o % 0x1_0000_0000, size);
    MulSign(i, size);
    u := i * size;
    DivModUnique(u, size, i, 0);
  }

  lemma {:induction false} CutMultiple(u: nat, c: nat)
    requires Size(c) > 0 && u % Size(c) == 0
    ensures Multiple(u, c)
  {
  }

  lemma {:induction false} RegionStart(cfg: Config, p: nat)
    requires cfg.Mine(p)
    ensures Lsh(Shr(p, cfg.r), cfg.r) == cfg.RegionBeg(cfg.ClassOf(p))
  {
    PartsRegion(cfg, p);
    Split(p, cfg.r);
  }

  /** The metadata of a class is sound if and only if the last chunk's offset fits 32 bits. */
  lemma {:induction false} SlotsExactly(cfg: Config, user: seq<nat>, meta: seq<nat>, c: nat)
    requires cfg.Valid() && |user| == |meta| == NUM_CLASSES && c < NUM_CLASSES
    requires forall d: nat :: d < NUM_CLASSES ==> RegionOk(cfg, d, user[d], meta[d])
    ensures SlotsDisjoint(cfg, user, c) <==> user[c] < 0x1_0000_0000 + Size(c)
  {
    hide Size, Multiple, RegionOk, Starts, Slot, Begin, MetaOffset, Config.Mine, Config.ClassOf, Config.Offset;
    if user[c] < 0x1_0000_0000 + Size(c) {
      forall p: nat, q: nat | Starts(cfg, user, p) && Starts(cfg, user, q) && cfg.ClassOf(p) == cfg.ClassOf(q) == c && p != q
        ensures Slot(cfg, p) + cfg.meta <= Slot(cfg, q) || Slot(cfg, q) + cfg.meta <= Slot(cfg, p)
      {
        FittingSlots(cfg, user, meta, p, q);
      }
    } else {
      var p := LastChunk(cfg, user, meta, c);
      var q := TakenForAnother(cfg, user, meta, p);
    }
  }

  lemma {:induction false} FittingSlots(cfg: Config, user: seq<nat>, meta: seq<nat>, p: nat, q: nat)
    requires cfg.Valid() && |user| == |meta| == NUM_CLASSES
    requires forall d: nat :: d < NUM_CLASSES ==> RegionOk(cfg, d, user[d], meta[d])
    requires Starts(cfg, user, p) && Starts(cfg, user, q) && cfg.ClassOf(p) == cfg.ClassOf(q) && p != q
    requires user[cfg.ClassOf(p)] < 0x1_0000_0000 + Size(cfg.ClassOf(p))
    ensures Slot(cfg, p) + cfg.meta <= Slot(cfg, q) || Slot(cfg, q) + cfg.meta <= Slot(cfg, p)
  {
    var c := cfg.ClassOf(p);
    ClassSizes(c);
    assert RegionOk(cfg, c, user[c], meta[c]);
    IndexBelow(cfg.Offset(p), user[c], Size(c));
    IndexBelow(cfg.Offset(q), user[c], Size(c));
    hide Size, Multiple, RegionOk, Starts, MetaOffset, Config.Mine, Config.ClassOf, Config.Offset;
    RegionDisjoint(cfg, user, meta, p, q);
    RegionDisjoint(cfg, user, meta, q, p);
  }

  lemma {:induction false} LastChunk(cfg: Config, user: seq<nat>, meta: seq<nat>, c: nat) returns (p: nat)
    requires cfg.Valid() && |user| == |meta| == NUM_CLASSES && c < NUM_CLASSES && user[c] >= 0x1_0000_0000 + Size(c)
    requires RegionOk(cfg, c, user[c], meta[c])
    ensures Starts(cfg, user, p) && cfg.ClassOf(p) == c && cfg.Offset(p) == user[c] - Size(c)
  {
    ClassSizes(c);
    hide Size, Config.Mine, Config.ClassOf, Config.Offset, Config.RegionBeg;
    var n := user[c];
    DivMod(n, Size(c));
    Distrib(n / Size(c) - 1, 1, Size(c));
    DivModUnique(n - Size(c), Size(c), n / Size(c) - 1, 0);
    RegionParts(cfg, c, n - Size(c));
    p := cfg.RegionBeg(c) + (n - Size(c));
  }

  /** A region state that does it, wherever regions are larger than 2^32 bytes and metadata has no more
      than a megabyte: 2049 chunks of two megabytes, the last of them at offset 2^32. */
  lemma {:induction false} SlotsCollide(cfg: Config) returns (p: nat, q: nat)
    requires cfg.Valid() && cfg.r > 32 && cfg.meta <= 0x10_0000
    ensures var user, meta := OneRegion(255, 2049 * MAX_SIZE), OneRegion(255, 2049 * cfg.meta);
      && Starts(cfg, user, p) && Starts(cfg, user, q) && cfg.ClassOf(p) == cfg.ClassOf(q) == 255 && p != q
      && Slot(cfg, q) == Slot(cfg, p) && Begin(cfg, p) == q
  {
    var user, meta := OneRegion(255, 2049 * MAX_SIZE), OneRegion(255, 2049 * cfg.meta);
    FilledRegionOk(cfg, 2049);
    hide Size, Multiple, RegionOk, Starts, Slot, Begin, Config.Mine, Config.ClassOf, Config.Offset;
    p := LastChunk(cfg, user, meta, 255);
    q := TakenForAnother(cfg, user, meta, p);
  }

  /** Two-megabyte chunks, as many as the region can hold for sure. */
  lemma {:induction false} FilledRegionOk(cfg: Config, n: nat)
    requires cfg.Valid() && cfg.r > 32 && cfg.meta <= 0x10_0000 && n <= 2049
    ensures var user, meta := OneRegion(255, n * MAX_SIZE), OneRegion(255, n * cfg.meta);
      forall c: nat :: c < NUM_CLASSES ==> RegionOk(cfg, c, user[c], meta[c])
  {
    var user, meta := OneRegion(255, n * MAX_SIZE), OneRegion(255, n * cfg.meta);
    LargeRegion(cfg.r);
    MulLe(n, 2049, cfg.meta);
    forall c: nat | c < NUM_CLASSES ensures RegionOk(cfg, c, user[c], meta[c]) {
      ClassSizes(c);
      if c != 255 {
        EmptyRegion(cfg, c);
      } else {
        DivModUnique(n * MAX_SIZE, MAX_SIZE, n, 0);
      }
    }
  }

  /** Chunks in one region only. */
  function OneRegion(c: nat, bytes: nat): (r: seq<nat>)
    ensures |r| == NUM_CLASSES && forall d: nat :: d < NUM_CLASSES ==> r[d] == if d == c then bytes else 0
  {
    seq(NUM_CLASSES, d => if d == c then bytes else 0)
  }

  lemma {:induction false} EmptyRegion(cfg: Config, c: nat)
    requires c < NUM_CLASSES && Size(c) > 0
    ensures RegionOk(cfg, c, 0, 0)
  {
    hide Size;
    DivModUnique(0, Size(c), 0, 0);
    MulComm(0, cfg.meta);
  }

  lemma {:induction false} LargeRegion(r: nat)
    requires r > 32
    ensures Pow2(r) >= 0x2_0000_0000
  {
    WordSizes();
    Pow2Mono(32, r);
  }

  // ----- The whole state

  predicate ClassFits(cfg: Config, p: nat, place: Place)
  {
    match place
    case Region(c) => cfg.ClassOf(p) == c
    case Cache(_, c) => cfg.ClassOf(p) == c
    case Half(_, c) => cfg.ClassOf(p) == c
    case InUse => true
  }

  /** Every chunk made has one owner, and a list holds chunks of its class only. */
  ghost predicate Owned(cfg: Config, lists: Lists, where: Places, user: seq<nat>, meta: seq<nat>)
  {
    && cfg.Valid() && |user| == |meta| == NUM_CLASSES
    && (forall c: nat :: c < NUM_CLASSES ==> RegionOk(cfg, c, user[c], meta[c]))
    && Partitioned(lists, where, InUse)
    && (forall p: nat {:trigger p in where} :: p in where <==> Starts(cfg, user, p))
    && (forall p: nat {:trigger where[p]} :: p in where ==> ClassFits(cfg, p, where[p]))
  }

  /** The caches stay below twice what one transfer brings. */
  ghost predicate CachesOk(lists: Lists)
  {
    forall t: nat, c: nat {:trigger Cache(t, c)} :: c < NUM_CLASSES ==> |ListAt(lists, Cache(t, c))| < 2 * MaxCached(c)
  }

  /** A chunk changes hands. */
  lemma {:induction false} MoveOwned(cfg: Config, lists: Lists, where: Places, user: seq<nat>, meta: seq<nat>,
      p: nat, from: Place, to: Place, rest: Lists, lists': Lists)
    requires Owned(cfg, lists, where, user, meta) && p in where && where[p] == from && from != to && ClassFits(cfg, p, to)
    requires Leaves(lists, from, p, rest, InUse) && Joins(rest, to, p, lists', InUse)
    ensures Owned(cfg, lists', where[p := to], user, meta)
  {
    MovePartitioned(lists, where, InUse, p, from, to, rest, lists');
  }

  /** append_front(): a list goes in front of another of its class. */
  lemma {:induction false} PrefixOwned(cfg: Config, lists: Lists, where: Places, user: seq<nat>, meta: seq<nat>, from: Place, to: Place)
    requires Owned(cfg, lists, where, user, meta) && from != to && from != InUse && to != InUse && from.class_id == to.class_id
    ensures Owned(cfg, Prefixed(lists, from, to), Relabelled(where, from, to), user, meta)
  {
    PrefixPartitioned(lists, where, InUse, from, to);
    var where' := Relabelled(where, from, to);
    forall p: nat | p in where' ensures ClassFits(cfg, p, where'[p]) {
      assert ClassFits(cfg, p, where[p]);
    }
  }

  lemma {:induction false} FrontOwned(cfg: Config, lists: Lists, where: Places, user: seq<nat>, meta: seq<nat>, from: Place)
    requires Owned(cfg, lists, where, user, meta) && ListAt(lists, from) != []
    ensures var p := ListAt(lists, from)[0];
      p in where && where[p] == from && from != InUse && ClassFits(cfg, p, from) && Starts(cfg, user, p)
  {
    assert from != InUse;
    assert Holds(ListAt(lists, from), where, from);
    assert ListAt(lists, from)[0] in ListAt(lists, from);
  }

  /** No chunk is ever owned twice, and an owned chunk is a chunk. */
  lemma {:induction false} OneOwner(cfg: Config, lists: Lists, where: Places, user: seq<nat>, meta: seq<nat>, p: nat)
    requires Owned(cfg, lists, where, user, meta)
    ensures forall x: Place, y: Place :: p in ListAt(lists, x) && p in ListAt(lists, y) ==> x == y
    ensures (exists x: Place :: p in ListAt(lists, x)) ==> Starts(cfg, user, p)
  {
    if p in where {
      InOneList(lists, where, InUse, p);
    } else {
      forall x: Place ensures p !in ListAt(lists, x) {
        if x != InUse { assert Holds(ListAt(lists, x), where, x); }
      }
    }
  }

  // ----- PopulateFreeList()

  /** The chunks of class c with offsets from lo up to hi, in the region that starts at beg. */
  ghost predicate MadeFrom(beg: nat, made: Places, c: nat, lo: nat, hi: nat)
  {
    && (forall p: nat {:trigger p in made} :: p in made ==> p >= beg && lo <= p - beg < hi && Multiple(p - beg, c))
    && (forall o: nat {:trigger Multiple(o, c)} :: lo <= o < hi && Multiple(o, c) ==> beg + o in made)
    && (forall p: nat {:trigger made[p]} :: p in made ==> made[p] == Region(c))
  }

  ghost predicate Made(cfg: Config, made: Places, c: nat, lo: nat, hi: nat)
    requires c < NUM_CLASSES
  {
    MadeFrom(cfg.RegionBeg(c), made, c, lo, hi)
  }

  lemma {:induction false} MadeNone(cfg: Config, c: nat, at: nat)
    requires c < NUM_CLASSES
    ensures Made(cfg, map[], c, at, at)
  {
  }

  lemma {:induction false} MadeMore(cfg: Config, made: Places, c: nat, lo: nat, hi: nat)
    requires c < NUM_CLASSES && Made(cfg, made, c, lo, hi) && Multiple(hi, c) && lo <= hi
    ensures cfg.RegionBeg(c) + hi !in made
    ensures Made(cfg, made[cfg.RegionBeg(c) + hi := Region(c)], c, lo, hi + Size(c)) && Multiple(hi + Size(c), c)
  {
    hide Size, Multiple, MadeFrom, Config.RegionBeg;
    ClassSizes(c);
    NextMultiple(hi, c);
    MadeOneMore(cfg.RegionBeg(c), made, c, lo, hi, Size(c));
  }

  lemma {:induction false} MadeOneMore(beg: nat, made: Places, c: nat, lo: nat, hi: nat, size: nat)
    requires MadeFrom(beg, made, c, lo, hi) && Multiple(hi, c) && lo <= hi && size == Size(c) > 0
    ensures beg + hi !in made && MadeFrom(beg, made[beg + hi := Region(c)], c, lo, hi + size)
  {
    hide Size, Multiple;
    var made' := made[beg + hi := Region(c)];
    forall o: nat | lo <= o < hi + size && Multiple(o, c) ensures beg + o in made' {
      if o > hi { MultiplesApart(hi, o, c); }
    }
  }

  lemma {:induction false} MultiplesApart(x: nat, y: nat, c: nat)
    requires Multiple(x, c) && Multiple(y, c) && x < y
    ensures x + Size(c) <= y
  {
    IndexBelow(x, y, Size(c));
  }

  lemma {:induction false} NextMultiple(n: nat, c: nat)
    requires Multiple(n, c)
    ensures Multiple(n + Size(c), c) && (n + Size(c)) / Size(c) == n / Size(c) + 1
  {
    DivMod(n, Size(c));
    Distrib(n / Size(c), 1, Size(c));
    DivModUnique(n + Size(c), Size(c), n / Size(c) + 1, 0);
  }

  /** The new chunks, if they and their metadata fit the region. */
  lemma {:induction false} PopulateOwned(cfg: Config, lists: Lists, where: Places, user: seq<nat>, meta: seq<nat>,
      made: Places, order: seq<nat>, c: nat, hi: nat, metaHi: nat)
    requires Owned(cfg, lists, where, user, meta) && c < NUM_CLASSES && ListAt(lists, Region(c)) == []
    requires user[c] < hi && RegionOk(cfg, c, hi, metaHi) && Made(cfg, made, c, user[c], hi)
    requires NoDuplicates(order) && forall p: nat :: p in order <==> p in made
    ensures Owned(cfg, lists[Region(c) := order], where + made, user[c := hi], meta[c := metaHi])
  {
    hide Size, Multiple, Starts, RegionOk, Partitioned, Made, MadeFrom, NoDuplicates, Config.Mine, Config.ClassOf, Config.Offset;
    hide Config.Valid, Config.RegionSize, Config.RegionBeg;
    PopulateSize(cfg, c, hi, metaHi);
    PopulateFresh(cfg, where, user, meta, made, c, hi);
    FillPartitioned(lists, where, InUse, made, order, Region(c));
    PopulateStarts(cfg, where, user, made, c, hi);
    forall p: nat | p in where + made ensures ClassFits(cfg, p, (where + made)[p]) {
      if p !in made {
        assert ClassFits(cfg, p, where[p]);
      }
    }
  }

  lemma {:induction false} PopulateSize(cfg: Config, c: nat, hi: nat, metaHi: nat)
    requires c < NUM_CLASSES && hi > 0 && RegionOk(cfg, c, hi, metaHi)
    ensures hi < cfg.RegionSize()
  {
  }

  lemma {:induction false} PopulateFresh(cfg: Config, where: Places, user: seq<nat>, meta: seq<nat>, made: Places, c: nat, hi: nat)
    requires cfg.Valid() && |user| == |meta| == NUM_CLASSES && c < NUM_CLASSES
    requires forall p: nat :: p in where <==> Starts(cfg, user, p)
    requires hi < cfg.RegionSize() && Made(cfg, made, c, user[c], hi)
    ensures forall p: nat :: p in made ==>
      p !in where && cfg.Mine(p) && cfg.ClassOf(p) == c && user[c] <= cfg.Offset(p) < hi && Multiple(cfg.Offset(p), c)
    ensures forall p: nat :: p in made ==> made[p] == Region(c)
  {
    hide Size, Multiple, Config.Mine, Config.ClassOf, Config.Offset, Config.RegionBeg, Config.RegionSize;
    forall p: nat | p in made
      ensures p !in where && cfg.Mine(p) && cfg.ClassOf(p) == c && user[c] <= cfg.Offset(p) < hi && Multiple(cfg.Offset(p), c)
    {
      RegionParts(cfg, c, p - cfg.RegionBeg(c));
    }
  }

  lemma {:induction false} PopulateStarts(cfg: Config, where: Places, user: seq<nat>, made: Places, c: nat, hi: nat)
    requires |user| == NUM_CLASSES && c < NUM_CLASSES && user[c] < hi
    requires forall p: nat :: p in where <==> Starts(cfg, user, p)
    requires Made(cfg, made, c, user[c], hi)
    requires forall p: nat :: p in made ==> cfg.Mine(p) && cfg.ClassOf(p) == c && cfg.Offset(p) < hi && Multiple(cfg.Offset(p), c)
    ensures forall p: nat :: p in where + made <==> Starts(cfg, user[c := hi], p)
  {
    hide Size, Multiple, Config.Mine, Config.ClassOf, Config.Offset, Config.RegionBeg, Config.RegionSize, Starts, Made, MadeFrom;
    forall p: nat ensures p in where + made <==> Starts(cfg, user[c := hi], p) {
      StartsMore(cfg, user, made, c, hi, p);
    }
  }

  /** The chunks that start below hi are those below the old mark and the new ones. */
  lemma {:induction false} StartsMore(cfg: Config, user: seq<nat>, made: Places, c: nat, hi: nat, p: nat)
    requires |user| == NUM_CLASSES && c < NUM_CLASSES && user[c] < hi && Made(cfg, made, c, user[c], hi)
    requires p in made ==> cfg.Mine(p) && cfg.ClassOf(p) == c && cfg.Offset(p) < hi && Multiple(cfg.Offset(p), c)
    ensures Starts(cfg, user[c := hi], p) <==> Starts(cfg, user, p) || p in made
  {
    hide Size, Multiple, Config.Mine, Config.ClassOf, Config.Offset, Config.RegionBeg, Config.RegionSize;
    if cfg.Mine(p) {
      PartsRegion(cfg, p);
      if Multiple(cfg.Offset(p), c) && user[c] <= cfg.Offset(p) < hi && cfg.ClassOf(p) == c {
        assert cfg.RegionBeg(c) + cfg.Offset(p) in made;
      }
    }
  }
}
