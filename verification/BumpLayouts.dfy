/** Which layouts of superblocks the region allocator of lib/sanitizer_common/sanitizer_stackdepot.cc is
safe for, in every interleaving, and runs that break it for all others. */
module BumpLayouts {
  import opened BumpAllocator

  /** The superblocks in the order they are mapped, wherever mmap puts them. */
  ghost predicate Layout(blocks: seq<Block>)
  {
    && (forall i :: 0 <= i < |blocks| ==> blocks[i].beg > 0 && blocks[i].beg + SUPERBLOCK <= blocks[i].end)
    && (forall i :: 0 <= i < |blocks| ==> blocks[i].beg % 8 == 0 == blocks[i].end % 8)
    && (forall i, j :: 0 <= i < j < |blocks| ==> Apart(blocks[i], blocks[j]))
  }

  /** Superblock k is mapped right below an older one. */
  predicate Below(blocks: seq<Block>, i: nat, k: nat)
  {
    i < k < |blocks| && blocks[k].end == blocks[i].beg
  }

  /** Superblock k is mapped right above an older one, and ends below one mapped in between. */
  predicate Short(blocks: seq<Block>, i: nat, j: nat, k: nat)
  {
    i < j < k < |blocks| && blocks[i].end == blocks[k].beg && blocks[k].end < blocks[j].end
  }

  ghost predicate SafeLayout(blocks: seq<Block>)
  {
    (forall i, k :: !Below(blocks, i, k)) && (forall i, j, k :: !Short(blocks, i, j, k))
  }

  // ----- What a thread in tryallocDesc() knows

  predicate Touches(b: Block, x: nat) { b.beg <= x <= b.end }

  /** The newest superblock is mapped, and region_end still has the old value. */
  ghost predicate Pending(s: State)
  {
    s.mutex.HeldBy? && s.mutex.thread in s.threads && s.threads[s.mutex.thread].StoreEnd? && s.blocks != []
  }

  /** The superblocks that region_end has pointed to. */
  ghost function Installed(s: State): nat { if Pending(s) then |s.blocks| - 1 else |s.blocks| }

  ghost predicate Loaded(blocks: seq<Block>, n: nat, cmp: nat)
  {
    exists i :: 0 <= i < n <= |blocks| && Touches(blocks[i], cmp)
  }

  /** The pointer was loaded when superblock i was the newest, and the end when j was. */
  predicate Passes(blocks: seq<Block>, i: nat, j: nat, cmp: nat, memsz: nat)
  {
    i <= j < |blocks| && Touches(blocks[i], cmp) && cmp + memsz <= blocks[j].end
  }

  ghost predicate Passed(blocks: seq<Block>, cmp: nat, memsz: nat)
  {
    exists i, j :: Passes(blocks, i, j, cmp, memsz)
  }

  ghost predicate CmpOk(s: State, pc: Pc)
  {
    match pc
    case LoadEnd(_, _, cmp) => cmp != 0 ==> Loaded(s.blocks, Installed(s), cmp)
    case Cas(memsz, _, cmp) => Passed(s.blocks, cmp, memsz)
    case _ => true
  }

  ghost predicate LayoutInv(s: State)
  {
    && (Installed(s) > 0 ==> s.end == s.blocks[Installed(s) - 1].end)
    && forall t :: t in s.threads ==> CmpOk(s, s.threads[t])
  }

  /** More superblocks do no harm to what is known. */
  lemma {:induction false} CmpStays(s: State, s': State, pc: Pc)
    requires CmpOk(s, pc) && s.blocks <= s'.blocks && Installed(s) <= Installed(s')
    ensures CmpOk(s', pc)
  {
    match pc
    case LoadEnd(_, _, cmp) =>
      if cmp != 0 {
        var i :| 0 <= i < Installed(s) && Touches(s.blocks[i], cmp);
        assert Touches(s'.blocks[i], cmp);
      }
    case Cas(memsz, _, cmp) =>
      var i, j :| Passes(s.blocks, i, j, cmp, memsz);
      assert Passes(s'.blocks, i, j, cmp, memsz);
    case _ =>
  }

  /** One thread moves, and the superblocks installed are the same or one more. */
  lemma {:induction false} OneMoves(s: State, s': State, t: nat)
    requires LayoutInv(s) && t in s.threads && t in s'.threads && s'.threads == s.threads[t := s'.threads[t]]
    requires s.blocks <= s'.blocks && Installed(s) <= Installed(s') && CmpOk(s', s'.threads[t])
    requires Installed(s') > 0 ==> s'.end == s'.blocks[Installed(s') - 1].end
    ensures LayoutInv(s')
  {
    forall u | u in s'.threads ensures CmpOk(s', s'.threads[u]) {
      if u != t {
        assert CmpOk(s, s.threads[u]);
        CmpStays(s, s', s.threads[u]);
      }
    }
  }

  lemma {:induction false} ReadPosInv(s: State, s': State, t: nat)
    requires BlocksOk(s) && LockOk(s) && LayoutInv(s) && t in s.threads && ReadPos(s, s', t, s.threads[t])
    ensures LayoutInv(s')
  {
    if s.pos != 0 {
      assert Touches(s.blocks[|s.blocks| - 1], s.pos);
      assert Loaded(s'.blocks, Installed(s'), s.pos);
    }
    assert s'.threads[t].LoadEnd?;
    OneMoves(s, s', t);
  }

  lemma {:induction false} ReadEndInv(s: State, s': State, t: nat)
    requires BlocksOk(s) && LockOk(s) && LayoutInv(s) && t in s.threads && ReadEnd(s, s', t, s.threads[t])
    ensures LayoutInv(s')
  {
    assert CmpOk(s, s.threads[t]);
    var pc := s.threads[t];
    if s'.threads[t].Cas? {
      var i :| 0 <= i < Installed(s) && Touches(s.blocks[i], pc.cmp);
      assert Passes(s'.blocks, i, Installed(s) - 1, pc.cmp, pc.memsz);
    }
    OneMoves(s, s', t);
  }

  lemma {:induction false} OtherInv(s: State, s': State, t: nat)
    requires BlocksOk(s) && LockOk(s) && LayoutInv(s) && QuietStep(s, s', t)
    requires !ReadPos(s, s', t, s.threads[t]) && !ReadEnd(s, s', t, s.threads[t])
    ensures LayoutInv(s')
  {
    OtherStep(s, s', t);
    OneMoves(s, s', t);
  }

  lemma {:induction false} OtherStep(s: State, s': State, t: nat)
    requires BlocksOk(s) && LockOk(s) && LayoutInv(s) && QuietStep(s, s', t)
    requires !ReadPos(s, s', t, s.threads[t]) && !ReadEnd(s, s', t, s.threads[t])
    ensures t in s'.threads && s'.threads == s.threads[t := s'.threads[t]] && !s'.threads[t].LoadEnd? && !s'.threads[t].Cas?
    ensures s.blocks <= s'.blocks && Installed(s) <= Installed(s')
    ensures Installed(s') > 0 ==> s'.end == s'.blocks[Installed(s') - 1].end
  {
    hide CmpOk, BlocksOk, LockOk, LayoutInv;
    var pc := s.threads[t];
    if WriteEnd(s, s', t, pc) {
      WriteEndInstalls(s, s', t);
    } else if exists mem :: MapBlock(s, s', t, pc, mem) {
      var mem :| MapBlock(s, s', t, pc, mem);
      MapBlockWaits(s, s', t, mem);
    } else {
      SameInstalled(s, s', t);
    }
  }

  lemma {:induction false} WriteEndInstalls(s: State, s': State, t: nat)
    requires BlocksOk(s) && LockOk(s) && t in s.threads && WriteEnd(s, s', t, s.threads[t])
    ensures s'.threads[t].StorePos? && s'.blocks == s.blocks && Installed(s') == |s.blocks| > 0
    ensures s'.end == s.blocks[|s.blocks| - 1].end
  {
  }

  lemma {:induction false} MapBlockWaits(s: State, s': State, t: nat, mem: nat)
    requires BlocksOk(s) && LockOk(s) && LayoutInv(s) && t in s.threads && MapBlock(s, s', t, s.threads[t], mem)
    ensures s'.threads[t].StoreEnd? && s.blocks <= s'.blocks && Installed(s') == |s.blocks| == Installed(s)
    ensures Installed(s') > 0 ==> s'.end == s'.blocks[Installed(s') - 1].end
  {
    hide CmpOk;
  }

  lemma {:induction false} SameInstalled(s: State, s': State, t: nat)
    requires BlocksOk(s) && LockOk(s) && LayoutInv(s) && QuietStep(s, s', t)
    requires !ReadPos(s, s', t, s.threads[t]) && !ReadEnd(s, s', t, s.threads[t]) && !WriteEnd(s, s', t, s.threads[t])
    requires !exists mem :: MapBlock(s, s', t, s.threads[t], mem)
    ensures !s'.threads[t].LoadEnd? && !s'.threads[t].Cas? && s'.threads == s.threads[t := s'.threads[t]]
    ensures s'.blocks == s.blocks && Installed(s') == Installed(s) && s'.end == s.end
    ensures Installed(s') > 0 ==> s'.end == s'.blocks[Installed(s') - 1].end
  {
    hide CmpOk, ReadPos, ReadEnd, WriteEnd, MapBlock, BlocksOk;
  }

  lemma {:induction false} QuietInv(s: State, s': State, t: nat)
    requires Inv(s) && LayoutInv(s) && QuietStep(s, s', t)
    ensures LayoutInv(s')
  {
    hide LayoutInv, BlocksOk, LockOk, GrantsOk;
    if ReadPos(s, s', t, s.threads[t]) {
      ReadPosInv(s, s', t);
    } else if ReadEnd(s, s', t, s.threads[t]) {
      ReadEndInv(s, s', t);
    } else {
      OtherInv(s, s', t);
    }
  }

  /** A pointer into the newest superblock that was loaded earlier is at its start or its end. */
  lemma {:induction false} StillFits(blocks: seq<Block>, cmp: nat, memsz: nat)
    requires (forall i :: 0 <= i < |blocks| ==> 0 < blocks[i].beg < blocks[i].end)
    requires (forall i, j :: 0 <= i < j < |blocks| ==> Apart(blocks[i], blocks[j]))
    requires SafeLayout(blocks) && Passed(blocks, cmp, memsz) && memsz > 0
    requires blocks != [] && Touches(blocks[|blocks| - 1], cmp)
    ensures cmp + memsz <= blocks[|blocks| - 1].end
  {
    var k: nat := |blocks| - 1;
    var i: nat, j: nat :| Passes(blocks, i, j, cmp, memsz);
    if i < k {
      assert !Below(blocks, i, k) && Apart(blocks[i], blocks[k]);
      assert cmp == blocks[i].end == blocks[k].beg;
      assert !Short(blocks, i, j, k);
    }
  }

  lemma {:induction false} CasInv(s: State, s': State, t: nat)
    requires Inv(s) && LayoutInv(s) && CasStep(s, s', t) && SafeLayout(s.blocks)
    ensures s'.pos <= s.end && LayoutInv(s')
  {
    var pc := s.threads[t];
    assert CmpOk(s, pc) && Sized(pc) && pc.cmp != 0;
    StillFits(s.blocks, pc.cmp, pc.memsz);
    OneMoves(s, s', t);
  }

  lemma {:induction false} BlocksGrow(s: State, s': State, t: nat)
    requires Step(s, s', t)
    ensures s.blocks <= s'.blocks
  {
  }

  lemma {:induction false} EarlierLayout(blocks: seq<Block>, blocks': seq<Block>)
    requires blocks <= blocks' && SafeLayout(blocks')
    ensures SafeLayout(blocks)
  {
    forall i, k ensures !Below(blocks, i, k) {
      assert !Below(blocks', i, k);
    }
    forall i, j, k ensures !Short(blocks, i, j, k) {
      assert !Short(blocks', i, j, k);
    }
  }

  lemma {:induction false} InitLayout(s: State)
    requires Init(s)
    ensures LayoutInv(s)
  {
  }

  /** With a safe layout every interleaving is safe: returned ranges are pairwise disjoint and inside one
      superblock, stale pointers and newer ends notwithstanding. */
  lemma {:induction false} SafeRuns(s: State, n: nat)
    requires Reachable(s, n) && SafeLayout(s.blocks)
    ensures Inv(s) && LayoutInv(s) && Safe(s)
    decreases n
  {
    hide LayoutInv, SafeLayout, LockOk, BlocksOk;
    if n == 0 {
      InitInv(s);
      InitLayout(s);
    } else {
      var p, t :| Reachable(p, n - 1) && Step(p, s, t);
      BlocksGrow(p, s, t);
      EarlierLayout(p.blocks, s.blocks);
      SafeRuns(p, n - 1);
      if CasStep(p, s, t) {
        CasInv(p, s, t);
        CasKeeps(p, s, t);
      } else {
        QuietKeeps(p, s, t);
        QuietInv(p, s, t);
      }
    }
  }

  /** A gap between any two superblocks is enough. */
  ghost predicate Gapped(blocks: seq<Block>)
  {
    forall i, j :: 0 <= i < j < |blocks| ==> blocks[i].end < blocks[j].beg || blocks[j].end < blocks[i].beg
  }

  lemma {:induction false} GappedIsSafe(blocks: seq<Block>)
    requires Layout(blocks) && Gapped(blocks)
    ensures SafeLayout(blocks)
  {
  }

  // ----- Runs through a given layout

  ghost predicate Reaches(s: State) { exists n :: Reachable(s, n) }

  lemma {:induction false} Next(p: State, s: State, t: nat)
    requires Reaches(p) && Step(p, s, t)
    ensures Reaches(s)
  {
    var n: nat :| Reachable(p, n);
    assert Reachable(s, n + 1);
  }

  /** Two threads: 0 allocates whole superblocks, 1 is at pc1. */
  function Pair(pos: nat, end: nat, mutex: Mutex, pc0: Pc, pc1: Pc, blocks: seq<Block>, grants: seq<Grant>): State
  {
    State(pos, end, mutex, map[0 := pc0, 1 := pc1], blocks, grants)
  }

  /** Either thread takes a step. */
  lemma {:induction false} Move0(p: State, s: State, pc1: Pc)
    requires 0 in p.threads && 0 in s.threads
    requires p.threads == map[0 := p.threads[0], 1 := pc1] && s.threads == map[0 := s.threads[0], 1 := pc1]
    ensures p.threads[0 := s.threads[0]] == s.threads
  {
  }

  lemma {:induction false} Move1(p: State, s: State, pc0: Pc)
    requires 1 in p.threads && 1 in s.threads
    requires p.threads == map[0 := pc0, 1 := p.threads[1]] && s.threads == map[0 := pc0, 1 := s.threads[1]]
    ensures p.threads[1 := s.threads[1]] == s.threads
  {
  }

  ghost predicate Exhausted(pos: nat, end: nat, memsz: nat) { pos == 0 || pos + memsz > end }

  /** tryallocDesc() called by thread 0 finds the region exhausted. */
  lemma {:induction false} TriesInVain(memsz: nat, pos: nat, end: nat, mutex: Mutex, locked: bool, pc1: Pc,
      blocks: seq<Block>, grants: seq<Grant>)
    requires Exhausted(pos, end, memsz)
    requires Reaches(Pair(pos, end, mutex, LoadPos(memsz, locked), pc1, blocks, grants))
    ensures Reaches(Pair(pos, end, mutex, if locked then Clear(memsz) else Lock(memsz), pc1, blocks, grants))
  {
    hide Reaches;
    var s0 := Pair(pos, end, mutex, LoadPos(memsz, locked), pc1, blocks, grants);
    var s1 := Pair(pos, end, mutex, LoadEnd(memsz, locked, pos), pc1, blocks, grants);
    var s2 := Pair(pos, end, mutex, if locked then Clear(memsz) else Lock(memsz), pc1, blocks, grants);
    Move0(s0, s1, pc1);
    assert ReadPos(s0, s1, 0, s0.threads[0]);
    Next(s0, s1, 0);
    Move0(s1, s2, pc1);
    assert ReadEnd(s1, s2, 0, s1.threads[0]);
    Next(s1, s2, 0);
  }

  /** Thread 0 starts, takes the lock, and looks again. */
  lemma {:induction false} TakesLock(memsz: nat, pos: nat, end: nat, pc1: Pc, blocks: seq<Block>, grants: seq<Grant>)
    requires Request(memsz) && Exhausted(pos, end, memsz) && Reaches(Pair(pos, end, Free, Idle, pc1, blocks, grants))
    ensures Reaches(Pair(pos, end, HeldBy(0), Clear(memsz), pc1, blocks, grants))
  {
    hide Reaches;
    var s0 := Pair(pos, end, Free, Idle, pc1, blocks, grants);
    var s1 := Pair(pos, end, Free, LoadPos(memsz, false), pc1, blocks, grants);
    Move0(s0, s1, pc1);
    assert Begin(s0, s1, 0, Idle, memsz);
    Next(s0, s1, 0);
    TriesInVain(memsz, pos, end, Free, false, pc1, blocks, grants);
    var s3 := Pair(pos, end, Free, Lock(memsz), pc1, blocks, grants);
    var s4 := Pair(pos, end, HeldBy(0), LoadPos(memsz, true), pc1, blocks, grants);
    Move0(s3, s4, pc1);
    assert TakeLock(s3, s4, 0, s3.threads[0]);
    Next(s3, s4, 0);
    TriesInVain(memsz, pos, end, HeldBy(0), true, pc1, blocks, grants);
  }

  /** It clears the pointer and maps a superblock of its request's size at mem. */
  lemma {:induction false} MapsBlock(memsz: nat, pos: nat, end: nat, pc1: Pc, blocks: seq<Block>, grants: seq<Grant>, mem: nat)
    requires memsz >= SUPERBLOCK && mem > 0 && forall i :: 0 <= i < |blocks| ==> Apart(blocks[i], Block(mem, mem + memsz))
    requires Reaches(Pair(pos, end, HeldBy(0), Clear(memsz), pc1, blocks, grants))
    ensures Reaches(Pair(0, end, HeldBy(0), StoreEnd(memsz, mem, memsz), pc1, blocks + [Block(mem, mem + memsz)], grants))
  {
    hide Reaches;
    var s0 := Pair(pos, end, HeldBy(0), Clear(memsz), pc1, blocks, grants);
    var s1 := Pair(0, end, HeldBy(0), Map(memsz), pc1, blocks, grants);
    Move0(s0, s1, pc1);
    assert ClearPos(s0, s1, 0, s0.threads[0]);
    Next(s0, s1, 0);
    var s2 := Pair(0, end, HeldBy(0), StoreEnd(memsz, mem, memsz), pc1, blocks + [Block(mem, mem + memsz)], grants);
    Move0(s1, s2, pc1);
    assert MapBlock(s1, s2, 0, s1.threads[0], mem);
    Next(s1, s2, 0);
  }

  /** The new superblock becomes the region. */
  lemma {:induction false} InstallsBlock(memsz: nat, end: nat, pc1: Pc, blocks: seq<Block>, grants: seq<Grant>, mem: nat)
    requires Reaches(Pair(0, end, HeldBy(0), StoreEnd(memsz, mem, memsz), pc1, blocks, grants))
    ensures Reaches(Pair(mem, mem + memsz, HeldBy(0), LoadPos(memsz, true), pc1, blocks, grants))
  {
    hide Reaches;
    var s1 := Pair(0, end, HeldBy(0), StoreEnd(memsz, mem, memsz), pc1, blocks, grants);
    var s2 := Pair(0, mem + memsz, HeldBy(0), StorePos(memsz, mem), pc1, blocks, grants);
    var s3 := Pair(mem, mem + memsz, HeldBy(0), LoadPos(memsz, true), pc1, blocks, grants);
    Move0(s1, s2, pc1);
    assert WriteEnd(s1, s2, 0, s1.threads[0]);
    Next(s1, s2, 0);
    Move0(s2, s3, pc1);
    assert WritePos(s2, s3, 0, s2.threads[0]);
    Next(s2, s3, 0);
  }

  /** Thread 0 finds that the whole of it is free... */
  lemma {:induction false} ChecksBlock(memsz: nat, mem: nat, pc1: Pc, blocks: seq<Block>, grants: seq<Grant>)
    requires mem > 0 && Reaches(Pair(mem, mem + memsz, HeldBy(0), LoadPos(memsz, true), pc1, blocks, grants))
    ensures Reaches(Pair(mem, mem + memsz, HeldBy(0), Cas(memsz, true, mem), pc1, blocks, grants))
  {
    hide Reaches;
    var s0 := Pair(mem, mem + memsz, HeldBy(0), LoadPos(memsz, true), pc1, blocks, grants);
    var s1 := Pair(mem, mem + memsz, HeldBy(0), LoadEnd(memsz, true, mem), pc1, blocks, grants);
    var s2 := Pair(mem, mem + memsz, HeldBy(0), Cas(memsz, true, mem), pc1, blocks, grants);
    Move0(s0, s1, pc1);
    assert ReadPos(s0, s1, 0, s0.threads[0]);
    Next(s0, s1, 0);
    Move0(s1, s2, pc1);
    assert ReadEnd(s1, s2, 0, s1.threads[0]);
    Next(s1, s2, 0);
  }

  /** ... and takes it. */
  lemma {:induction false} TakesBlock(memsz: nat, mem: nat, pc1: Pc, blocks: seq<Block>, grants: seq<Grant>)
    requires mem > 0 && Reaches(Pair(mem, mem + memsz, HeldBy(0), LoadPos(memsz, true), pc1, blocks, grants))
    ensures Reaches(Pair(mem + memsz, mem + memsz, Free, Idle, pc1, blocks, grants + [Grant(mem, memsz)]))
  {
    hide Reaches;
    var end, all := mem + memsz, grants + [Grant(mem, memsz)];
    ChecksBlock(memsz, mem, pc1, blocks, grants);
    var s2 := Pair(mem, end, HeldBy(0), Cas(memsz, true, mem), pc1, blocks, grants);
    var s3 := Pair(end, end, HeldBy(0), Unlock, pc1, blocks, all);
    var s4 := Pair(end, end, Free, Idle, pc1, blocks, all);
    Move0(s2, s3, pc1);
    assert CasSucceeds(s2, s3, 0, s2.threads[0]);
    Next(s2, s3, 0);
    Move0(s3, s4, pc1);
    assert ReleaseLock(s3, s4, 0, s3.threads[0]);
    Next(s3, s4, 0);
  }

  // ----- Thread 0 works through a layout

  /** Each superblock given out whole. */
  function Whole(blocks: seq<Block>): (grants: seq<Grant>)
    requires Layout(blocks)
    ensures |grants| == |blocks|
    ensures forall i :: 0 <= i < |blocks| ==> grants[i] == Grant(blocks[i].beg, blocks[i].end - blocks[i].beg)
  {
    seq(|blocks|, i requires 0 <= i < |blocks| => Grant(blocks[i].beg, blocks[i].end - blocks[i].beg))
  }

  /** The first n superblocks are used up. */
  ghost function UsedUp(blocks: seq<Block>, n: nat, pc1: Pc): State
    requires Layout(blocks) && n <= |blocks|
  {
    var end := if n == 0 then 0 else blocks[n - 1].end;
    Pair(end, end, Free, Idle, pc1, blocks[..n], Whole(blocks)[..n])
  }

  /** Superblock n has just become the region. */
  ghost function JustInstalled(blocks: seq<Block>, n: nat, pc1: Pc): State
    requires Layout(blocks) && n < |blocks|
  {
    var b := blocks[n];
    Pair(b.beg, b.end, HeldBy(0), LoadPos(b.end - b.beg, true), pc1, blocks[..n + 1], Whole(blocks)[..n])
  }

  lemma {:induction false} InstallNext(blocks: seq<Block>, n: nat, pc1: Pc)
    requires Layout(blocks) && n < |blocks| && Reaches(UsedUp(blocks, n, pc1))
    ensures Reaches(JustInstalled(blocks, n, pc1))
  {
    hide Reaches;
    var b, s := blocks[n], UsedUp(blocks, n, pc1);
    var memsz := b.end - b.beg;
    TakesLock(memsz, s.pos, s.end, pc1, s.blocks, s.grants);
    forall i | 0 <= i < |s.blocks| ensures Apart(s.blocks[i], Block(b.beg, b.beg + memsz)) {
      assert Apart(blocks[i], blocks[n]);
    }
    MapsBlock(memsz, s.pos, s.end, pc1, s.blocks, s.grants, b.beg);
    assert s.blocks + [Block(b.beg, b.beg + memsz)] == blocks[..n + 1];
    InstallsBlock(memsz, s.end, pc1, blocks[..n + 1], s.grants, b.beg);
  }

  lemma {:induction false} TakeNext(blocks: seq<Block>, n: nat, pc1: Pc)
    requires Layout(blocks) && n < |blocks| && Reaches(JustInstalled(blocks, n, pc1))
    ensures Reaches(UsedUp(blocks, n + 1, pc1))
  {
    hide Reaches;
    var b := blocks[n];
    TakesBlock(b.end - b.beg, b.beg, pc1, blocks[..n + 1], Whole(blocks)[..n]);
    assert Whole(blocks)[..n] + [Grant(b.beg, b.end - b.beg)] == Whole(blocks)[..n + 1];
  }

  lemma {:induction false} UseMore(blocks: seq<Block>, n: nat, k: nat, pc1: Pc)
    requires Layout(blocks) && n <= k <= |blocks| && Reaches(UsedUp(blocks, n, pc1))
    ensures Reaches(UsedUp(blocks, k, pc1))
    decreases k - n
  {
    hide Reaches;
    if n < k {
      InstallNext(blocks, n, pc1);
      TakeNext(blocks, n, pc1);
      UseMore(blocks, n + 1, k, pc1);
    }
  }

  lemma {:induction false} UseFromStart(blocks: seq<Block>, k: nat)
    requires Layout(blocks) && k <= |blocks|
    ensures Reaches(UsedUp(blocks, k, Idle))
  {
    var n := 0;
    assert Reachable(UsedUp(blocks, 0, Idle), n);
    UseMore(blocks, 0, k, Idle);
  }

  // ----- Thread 1 stalls

  lemma {:induction false} LoadsPos(s: State, pc0: Pc, memsz: nat)
    requires Request(memsz) && Reaches(s) && s.threads == map[0 := pc0, 1 := Idle]
    ensures Reaches(s.(threads := map[0 := pc0, 1 := LoadEnd(memsz, false, s.pos)]))
  {
    hide Reaches;
    var s1, s2 := s.(threads := map[0 := pc0, 1 := LoadPos(memsz, false)]),
      s.(threads := map[0 := pc0, 1 := LoadEnd(memsz, false, s.pos)]);
    Move1(s, s1, pc0);
    assert Begin(s, s1, 1, Idle, memsz);
    Next(s, s1, 1);
    Move1(s1, s2, pc0);
    assert ReadPos(s1, s2, 1, s1.threads[1]);
    Next(s1, s2, 1);
  }

  lemma {:induction false} LoadsEnd(s: State, pc0: Pc, memsz: nat, cmp: nat)
    requires Reaches(s) && s.threads == map[0 := pc0, 1 := LoadEnd(memsz, false, cmp)] && cmp != 0 && cmp + memsz <= s.end
    ensures Reaches(s.(threads := map[0 := pc0, 1 := Cas(memsz, false, cmp)]))
  {
    hide Reaches;
    var s' := s.(threads := map[0 := pc0, 1 := Cas(memsz, false, cmp)]);
    Move1(s, s', pc0);
    assert ReadEnd(s, s', 1, s.threads[1]);
    Next(s, s', 1);
  }

  ghost function Taken(s: State, pc0: Pc, memsz: nat): State
  {
    s.(pos := s.pos + memsz, grants := s.grants + [Grant(s.pos, memsz)], threads := map[0 := pc0, 1 := Idle])
  }

  lemma {:induction false} Takes(s: State, pc0: Pc, memsz: nat)
    requires Reaches(s) && s.threads == map[0 := pc0, 1 := Cas(memsz, false, s.pos)]
    ensures Reaches(Taken(s, pc0, memsz))
  {
    hide Reaches;
    var s' := Taken(s, pc0, memsz);
    Move1(s, s', pc0);
    assert CasSucceeds(s, s', 1, s.threads[1]);
    Next(s, s', 1);
  }

  /** Thread 1 reads the pointer at the start of superblock i, and its end, and stalls.  Thread 0 uses
      that superblock up, and those up to superblock k, just below it: the pointer is back at the value thread
      1 read, and its compare-exchange gives out the start of superblock i again. */
  lemma {:induction false} BelowReused(blocks: seq<Block>, i: nat, k: nat) returns (s: State)
    requires Layout(blocks) && Below(blocks, i, k)
    ensures Reaches(s) && s.blocks == blocks[..k + 1]
    ensures |s.grants| == k + 2 && s.grants[i].addr == s.grants[k + 1].addr == blocks[i].beg
    ensures !Separate(s.grants[i], s.grants[k + 1]) && !Safe(s)
  {
    hide Reaches;
    var b, pc1 := blocks[i], Cas(32, false, blocks[i].beg);
    UseFromStart(blocks, i);
    InstallNext(blocks, i, Idle);
    var p := JustInstalled(blocks, i, Idle);
    LoadsPos(p, p.threads[0], 32);
    LoadsEnd(p.(threads := map[0 := p.threads[0], 1 := LoadEnd(32, false, p.pos)]), p.threads[0], 32, b.beg);
    assert JustInstalled(blocks, i, pc1) == p.(threads := map[0 := p.threads[0], 1 := pc1]);
    TakeNext(blocks, i, pc1);
    UseMore(blocks, i + 1, k + 1, pc1);
    Takes(UsedUp(blocks, k + 1, pc1), Idle, 32);
    s := Taken(UsedUp(blocks, k + 1, pc1), Idle, 32);
    assert !Separate(s.grants[i], s.grants[k + 1]);
  }

  /** Thread 1 reads the pointer at the end of superblock i and stalls; the end it reads is that of superblock j.
      It goes on when superblock k, which starts where i ends, has just become the region, and gets
      memory beyond its end. */
  lemma {:induction false} ShortOverrun(blocks: seq<Block>, i: nat, j: nat, k: nat) returns (s: State)
    requires Layout(blocks) && Short(blocks, i, j, k)
    ensures Reaches(s) && s.blocks == blocks[..k + 1]
    ensures |s.grants| == k + 1 && s.grants[k].addr == blocks[k].beg && !Housed(s.grants[k], s.blocks) && !Safe(s)
  {
    hide Reaches;
    var memsz, cmp := blocks[k].end - blocks[k].beg + 8, blocks[i].end;
    UseFromStart(blocks, i + 1);
    LoadsPos(UsedUp(blocks, i + 1, Idle), Idle, memsz);
    var pc1 := LoadEnd(memsz, false, cmp);
    assert UsedUp(blocks, i + 1, pc1) == UsedUp(blocks, i + 1, Idle).(threads := map[0 := Idle, 1 := pc1]);
    UseMore(blocks, i + 1, j + 1, pc1);
    LoadsEnd(UsedUp(blocks, j + 1, pc1), Idle, memsz, cmp);
    var pc2 := Cas(memsz, false, cmp);
    assert UsedUp(blocks, j + 1, pc2) == UsedUp(blocks, j + 1, pc1).(threads := map[0 := Idle, 1 := pc2]);
    UseMore(blocks, j + 1, k, pc2);
    InstallNext(blocks, k, pc2);
    var p := JustInstalled(blocks, k, pc2);
    Takes(p, p.threads[0], memsz);
    s := Taken(p, p.threads[0], memsz);
    TooLong(blocks, k, s.grants[k], s.blocks);
  }

  /** What starts with superblock k and is longer lies in none. */
  lemma {:induction false} TooLong(blocks: seq<Block>, k: nat, g: Grant, mapped: seq<Block>)
    requires Layout(blocks) && k < |blocks| && mapped == blocks[..k + 1]
    requires g == Grant(blocks[k].beg, blocks[k].end - blocks[k].beg + 8)
    ensures !Housed(g, mapped)
  {
    forall n | 0 <= n < |mapped| ensures !Inside(g, mapped[n]) {
      if n < k { assert Apart(blocks[n], blocks[k]); }
    }
  }

  ghost predicate SafeThroughout(blocks: seq<Block>)
  {
    forall s: State, n: nat :: Reachable(s, n) && s.blocks <= blocks ==> Safe(s)
  }

  /** The allocator is safe in every run through a layout if and only if the layout is: no superblock is mapped
      right below an older one, nor right above an older one while it ends below one mapped in between. */
  lemma {:induction false} SafeExactlyForLayouts(blocks: seq<Block>)
    requires Layout(blocks)
    ensures SafeThroughout(blocks) <==> SafeLayout(blocks)
  {
    if SafeLayout(blocks) {
      forall s: State, n: nat | Reachable(s, n) && s.blocks <= blocks ensures Safe(s) {
        EarlierLayout(s.blocks, blocks);
        SafeRuns(s, n);
      }
    } else {
      var s := UnsafeRun(blocks);
      var n: nat :| Reachable(s, n);
    }
  }

  lemma {:induction false} UnsafeRun(blocks: seq<Block>) returns (s: State)
    requires Layout(blocks) && !SafeLayout(blocks)
    ensures Reaches(s) && s.blocks <= blocks && !Safe(s)
  {
    hide Reaches, Safe;
    if exists i, k :: Below(blocks, i, k) {
      var i: nat, k: nat :| Below(blocks, i, k);
      s := BelowReused(blocks, i, k);
    } else {
      var i: nat, j: nat, k: nat :| Short(blocks, i, j, k);
      s := ShortOverrun(blocks, i, j, k);
    }
  }

  /** Two superblocks, the second mapped right below the first: they do not meet, yet the first 32 bytes of
      the first are given out twice. */
  lemma {:induction false} StalePointerReused() returns (s: State)
    ensures Reaches(s) && s.blocks == [Block(0x2_0000, 0x3_0000), Block(0x1_0000, 0x2_0000)]
    ensures |s.grants| == 3 && !Separate(s.grants[0], s.grants[2]) && !Safe(s)
  {
    hide Reaches;
    var blocks := [Block(0x2_0000, 0x3_0000), Block(0x1_0000, 0x2_0000)];
    s := BelowReused(blocks, 0, 1);
    assert blocks[..2] == blocks;
  }
}
