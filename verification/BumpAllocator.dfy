/** The region allocator of lib/sanitizer_common/sanitizer_stackdepot.cc: tryallocDesc() bumps a shared
pointer without a lock, allocDesc() replaces the superblock under one.

The two loads and the compare-exchange of tryallocDesc() are separate steps, and so are the three
stores and the mapping of allocDesc(); any thread may take the next step.  mmap returns any range that
meets no earlier one.  Addresses do not wrap. */
module BumpAllocator {
  const SUPERBLOCK := 64 * 1024

  /** A mapped superblock [beg, end). */
  datatype Block = Block(beg: nat, end: nat)

  /** A range [addr, addr + size) that a call has returned. */
  datatype Grant = Grant(addr: nat, size: nat)

  datatype Mutex = Free | HeldBy(thread: nat)

  datatype Pc =
    | Idle
    // tryallocDesc(); locked tells whether allocDesc() calls it under the mutex
    | LoadPos(memsz: nat, locked: bool)
    | LoadEnd(memsz: nat, locked: bool, cmp: nat)
    | Cas(memsz: nat, locked: bool, cmp: nat)
    // allocDesc()
    | Lock(memsz: nat)
    | Clear(memsz: nat)
    | Map(memsz: nat)
    | StoreEnd(memsz: nat, mem: nat, size: nat)
    | StorePos(memsz: nat, mem: nat)
    | Unlock

  /** blocks and grants are history, oldest first. */
  datatype State = State(
    pos: nat,
    end: nat,
    mutex: Mutex,
    threads: map<nat, Pc>,
    blocks: seq<Block>,
    grants: seq<Grant>)

  // ----- The code

  function Goto(s: State, t: nat, pc: Pc): State { s.(threads := s.threads[t := pc]) }

  /** The size mapped for a request that did not fit. */
  function BlockSize(memsz: nat): nat { if SUPERBLOCK < memsz then memsz else SUPERBLOCK }

  predicate Apart(b: Block, c: Block) { b.end <= c.beg || c.end <= b.beg }

  /** `sizeof(StackDesc) + (size - 1) * sizeof(uptr)`, for some size. */
  predicate Request(memsz: nat) { memsz >= 32 && memsz % 8 == 0 }

  ghost predicate Begin(s: State, s': State, t: nat, pc: Pc, memsz: nat)
  {
    pc == Idle && Request(memsz) && s' == Goto(s, t, LoadPos(memsz, false))
  }

  ghost predicate ReadPos(s: State, s': State, t: nat, pc: Pc)
  {
    pc.LoadPos? && s' == Goto(s, t, LoadEnd(pc.memsz, pc.locked, s.pos))
  }

  ghost predicate ReadEnd(s: State, s': State, t: nat, pc: Pc)
  {
    && pc.LoadEnd?
    && s' == Goto(s, t,
         if pc.cmp == 0 || pc.cmp + pc.memsz > s.end then (if pc.locked then Clear(pc.memsz) else Lock(pc.memsz))
         else Cas(pc.memsz, pc.locked, pc.cmp))
  }

  /** The weak compare-exchange may fail for no reason. */
  ghost predicate CasFails(s: State, s': State, t: nat, pc: Pc)
  {
    pc.Cas? && s' == Goto(s, t, LoadPos(pc.memsz, pc.locked))
  }

  ghost predicate CasSucceeds(s: State, s': State, t: nat, pc: Pc)
  {
    && pc.Cas? && s.pos == pc.cmp
    && s' == Goto(s.(pos := pc.cmp + pc.memsz, grants := s.grants + [Grant(pc.cmp, pc.memsz)]), t,
         if pc.locked then Unlock else Idle)
  }

  ghost predicate TakeLock(s: State, s': State, t: nat, pc: Pc)
  {
    pc.Lock? && s.mutex == Free && s' == Goto(s.(mutex := HeldBy(t)), t, LoadPos(pc.memsz, true))
  }

  ghost predicate ClearPos(s: State, s': State, t: nat, pc: Pc)
  {
    pc.Clear? && s' == Goto(s.(pos := 0), t, Map(pc.memsz))
  }

  /** MmapOrDie(). */
  ghost predicate MapBlock(s: State, s': State, t: nat, pc: Pc, mem: nat)
  {
    && pc.Map? && mem > 0
    && (forall i :: 0 <= i < |s.blocks| ==> Apart(s.blocks[i], Block(mem, mem + BlockSize(pc.memsz))))
    && s' == Goto(s.(blocks := s.blocks + [Block(mem, mem + BlockSize(pc.memsz))]), t,
         StoreEnd(pc.memsz, mem, BlockSize(pc.memsz)))
  }

  ghost predicate WriteEnd(s: State, s': State, t: nat, pc: Pc)
  {
    pc.StoreEnd? && s' == Goto(s.(end := pc.mem + pc.size), t, StorePos(pc.memsz, pc.mem))
  }

  ghost predicate WritePos(s: State, s': State, t: nat, pc: Pc)
  {
    pc.StorePos? && s' == Goto(s.(pos := pc.mem), t, LoadPos(pc.memsz, true))
  }

  ghost predicate ReleaseLock(s: State, s': State, t: nat, pc: Pc)
  {
    pc.Unlock? && s' == Goto(s.(mutex := Free), t, Idle)
  }

  /** A step other than a successful compare-exchange. */
  ghost predicate QuietStep(s: State, s': State, t: nat)
  {
    && t in s.threads
    && var pc := s.threads[t];
       || (exists memsz :: Begin(s, s', t, pc, memsz))
       || ReadPos(s, s', t, pc)
       || ReadEnd(s, s', t, pc)
       || CasFails(s, s', t, pc)
       || TakeLock(s, s', t, pc)
       || ClearPos(s, s', t, pc)
       || (exists mem :: MapBlock(s, s', t, pc, mem))
       || WriteEnd(s, s', t, pc)
       || WritePos(s, s', t, pc)
       || ReleaseLock(s, s', t, pc)
  }

  ghost predicate CasStep(s: State, s': State, t: nat)
  {
    t in s.threads && CasSucceeds(s, s', t, s.threads[t])
  }

  ghost predicate Init(s: State)
  {
    && s.pos == 0 && s.end == 0 && s.mutex == Free && s.blocks == [] && s.grants == []
    && forall t :: t in s.threads ==> s.threads[t] == Idle
  }

  // ----- What the allocator is for

  predicate Inside(g: Grant, b: Block) { b.beg <= g.addr && g.addr + g.size <= b.end }
  predicate Separate(g: Grant, h: Grant) { g.addr + g.size <= h.addr || h.addr + h.size <= g.addr }

  ghost predicate Housed(g: Grant, blocks: seq<Block>)
  {
    exists i :: 0 <= i < |blocks| && Inside(g, blocks[i])
  }

  /** Every range returned lies in one superblock, and no two of them meet. */
  ghost predicate Safe(s: State)
  {
    && (forall i {:trigger Housed(s.grants[i], s.blocks)} :: 0 <= i < |s.grants| ==> Housed(s.grants[i], s.blocks))
    && (forall i, j :: 0 <= i < j < |s.grants| ==> Separate(s.grants[i], s.grants[j]))
  }

  // ----- The invariant, whatever the layout

  predicate Locked(pc: Pc)
  {
    match pc
    case LoadPos(_, locked) => locked
    case LoadEnd(_, locked, _) => locked
    case Cas(_, locked, _) => locked
    case Idle => false
    case Lock(_) => false
    case _ => true
  }

  predicate Sized(pc: Pc) { pc == Idle || pc == Unlock || pc.memsz > 0 }
  predicate Installing(pc: Pc) { pc.StoreEnd? || pc.StorePos? }

  function Last(s: State): Block
    requires s.blocks != []
  {
    s.blocks[|s.blocks| - 1]
  }

  /** What the holder of the mutex may rely on. */
  ghost predicate HolderOk(s: State, pc: Pc)
  {
    match pc
    case LoadPos(memsz, _) =>
      && (s.pos == 0 ==> s.blocks == [])
      && (s.pos != 0 && s.blocks != [] && s.pos == Last(s).beg ==> s.pos + memsz <= s.end)
    case LoadEnd(memsz, _, cmp) =>
      && (s.pos == 0 ==> s.blocks == [])
      && (s.pos != 0 && s.blocks != [] && s.pos == Last(s).beg ==> s.pos + memsz <= s.end)
      && cmp <= s.pos && (cmp == 0 ==> s.blocks == [])
      && (s.blocks != [] && cmp == Last(s).beg ==> cmp + memsz <= s.end)
    case Cas(memsz, _, cmp) =>
      && (s.pos == 0 ==> s.blocks == [])
      && (s.pos != 0 && s.blocks != [] && s.pos == Last(s).beg ==> s.pos + memsz <= s.end)
    case Clear(_) => s.blocks == [] || s.pos > Last(s).beg
    case Map(_) => s.pos == 0
    case StoreEnd(memsz, mem, size) => s.pos == 0 && s.blocks != [] && Last(s) == Block(mem, mem + size) && memsz <= size
    case StorePos(memsz, mem) => s.pos == 0 && s.blocks != [] && Last(s) == Block(mem, s.end) && mem + memsz <= s.end
    case Unlock => s.blocks != [] && s.pos > Last(s).beg
    case _ => true
  }

  ghost predicate LockOk(s: State)
  {
    && (forall t :: t in s.threads ==> Sized(s.threads[t]))
    && (forall t :: t in s.threads && s.threads[t].Cas? ==> s.threads[t].cmp != 0)
    && (forall t :: t in s.threads ==> (Locked(s.threads[t]) <==> s.mutex == HeldBy(t)))
    && (s.mutex.HeldBy? ==> s.mutex.thread in s.threads && HolderOk(s, s.threads[s.mutex.thread]))
    && (s.mutex == Free ==> s.blocks == [] || s.pos > Last(s).beg)
  }

  ghost predicate BlocksOk(s: State)
  {
    && (forall i :: 0 <= i < |s.blocks| ==> 0 < s.blocks[i].beg < s.blocks[i].end)
    && (forall i, j :: 0 <= i < j < |s.blocks| ==> Apart(s.blocks[i], s.blocks[j]))
    && (s.pos != 0 ==> s.blocks != [] && Last(s).beg <= s.pos <= Last(s).end == s.end)
  }

  ghost predicate HolderInstalling(s: State)
  {
    s.mutex.HeldBy? && s.mutex.thread in s.threads && Installing(s.threads[s.mutex.thread])
  }

  /** Where the part of the newest superblock not yet given out begins. */
  function Unused(s: State): nat
    requires s.blocks != []
  {
    if s.pos != 0 then s.pos else Last(s).beg
  }

  ghost predicate Started(s: State, i: nat)
    requires i < |s.blocks|
  {
    exists k :: 0 <= k < |s.grants| && s.grants[k].addr == s.blocks[i].beg
  }

  ghost predicate GrantsOk(s: State)
  {
    && Safe(s)
    && (forall k :: 0 <= k < |s.grants| ==> s.grants[k].size > 0)
    && (s.pos != 0 || HolderInstalling(s) ==>
         && s.blocks != []
         && forall k :: 0 <= k < |s.grants| ==>
              s.grants[k].addr + s.grants[k].size <= Unused(s) || s.grants[k].addr >= Last(s).end)
    && (forall i: nat {:trigger Started(s, i)} :: i < |s.blocks| ==>
         Started(s, i) || (i == |s.blocks| - 1 && (s.pos == s.blocks[i].beg || HolderInstalling(s))))
  }

  ghost predicate Inv(s: State) { BlocksOk(s) && LockOk(s) && GrantsOk(s) }

  lemma {:induction false} InitInv(s: State)
    requires Init(s)
    ensures Inv(s)
  {
  }

  // ----- Steps other than a successful compare-exchange

  /** Steps that touch nothing but the thread's own variables. */
  ghost predicate LocalStep(s: State, s': State, t: nat)
  {
    && t in s.threads
    && var pc := s.threads[t];
       || (exists memsz :: Begin(s, s', t, pc, memsz))
       || ReadPos(s, s', t, pc)
       || ReadEnd(s, s', t, pc)
       || CasFails(s, s', t, pc)
  }

  /** The grants are as they were. */
  lemma {:induction false} GrantsFrame(s: State, s': State)
    requires GrantsOk(s) && s'.pos == s.pos && s'.blocks == s.blocks && s'.grants == s.grants
    requires HolderInstalling(s) == HolderInstalling(s')
    ensures GrantsOk(s')
  {
    forall i: nat | i < |s'.blocks| && Started(s, i) ensures Started(s', i) {
    }
  }

  /** A thread moves to another line without touching the shared variables. */
  ghost predicate MayGoto(s: State, t: nat, pc': Pc)
    requires t in s.threads
  {
    && Locked(pc') == Locked(s.threads[t]) && !Installing(pc') && !Installing(s.threads[t])
    && Sized(pc') && (pc'.Cas? ==> pc'.cmp != 0)
    && (Locked(pc') ==> HolderOk(s, pc'))
  }

  lemma {:induction false} GotoLock(s: State, t: nat, pc': Pc)
    requires LockOk(s) && BlocksOk(s) && t in s.threads && MayGoto(s, t, pc')
    ensures LockOk(Goto(s, t, pc')) && BlocksOk(Goto(s, t, pc'))
    ensures HolderInstalling(Goto(s, t, pc')) == HolderInstalling(s)
  {
    var s' := Goto(s, t, pc');
    assert forall u :: u in s.threads && u != t ==> s'.threads[u] == s.threads[u];
    if s.mutex.HeldBy? {
      assert HolderOk(s', s'.threads[s.mutex.thread]);
    }
  }

  lemma {:induction false} GotoKeeps(s: State, t: nat, pc': Pc)
    requires Inv(s) && t in s.threads && MayGoto(s, t, pc')
    ensures Inv(Goto(s, t, pc'))
  {
    GotoLock(s, t, pc');
    GrantsFrame(s, Goto(s, t, pc'));
  }

  lemma {:induction false} ReadPosGoes(s: State, s': State, t: nat)
    requires BlocksOk(s) && LockOk(s) && t in s.threads && ReadPos(s, s', t, s.threads[t])
    ensures MayGoto(s, t, s'.threads[t]) && s' == Goto(s, t, s'.threads[t])
  {
  }

  lemma {:induction false} ReadEndGoes(s: State, s': State, t: nat)
    requires BlocksOk(s) && LockOk(s) && t in s.threads && ReadEnd(s, s', t, s.threads[t])
    ensures MayGoto(s, t, s'.threads[t]) && s' == Goto(s, t, s'.threads[t])
  {
  }

  lemma {:induction false} CasFailsGoes(s: State, s': State, t: nat)
    requires BlocksOk(s) && LockOk(s) && t in s.threads && CasFails(s, s', t, s.threads[t])
    ensures MayGoto(s, t, s'.threads[t]) && s' == Goto(s, t, s'.threads[t])
  {
  }

  lemma {:induction false} LocalKeeps(s: State, s': State, t: nat)
    requires Inv(s) && LocalStep(s, s', t)
    ensures Inv(s')
  {
    var pc := s.threads[t];
    if ReadPos(s, s', t, pc) {
      ReadPosGoes(s, s', t);
    } else if ReadEnd(s, s', t, pc) {
      ReadEndGoes(s, s', t);
    } else if CasFails(s, s', t, pc) {
      CasFailsGoes(s, s', t);
    } else {
      assert MayGoto(s, t, s'.threads[t]) && s' == Goto(s, t, s'.threads[t]);
    }
    GotoKeeps(s, t, s'.threads[t]);
  }

  lemma {:induction false} TakeLockKeeps(s: State, s': State, t: nat)
    requires Inv(s) && t in s.threads && TakeLock(s, s', t, s.threads[t])
    ensures Inv(s')
  {
    TakeLockOk(s, s', t);
    GrantsFrame(s, s');
  }

  lemma {:induction false} TakeLockOk(s: State, s': State, t: nat)
    requires BlocksOk(s) && LockOk(s) && t in s.threads && TakeLock(s, s', t, s.threads[t])
    ensures BlocksOk(s') && LockOk(s') && HolderInstalling(s) == HolderInstalling(s')
  {
    assert s'.threads[t] == LoadPos(s.threads[t].memsz, true);
    assert forall u :: u in s.threads && u != t ==> s'.threads[u] == s.threads[u];
  }

  lemma {:induction false} ReleaseLockKeeps(s: State, s': State, t: nat)
    requires Inv(s) && t in s.threads && ReleaseLock(s, s', t, s.threads[t])
    ensures Inv(s')
  {
    ReleaseLockOk(s, s', t);
    GrantsFrame(s, s');
  }

  lemma {:induction false} ReleaseLockOk(s: State, s': State, t: nat)
    requires BlocksOk(s) && LockOk(s) && t in s.threads && ReleaseLock(s, s', t, s.threads[t])
    ensures BlocksOk(s') && LockOk(s') && HolderInstalling(s) == HolderInstalling(s')
  {
    assert forall u :: u in s.threads && u != t ==> s'.threads[u] == s.threads[u];
  }

  lemma {:induction false} ClearPosKeeps(s: State, s': State, t: nat)
    requires Inv(s) && t in s.threads && ClearPos(s, s', t, s.threads[t])
    ensures Inv(s')
  {
    ClearPosOk(s, s', t);
    forall i: nat | i < |s'.blocks| ensures Started(s', i) {
      assert Started(s, i);
    }
  }

  lemma {:induction false} ClearPosOk(s: State, s': State, t: nat)
    requires BlocksOk(s) && LockOk(s) && t in s.threads && ClearPos(s, s', t, s.threads[t])
    ensures BlocksOk(s') && LockOk(s') && !HolderInstalling(s) && !HolderInstalling(s')
    ensures s'.pos == 0 && (s.blocks == [] || s.pos != Last(s).beg)
  {
    assert forall u :: u in s.threads && u != t ==> s'.threads[u] == s.threads[u];
  }

  lemma {:induction false} MapBlockGrants(s: State, s': State, t: nat, mem: nat)
    requires Inv(s) && t in s.threads && MapBlock(s, s', t, s.threads[t], mem)
    ensures GrantsOk(s')
  {
    forall k | 0 <= k < |s'.grants|
      ensures Housed(s'.grants[k], s'.blocks)
      ensures s'.grants[k].addr + s'.grants[k].size <= mem || s'.grants[k].addr >= Last(s').end
    {
      assert Housed(s.grants[k], s.blocks);
      var i :| 0 <= i < |s.blocks| && Inside(s.grants[k], s.blocks[i]);
      assert s'.blocks[i] == s.blocks[i] && Apart(s.blocks[i], Last(s'));
    }
    forall i: nat | i < |s.blocks| ensures Started(s', i) {
      assert Started(s, i);
    }
  }

  lemma {:induction false} MapBlockKeeps(s: State, s': State, t: nat, mem: nat)
    requires Inv(s) && t in s.threads && MapBlock(s, s', t, s.threads[t], mem)
    ensures Inv(s')
  {
    MapBlockGrants(s, s', t, mem);
    MapBlockLock(s, s', t, mem);
  }

  lemma {:induction false} MapBlockLock(s: State, s': State, t: nat, mem: nat)
    requires BlocksOk(s) && LockOk(s) && t in s.threads && MapBlock(s, s', t, s.threads[t], mem)
    ensures BlocksOk(s') && LockOk(s')
  {
    assert forall u :: u in s.threads && u != t ==> s'.threads[u] == s.threads[u];
  }

  lemma {:induction false} WriteEndKeeps(s: State, s': State, t: nat)
    requires Inv(s) && t in s.threads && WriteEnd(s, s', t, s.threads[t])
    ensures Inv(s')
  {
    WriteEndOk(s, s', t);
    GrantsFrame(s, s');
  }

  lemma {:induction false} WriteEndOk(s: State, s': State, t: nat)
    requires BlocksOk(s) && LockOk(s) && t in s.threads && WriteEnd(s, s', t, s.threads[t])
    ensures BlocksOk(s') && LockOk(s') && HolderInstalling(s) == HolderInstalling(s')
  {
    assert forall u :: u in s.threads && u != t ==> s'.threads[u] == s.threads[u];
  }

  lemma {:induction false} WritePosKeeps(s: State, s': State, t: nat)
    requires Inv(s) && t in s.threads && WritePos(s, s', t, s.threads[t])
    ensures Inv(s')
  {
    WritePosOk(s, s', t);
    forall i: nat | i < |s'.blocks| && Started(s, i) ensures Started(s', i) {
    }
  }

  lemma {:induction false} WritePosOk(s: State, s': State, t: nat)
    requires BlocksOk(s) && LockOk(s) && t in s.threads && WritePos(s, s', t, s.threads[t])
    ensures BlocksOk(s') && LockOk(s') && HolderInstalling(s)
    ensures s'.pos != 0 && s.pos == 0 && s'.pos == Last(s').beg
  {
    assert forall u :: u in s.threads && u != t ==> s'.threads[u] == s.threads[u];
  }

  lemma {:induction false} QuietKeeps(s: State, s': State, t: nat)
    requires Inv(s) && QuietStep(s, s', t)
    ensures Inv(s')
  {
    var pc := s.threads[t];
    if LocalStep(s, s', t) {
      LocalKeeps(s, s', t);
    } else if TakeLock(s, s', t, pc) {
      TakeLockKeeps(s, s', t);
    } else if ClearPos(s, s', t, pc) {
      ClearPosKeeps(s, s', t);
    } else if WriteEnd(s, s', t, pc) {
      WriteEndKeeps(s, s', t);
    } else if WritePos(s, s', t, pc) {
      WritePosKeeps(s, s', t);
    } else if ReleaseLock(s, s', t, pc) {
      ReleaseLockKeeps(s, s', t);
    } else {
      var mem :| MapBlock(s, s', t, pc, mem);
      MapBlockKeeps(s, s', t, mem);
    }
  }

  // ----- The successful compare-exchange

  lemma {:induction false} CasLock(s: State, s': State, t: nat)
    requires BlocksOk(s) && LockOk(s) && CasStep(s, s', t) && s'.pos <= s.end
    ensures BlocksOk(s') && LockOk(s') && s.pos != 0
  {
  }

  lemma {:induction false} CasSafe(s: State, s': State, t: nat)
    requires Inv(s) && CasStep(s, s', t) && s'.pos <= s.end
    ensures Safe(s')
  {
    var g := Grant(s.pos, s'.pos - s.pos);
    assert Inside(g, s.blocks[|s.blocks| - 1]);
    forall k | 0 <= k < |s'.grants| ensures Housed(s'.grants[k], s'.blocks) {
      if k < |s.grants| { assert Housed(s.grants[k], s.blocks); }
    }
  }

  /** Within bounds, the range is new and everything holds on. */
  lemma {:induction false} CasKeeps(s: State, s': State, t: nat)
    requires Inv(s) && CasStep(s, s', t) && s'.pos <= s.end
    ensures Inv(s')
  {
    CasLock(s, s', t);
    CasSafe(s, s', t);
    assert s'.grants[|s.grants|].addr == s.pos;
    forall i: nat | i < |s'.blocks| ensures Started(s', i) {
      if Started(s, i) {
        var k :| 0 <= k < |s.grants| && s.grants[k].addr == s.blocks[i].beg;
        assert s'.grants[k].addr == s'.blocks[i].beg;
      }
    }
  }

  /** A superblock that reaches past the end of the newest one, from a pointer into it, starts at the
      pointer; and its start has been given out. */
  lemma {:induction false} GivenOut(s: State, g: Grant, j: nat) returns (k: nat)
    requires Inv(s) && s.pos != 0 && g.addr == s.pos && g.addr + g.size > s.end
    requires j < |s.blocks| && Inside(g, s.blocks[j])
    ensures k < |s.grants| && s.grants[k].addr == g.addr
  {
    var last := |s.blocks| - 1;
    assert j != last && Apart(s.blocks[j], s.blocks[last]);
    assert Started(s, j);
    k :| 0 <= k < |s.grants| && s.grants[k].addr == s.blocks[j].beg;
  }

  /** Beyond the end of the newest superblock, the range is in no superblock or has been given out. */
  lemma {:induction false} CasBeyond(s: State, s': State, t: nat)
    requires Inv(s) && CasStep(s, s', t) && s'.pos > s.end
    ensures !Safe(s')
  {
    var n := |s.grants|;
    var g := s'.grants[n];
    if Housed(g, s'.blocks) {
      var j :| 0 <= j < |s.blocks| && Inside(g, s.blocks[j]);
      var k := GivenOut(s, g, j);
      assert !Separate(s'.grants[k], g);
    }
  }

  /** A successful compare-exchange is safe exactly when the bounds check, made again at that moment,
      would pass.  The check of tryallocDesc() was made earlier, with values loaded earlier. */
  lemma {:induction false} SafeExactly(s: State, s': State, t: nat)
    requires Inv(s) && CasStep(s, s', t)
    ensures Safe(s') <==> s.threads[t].cmp + s.threads[t].memsz <= s.end
    ensures s.threads[t].cmp + s.threads[t].memsz <= s.end ==> Inv(s')
  {
    if s'.pos <= s.end {
      CasKeeps(s, s', t);
    } else {
      CasBeyond(s, s', t);
    }
  }

  // ----- Runs

  ghost predicate Step(s: State, s': State, t: nat) { QuietStep(s, s', t) || CasStep(s, s', t) }

  /** A state after n steps from the start. */
  ghost predicate Reachable(s: State, n: nat)
    decreases n
  {
    if n == 0 then Init(s) else exists p, t :: Reachable(p, n - 1) && Step(p, s, t)
  }

  /** The same, with every earlier state safe. */
  ghost predicate SafelyReached(s: State, n: nat)
    decreases n
  {
    if n == 0 then Init(s) else exists p, t :: SafelyReached(p, n - 1) && Safe(p) && Step(p, s, t)
  }

  lemma {:induction false} StepInv(s: State, s': State, t: nat)
    requires Inv(s) && Step(s, s', t)
    ensures Safe(s') <==> (CasStep(s, s', t) ==> s'.pos <= s.end)
    ensures Safe(s') ==> Inv(s')
  {
    if CasStep(s, s', t) {
      SafeExactly(s, s', t);
    } else {
      QuietKeeps(s, s', t);
    }
  }

  lemma {:induction false} SafelyInv(s: State, n: nat)
    requires SafelyReached(s, n) && Safe(s)
    ensures Inv(s)
    decreases n
  {
    if n == 0 {
      InitInv(s);
    } else {
      var p, t :| SafelyReached(p, n - 1) && Safe(p) && Step(p, s, t);
      SafelyInv(p, n - 1);
      StepInv(p, s, t);
    }
  }

  /** In every run, for every layout of the superblocks, the first step that breaks safety is a
      compare-exchange that moves the pointer past the end of the newest superblock; and every such
      step breaks it. */
  lemma {:induction false} FirstFailure(p: State, n: nat, s: State, t: nat)
    requires SafelyReached(p, n) && Safe(p) && Step(p, s, t)
    ensures Safe(s) <==> (CasStep(p, s, t) ==> s.pos <= p.end)
  {
    SafelyInv(p, n);
    StepInv(p, s, t);
  }
}
