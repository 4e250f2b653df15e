/** The region allocator of lib/sanitizer_common/sanitizer_stackdepot.cc gets on, and wastes nothing: a call ends if the
other threads let it, and memory is given out end to end. */
module BumpProgress {
  import opened BumpAllocator

  // ----- Calls end

  /** A thread takes one step after the other, from the first state to the last. */
  ghost predicate Alone(t: nat, ss: seq<State>)
  {
    ss != [] && forall i {:trigger ss[i]} :: 0 < i < |ss| ==> Step(ss[i - 1], ss[i], t)
  }

  /** In the middle of a call, and no other thread has the mutex. */
  ghost predicate Let(s: State, t: nat)
  {
    t in s.threads && s.threads[t] != Idle && (Locked(s.threads[t]) || s.mutex == Free)
  }

  predicate Fits(s: State, memsz: nat) { s.pos != 0 && s.pos + memsz <= s.end }

  /** How far the call still has to go if nobody interferes. */
  function Phase(s: State, pc: Pc): nat
  {
    match pc
    case Idle => 0
    case Unlock => 1
    case Cas(_, _, cmp) => if cmp == s.pos then 2 else 14
    case LoadEnd(memsz, locked, cmp) => if cmp != s.pos then 15 else if Fits(s, memsz) then 3 else if locked then 9 else 12
    case LoadPos(memsz, locked) => if Fits(s, memsz) then 4 else if locked then 10 else 13
    case StorePos(memsz, mem) => if mem != 0 && mem + memsz <= s.end then 5 else 16
    case StoreEnd(memsz, mem, size) => if mem != 0 && memsz <= size then 6 else 17
    case Map(_) => 7
    case Clear(_) => 8
    case Lock(_) => 11
  }

  /** The thread is back from its call, with a range of its own, and has given up the mutex. */
  ghost predicate Served(s: State, t: nat, last: State)
    requires t in s.threads
  {
    && last.threads == s.threads[t := Idle] && last.mutex == Free
    && if s.threads[t] == Unlock || s.threads[t] == Idle then last.grants == s.grants
       else
         && |last.grants| == |s.grants| + 1 && last.grants[..|s.grants|] == s.grants
         && last.grants[|s.grants|].size == s.threads[t].memsz
  }

  /** There is always room for one more superblock. */
  lemma {:induction false} SomeRoom(blocks: seq<Block>) returns (mem: nat)
    ensures mem > 0 && forall i :: 0 <= i < |blocks| ==> blocks[i].end <= mem
  {
    mem := 1;
    if blocks != [] {
      var n := |blocks| - 1;
      var below := SomeRoom(blocks[..n]);
      mem := if blocks[n].end > below then blocks[n].end else below;
    }
  }

  lemma {:induction false} StepOn(s: State, t: nat) returns (s': State)
    requires Let(s, t)
    ensures Step(s, s', t) && s'.threads == s.threads[t := s'.threads[t]] && Phase(s', s'.threads[t]) < Phase(s, s.threads[t])
    ensures if s'.threads[t] == Idle then s'.mutex == Free else Let(s', t)
    ensures if CasStep(s, s', t) then s'.grants == s.grants + [Grant(s.pos, s.threads[t].memsz)]
        && (s'.threads[t] == Idle || s'.threads[t] == Unlock)
      else s'.grants == s.grants && if s.threads[t] == Unlock then s'.threads[t] == Idle
        else s'.threads[t] != Idle && s'.threads[t] != Unlock && s'.threads[t].memsz == s.threads[t].memsz
  {
    var pc := s.threads[t];
    match pc
    case LoadPos(memsz, locked) =>
      s' := Goto(s, t, LoadEnd(memsz, locked, s.pos));
      assert ReadPos(s, s', t, pc);
    case LoadEnd(memsz, locked, cmp) =>
      s' := Goto(s, t, if cmp == 0 || cmp + memsz > s.end then (if locked then Clear(memsz) else Lock(memsz)) else Cas(memsz, locked, cmp));
      assert ReadEnd(s, s', t, pc);
    case Cas(memsz, locked, cmp) =>
      if s.pos == cmp {
        s' := Goto(s.(pos := cmp + memsz, grants := s.grants + [Grant(cmp, memsz)]), t, if locked then Unlock else Idle);
        assert CasSucceeds(s, s', t, pc);
      } else {
        s' := Goto(s, t, LoadPos(memsz, locked));
        assert CasFails(s, s', t, pc);
      }
    case Lock(memsz) =>
      s' := Goto(s.(mutex := HeldBy(t)), t, LoadPos(memsz, true));
      assert TakeLock(s, s', t, pc);
    case Clear(memsz) =>
      s' := Goto(s.(pos := 0), t, Map(memsz));
      assert ClearPos(s, s', t, pc);
    case Map(memsz) =>
      var mem := SomeRoom(s.blocks);
      s' := Goto(s.(blocks := s.blocks + [Block(mem, mem + BlockSize(memsz))]), t, StoreEnd(memsz, mem, BlockSize(memsz)));
      assert MapBlock(s, s', t, pc, mem);
    case StoreEnd(memsz, mem, size) =>
      s' := Goto(s.(end := mem + size), t, StorePos(memsz, mem));
      assert WriteEnd(s, s', t, pc);
    case StorePos(memsz, mem) =>
      s' := Goto(s.(pos := mem), t, LoadPos(memsz, true));
      assert WritePos(s, s', t, pc);
    case Unlock =>
      s' := Goto(s.(mutex := Free), t, Idle);
      assert ReleaseLock(s, s', t, pc);
  }

  /** From whatever state: a call that no other thread keeps from the mutex ends if the others leave it alone, within 17
      steps, and brings back a range of the size that was asked for. */
  lemma {:induction false} CallEnds(s: State, t: nat) returns (ss: seq<State>)
    requires Let(s, t)
    ensures Alone(t, ss) && ss[0] == s && Served(s, t, ss[|ss| - 1]) && |ss| <= Phase(s, s.threads[t]) + 1 <= 18
    decreases Phase(s, s.threads[t])
  {
    hide Phase, Step;
    PhaseBound(s, s.threads[t]);
    var s' := StepOn(s, t);
    if s'.threads[t] == Idle {
      ss := [s, s'];
    } else {
      var rest := CallEnds(s', t);
      ss := [s] + rest;
      AloneFirst(t, s, rest);
      assert ss[|ss| - 1] == rest[|rest| - 1];
    }
  }

  lemma {:induction false} PhaseBound(s: State, pc: Pc)
    ensures Phase(s, pc) <= 17
  {
  }

  lemma {:induction false} AloneFirst(t: nat, s: State, rest: seq<State>)
    requires Alone(t, rest) && Step(s, rest[0], t)
    ensures Alone(t, [s] + rest)
  {
    hide Step;
    var ss := [s] + rest;
    forall i | 0 < i < |ss| ensures Step(ss[i - 1], ss[i], t) {
      assert ss[i] == rest[i - 1];
      if i > 1 { assert ss[i - 1] == rest[i - 2]; }
    }
  }

  // ----- End to end

  /** A superblock starts there, or one of the first n ranges given out ends there. */
  ghost predicate Edge(s: State, n: nat, x: nat)
    requires n <= |s.grants|
  {
    || (exists i :: 0 <= i < |s.blocks| && s.blocks[i].beg == x)
    || (exists k :: 0 <= k < n && s.grants[k].addr + s.grants[k].size == x)
  }

  /** Each range starts at a superblock or where an earlier range ends; so does what is left; and region_end is the end of
      a superblock. */
  ghost predicate Packed(s: State)
  {
    && (forall k :: 0 <= k < |s.grants| ==> Edge(s, k, s.grants[k].addr))
    && (s.pos == 0 || Edge(s, |s.grants|, s.pos))
    && (s.end == 0 || exists i :: 0 <= i < |s.blocks| && s.blocks[i].end == s.end)
    && (forall i :: 0 <= i < |s.blocks| ==> s.blocks[i].beg + SUPERBLOCK <= s.blocks[i].end)
  }

  ghost predicate Known(s: State, pc: Pc)
  {
    match pc
    case LoadEnd(_, _, cmp) => cmp == 0 || Edge(s, |s.grants|, cmp)
    case Cas(_, _, cmp) => Edge(s, |s.grants|, cmp)
    case StoreEnd(_, mem, size) => exists i :: 0 <= i < |s.blocks| && s.blocks[i] == Block(mem, mem + size)
    case StorePos(_, mem) => exists i :: 0 <= i < |s.blocks| && s.blocks[i].beg == mem
    case _ => true
  }

  ghost predicate AllKnown(s: State) { forall t :: t in s.threads ==> Known(s, s.threads[t]) }

  /** History only grows. */
  ghost predicate Later(s: State, s': State) { s.blocks <= s'.blocks && s.grants <= s'.grants }

  lemma {:induction false} StillEdge(s: State, s': State, n: nat, x: nat)
    requires Later(s, s') && n <= |s.grants| && Edge(s, n, x)
    ensures Edge(s', n, x) && forall n' :: n <= n' <= |s'.grants| ==> Edge(s', n', x)
  {
    if i :| 0 <= i < |s.blocks| && s.blocks[i].beg == x {
      assert s'.blocks[i] == s.blocks[i];
    } else {
      var k :| 0 <= k < n && s.grants[k].addr + s.grants[k].size == x;
      assert s'.grants[k] == s.grants[k];
    }
  }

  lemma {:induction false} StillKnown(s: State, s': State, pc: Pc)
    requires Later(s, s') && Known(s, pc)
    ensures Known(s', pc)
  {
    match pc
    case LoadEnd(_, _, cmp) => if cmp != 0 { StillEdge(s, s', |s.grants|, cmp); }
    case Cas(_, _, cmp) => StillEdge(s, s', |s.grants|, cmp);
    case StoreEnd(_, mem, size) =>
      var i :| 0 <= i < |s.blocks| && s.blocks[i] == Block(mem, mem + size);
      assert s'.blocks[i] == s.blocks[i];
    case StorePos(_, mem) =>
      var i :| 0 <= i < |s.blocks| && s.blocks[i].beg == mem;
      assert s'.blocks[i] == s.blocks[i];
    case _ =>
  }

  lemma {:induction false} StillPacked(s: State, s': State)
    requires Packed(s) && Later(s, s')
    ensures forall k :: 0 <= k < |s.grants| ==> Edge(s', k, s'.grants[k].addr)
    ensures s'.pos == s.pos != 0 ==> Edge(s', |s'.grants|, s'.pos)
    ensures s'.end == s.end ==> s'.end == 0 || exists i :: 0 <= i < |s'.blocks| && s'.blocks[i].end == s'.end
    ensures forall i :: 0 <= i < |s.blocks| ==> s'.blocks[i].beg + SUPERBLOCK <= s'.blocks[i].end
  {
    forall k | 0 <= k < |s.grants| ensures Edge(s', k, s'.grants[k].addr) {
      StillEdge(s, s', k, s.grants[k].addr);
    }
    if s'.pos == s.pos != 0 { StillEdge(s, s', |s.grants|, s.pos); }
    if s'.end == s.end != 0 {
      var i :| 0 <= i < |s.blocks| && s.blocks[i].end == s.end;
      assert s'.blocks[i] == s.blocks[i];
    }
  }

  /** What a step other than a successful compare-exchange does to the shared variables. */
  lemma {:induction false} QuietMoves(s: State, s': State, t: nat)
    requires QuietStep(s, s', t)
    ensures s'.grants == s.grants && t in s.threads && t in s'.threads
    ensures s'.pos == s.pos || s'.pos == 0 || (s.threads[t].StorePos? && s'.pos == s.threads[t].mem)
    ensures s'.end == s.end || (s.threads[t].StoreEnd? && s'.end == s.threads[t].mem + s.threads[t].size)
    ensures s'.blocks == s.blocks || (|s'.blocks| == |s.blocks| + 1 && s'.blocks[..|s.blocks|] == s.blocks
      && s'.blocks[|s.blocks|].beg + SUPERBLOCK <= s'.blocks[|s.blocks|].end)
  {
    var pc := s.threads[t];
    if mem: nat :| MapBlock(s, s', t, pc, mem) {
      assert s'.blocks[|s.blocks|] == Block(mem, mem + BlockSize(pc.memsz));
    }
  }

  lemma {:induction false} QuietKnows(s: State, s': State, t: nat)
    requires t in s.threads && Known(s, s.threads[t]) && (s.pos == 0 || Edge(s, |s.grants|, s.pos)) && QuietStep(s, s', t)
    ensures t in s'.threads && Known(s', s'.threads[t])
  {
    hide Edge;
    QuietMoves(s, s', t);
    var pc := s.threads[t];
    if mem: nat :| MapBlock(s, s', t, pc, mem) {
      assert s'.blocks[|s.blocks|] == Block(mem, mem + BlockSize(pc.memsz));
    } else if pc.LoadPos? && s.pos != 0 {
      StillEdge(s, s', |s.grants|, s.pos);
    } else if pc.LoadEnd? && pc.cmp != 0 {
      StillEdge(s, s', |s.grants|, pc.cmp);
    }
  }

  lemma {:induction false} QuietPacked(s: State, s': State, t: nat)
    requires Packed(s) && AllKnown(s) && QuietStep(s, s', t)
    ensures Packed(s') && t in s'.threads && Known(s', s'.threads[t]) && Later(s, s')
  {
    QuietMoves(s, s', t);
    QuietKnows(s, s', t);
    hide QuietStep;
    assert Known(s, s.threads[t]);
    StillPacked(s, s');
  }

  lemma {:induction false} CasPacked(s: State, s': State, t: nat)
    requires Packed(s) && AllKnown(s) && CasStep(s, s', t)
    ensures Packed(s') && t in s'.threads && Known(s', s'.threads[t]) && Later(s, s')
  {
    var n := |s.grants|;
    assert Known(s, s.threads[t]);
    StillEdge(s, s', n, s.threads[t].cmp);
    StillPacked(s, s');
    assert s'.grants[n].addr + s'.grants[n].size == s'.pos;
  }

  lemma {:induction false} StepPacked(s: State, s': State, t: nat)
    requires Packed(s) && AllKnown(s) && Step(s, s', t)
    ensures Packed(s') && AllKnown(s')
  {
    if CasStep(s, s', t) { CasPacked(s, s', t); } else { QuietPacked(s, s', t); }
    hide Packed, Known, Later;
    forall u | u in s'.threads ensures Known(s', s'.threads[u]) {
      if u != t {
        OthersStay(s, s', t, u);
        StillKnown(s, s', s.threads[u]);
      }
    }
  }

  lemma {:induction false} OthersStay(s: State, s': State, t: nat, u: nat)
    requires Step(s, s', t) && u in s'.threads && u != t
    ensures u in s.threads && s'.threads[u] == s.threads[u]
  {
  }

  /** In every state of every run, safe or not, the ranges lie end to end: no memory of a superblock is passed over but its
      last bytes, where a request did not fit. */
  lemma {:induction false} NothingWasted(s: State, n: nat)
    requires Reachable(s, n)
    ensures Packed(s) && AllKnown(s)
    decreases n
  {
    if n > 0 {
      hide Step, Packed, AllKnown;
      var p, t :| Reachable(p, n - 1) && Step(p, s, t);
      NothingWasted(p, n - 1);
      StepPacked(p, s, t);
    }
  }
}
