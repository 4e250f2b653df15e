/** Calls into the stack depot end: whatever state a run has led to, a thread that the others let run, and whose bucket
none of them has locked, gets to the end of its call. */
module StackDepotProgress {
  import opened Options
  import opened StackDepot
  import opened StackDepotRuns

  /** A thread takes one step after the other, from the first state to the last. */
  ghost predicate Alone(h: Hash, t: nat, ss: seq<State>)
  {
    && ss != []
    && forall i {:trigger ss[i]} :: 0 < i < |ss| ==> StepBy(h, t, ss[i - 1], ss[i])
  }

  ghost predicate StepBy(h: Hash, t: nat, s: State, s': State)
  {
    Shape(s.memory) && exists e :: Next(h, s, s', t, e)
  }

  /** No other thread is between lock() and unlock() of the bucket that thread t is to put its stack in. */
  ghost predicate Free(h: Hash, s: State, t: nat)
  {
    t in s.threads && forall u :: u != t && Putting(s.threads[t]) ==> !Owns(h, s.threads, u, Bucket(h, s.threads[t].stack))
  }

  /** How far the call still has to go: its phase, and within a phase the nodes and buckets ahead. */
  ghost function Phase(h: Hash, m: Memory, pc: Pc): nat
    requires Shape(m)
  {
    match pc
    case Idle => 0
    case Search(_, _, _) => 9
    case Spin(_, _) => 7
    case Cas(stack, _, seen) => if seen % 2 == 0 && m.tab[Bucket(h, stack)] == seen then 6 else 8
    case Research(_, _, _) => 5
    case Draw(_, _) => 4
    case Check(_, _, _) => 3
    case Alloc(_, _, _) => 2
    case Fill(_, _, _, _) => 1
    case Publish(_, _, _, _) => 0
    case Load(_, i, _) => if i < PART_SIZE then 2 * (PART_SIZE - i) else 0
    case Scan(_, i, _, _) => if i < PART_SIZE then 2 * (PART_SIZE - i) - 1 else 0
  }

  ghost function Ahead(m: Memory, pc: Pc): nat
  {
    match pc
    case Search(_, _, cur) => Rank(m, cur)
    case Research(_, _, cur) => Rank(m, cur)
    case Scan(_, _, cur, _) => Rank(m, cur)
    case _ => 0
  }

  ghost predicate Nearer(h: Hash, m: Memory, pc: Pc, m': Memory, pc': Pc)
    requires Shape(m) && Shape(m')
  {
    Phase(h, m', pc') < Phase(h, m, pc) || (Phase(h, m', pc') == Phase(h, m, pc) && Ahead(m', pc') < Ahead(m, pc))
  }

  /** What StackDepotPut() and StackDepotGet() are called for. */
  predicate SameCall(pc: Pc, pc': Pc)
  {
    (Putting(pc) && Putting(pc') && pc'.stack == pc.stack) || (!Putting(pc) && !pc.Idle? && !Putting(pc') && !pc'.Idle? && pc'.id == pc.id)
  }

  ghost predicate Ends(pc: Pc, e: Event)
  {
    if Putting(pc) then e.Put? && e.stack == pc.stack else e.Got? && !pc.Idle? && e.id == pc.id
  }

  /** The part of the call's bucket has given out all its numbers, so that CHECK_LT(id, kMaxId) fails. */
  ghost predicate Overdrawn(h: Hash, m: Memory, pc: Pc)
    requires Shape(m)
  {
    Putting(pc) && m.counters[Part(Bucket(h, pc.stack))] >= MAX_ID
  }

  /** A step towards the end. */
  ghost predicate Onward(h: Hash, m: Memory, pc: Pc, m': Memory, pc': Pc, e: Event)
    requires Shape(m)
  {
    && Shape(m')
    && ((e == Die && Overdrawn(h, m, pc)) || (pc' == Idle && Ends(pc, e)) || (SameCall(pc, pc') && e == Silent && Nearer(h, m, pc, m', pc')))
  }

  lemma {:induction false} SearchOn(h: Hash, m: Memory, pc: Pc) returns (m': Memory, pc': Pc, e: Event)
    requires MemoryOk(h, m) && ThreadOk(h, m, pc) && (pc.Search? || pc.Spin? || pc.Cas?)
    requires m.tab[Bucket(h, pc.stack)] % 2 == 0
    ensures SearchingStep(h, m, pc, m', pc', e) || LockingStep(h, m, pc, m', pc', e)
    ensures Onward(h, m, pc, m', pc', e)
  {
    hide NewOk, GetOk, Distinct, NamedOk, NodeOk, Absent;
    m', e := m, Silent;
    match pc
    case Search(stack, head, cur) =>
      if cur == 0 {
        pc' := Spin(stack, head);
      } else {
        FollowLink(h, m, Bucket(h, stack), cur);
        if Matches(h, Deref(m, cur), stack) {
          pc', e := Idle, Put(stack, Deref(m, cur).id);
        } else {
          pc' := Search(stack, head, Deref(m, cur).link);
        }
      }
    case Spin(stack, head) =>
      pc' := Cas(stack, head, m.tab[Bucket(h, stack)]);
    case Cas(stack, head, seen) =>
      if seen % 2 == 0 && m.tab[Bucket(h, stack)] == seen {
        m' := m.(tab := m.tab[Bucket(h, stack) := seen + 1]);
        pc' := if seen == head then Draw(stack, seen) else Research(stack, seen, seen);
      } else {
        pc' := Spin(stack, head);
      }
  }

  lemma {:induction false} LockedOn(h: Hash, m: Memory, pc: Pc) returns (m': Memory, pc': Pc, e: Event)
    requires MemoryOk(h, m) && ThreadOk(h, m, pc) && Roomy(m) && (pc.Research? || pc.Draw? || pc.Check?)
    ensures LockingStep(h, m, pc, m', pc', e) || AddingStep(h, m, pc, m', pc', e)
    ensures Onward(h, m, pc, m', pc', e)
  {
    hide GetOk, Distinct, NamedOk, NodeOk, Absent;
    m', e := m, Silent;
    match pc
    case Research(stack, top, cur) =>
      if cur == 0 {
        pc' := Draw(stack, top);
      } else {
        FollowLink(h, m, Bucket(h, stack), cur);
        if Matches(h, Deref(m, cur), stack) {
          m' := m.(tab := m.tab[Bucket(h, stack) := top]);
          pc', e := Idle, Put(stack, Deref(m, cur).id);
        } else {
          pc' := Research(stack, top, Deref(m, cur).link);
        }
      }
    case Draw(stack, top) =>
      var part := Part(Bucket(h, stack));
      var number := (m.counters[part] + 1) % WORD;
      m' := m.(counters := m.counters[part := number]);
      pc' := Check(stack, top, number);
    case Check(stack, top, number) =>
      if number >= MAX_ID {
        pc', e := pc, Die;
      } else {
        pc' := Alloc(stack, top, MakeId(Part(Bucket(h, stack)), number));
      }
  }

  /** There is always an address that is not in use. */
  lemma {:induction false} SomeAddress(used: set<nat>) returns (a: nat)
    ensures a !in used && a != 0 && a % 2 == 0
  {
    var top := Highest(used);
    a := 2 * top + 2;
  }

  lemma {:induction false} Highest(used: set<nat>) returns (top: nat)
    ensures forall a :: a in used ==> a <= top
    decreases used
  {
    top := 0;
    if used != {} {
      var x :| x in used;
      var rest := Highest(used - {x});
      top := if x > rest then x else rest;
      forall a | a in used ensures a <= top {
        assert a == x || a in used - {x};
      }
    }
  }

  lemma {:induction false} AddingOn(h: Hash, m: Memory, pc: Pc) returns (m': Memory, pc': Pc, e: Event)
    requires MemoryOk(h, m) && ThreadOk(h, m, pc) && HasId(pc)
    ensures AddingStep(h, m, pc, m', pc', e) && Onward(h, m, pc, m', pc', e)
  {
    hide MemoryOk, PutOk, NewOk, GetOk;
    ShapeKept(h, m);
    e := Silent;
    match pc
    case Alloc(stack, top, id) =>
      var node := SomeAddress(m.heap.Keys);
      var garbage := Node(0, 0, 0, []);
      m' := m.(heap := m.heap[node := garbage]);
      pc' := Fill(stack, top, id, node);
      assert AllocStep(h, m, pc, m', pc', e, node, garbage);
    case Fill(stack, top, id, node) =>
      m' := m.(heap := m.heap[node := Node(top, id, h(stack), stack)]);
      pc' := Publish(stack, top, id, node);
    case Publish(stack, top, id, node) =>
      m' := Publishing(m, Bucket(h, stack), node, id, stack);
      pc', e := Idle, Put(stack, id);
  }

  lemma {:induction false} GettingOn(h: Hash, m: Memory, pc: Pc, puts: set<(Stack, nat)>) returns (m': Memory, pc': Pc, e: Event)
    requires MemoryOk(h, m) && ThreadOk(h, m, pc) && (pc.Load? || pc.Scan?)
    ensures GetStep(m, pc, m', pc', e, puts) && Onward(h, m, pc, m', pc', e)
  {
    hide PutOk, NewOk, Distinct, NamedOk, NodeOk;
    m', e := m, Silent;
    match pc
    case Load(id, i, known) =>
      pc' := Scan(id, i, Pointer(m.tab[ScanBucket(id, i)]), known);
    case Scan(id, i, cur, known) =>
      if cur == 0 {
        if i + 1 == PART_SIZE {
          pc', e := Idle, Got(id, known, None);
        } else {
          pc' := Load(id, i + 1, known);
        }
      } else {
        FollowLink(h, m, ScanBucket(id, i), cur);
        if Deref(m, cur).id == id {
          pc', e := Idle, Got(id, known, Some(Deref(m, cur).stack));
        } else {
          pc' := Scan(id, i, Deref(m, cur).link, known);
        }
      }
  }

  /** The word of a bucket that nobody has locked is even. */
  lemma {:induction false} FreeBucket(h: Hash, s: State, t: nat)
    requires Inv(h, s) && Free(h, s, t) && Putting(s.threads[t]) && !Holds(s.threads[t])
    ensures Shape(s.memory) && s.memory.tab[Bucket(h, s.threads[t].stack)] % 2 == 0
  {
    var b := Bucket(h, s.threads[t].stack);
    hide Inv;
    ExclusionNow(h, s, b);
  }

  lemma {:induction false} StepOn(h: Hash, s: State, t: nat) returns (m': Memory, pc': Pc, e: Event)
    requires Inv(h, s) && Free(h, s, t) && !s.threads[t].Idle?
    ensures Shape(s.memory) && ThreadStep(h, s.memory, s.threads[t], m', pc', e, s.puts)
    ensures Onward(h, s.memory, s.threads[t], m', pc', e)
  {
    hide SearchingStep, LockingStep, AddingStep, GetStep, Onward, MemoryOk, ThreadOk, Apart;
    var pc := s.threads[t];
    ShapeKept(h, s.memory);
    if pc.Search? || pc.Spin? || pc.Cas? {
      FreeBucket(h, s, t);
      m', pc', e := SearchOn(h, s.memory, pc);
    } else if pc.Research? || pc.Draw? || pc.Check? {
      CountersRoomy(h, s);
      m', pc', e := LockedOn(h, s.memory, pc);
    } else if HasId(pc) {
      m', pc', e := AddingOn(h, s.memory, pc);
    } else {
      m', pc', e := GettingOn(h, s.memory, pc, s.puts);
    }
  }

  /** What thread t's step makes of the state. */
  ghost function Stepped(s: State, t: nat, m': Memory, pc': Pc, e: Event): State
  {
    State(m', s.threads[t := pc'], if e.Put? then s.puts + {(e.stack, e.id)} else s.puts,
      if e.Got? then s.gets + {e} else s.gets, e.Die?)
  }

  /** From every state of every run: a thread in the middle of a call, and whose bucket no other thread has locked, comes
      to the end of that call if the others leave it alone; or the process dies because the part's numbers are used up. */
  lemma {:induction false} CallEnds(h: Hash, s: State, t: nat) returns (ss: seq<State>, e: Event)
    requires Inv(h, s) && !s.dead && Free(h, s, t) && !s.threads[t].Idle?
    ensures Alone(h, t, ss) && ss[0] == s
    ensures var last := ss[|ss| - 1];
      && Shape(last.memory)
      && (if last.dead then Overdrawn(h, last.memory, s.threads[t])
          else t in last.threads && last.threads[t] == Idle && Ends(s.threads[t], e))
      && (e.Put? ==> (e.stack, e.id) in last.puts) && (e.Got? ==> e in last.gets)
    decreases Phase(h, s.memory, s.threads[t]), Ahead(s.memory, s.threads[t])
  {
    hide Inv, ThreadStep, Phase, Ahead, Overdrawn;
    var m', pc';
    m', pc', e := StepOn(h, s, t);
    var s' := Stepped(s, t, m', pc', e);
    assert Next(h, s, s', t, e);
    assert StepBy(h, t, s, s');
    if e == Die || pc' == Idle {
      ss := [s, s'];
      DiesThere(h, s, s', t, e);
    } else {
      NextInv(h, s, s', t, e);
      StillFree(h, s, t, s', pc');
      var rest;
      rest, e := CallEnds(h, s', t);
      ss := [s] + rest;
      AloneFirst(h, t, s, rest);
      if rest[|rest| - 1].dead { SameOverdrawn(h, rest[|rest| - 1].memory, s.threads[t], pc'); }
    }
  }

  lemma {:induction false} SameOverdrawn(h: Hash, m: Memory, pc: Pc, pc': Pc)
    requires Shape(m) && SameCall(pc, pc') && Overdrawn(h, m, pc')
    ensures Overdrawn(h, m, pc)
  {
  }

  lemma {:induction false} DiesThere(h: Hash, s: State, s': State, t: nat, e: Event)
    requires Inv(h, s) && Next(h, s, s', t, e)
    ensures Shape(s'.memory) && (e == Die && Overdrawn(h, s.memory, s.threads[t]) ==> Overdrawn(h, s'.memory, s.threads[t]))
  {
    hide ThreadStep, Kept, ThreadsOk, LogOk, CountersOk, LocksOk;
    StepKept(h, s, s', t, e);
    CountsUp(h, s.memory, s.threads[t], s'.memory, s'.threads[t], e);
  }

  lemma {:induction false} CountsUp(h: Hash, m: Memory, pc: Pc, m': Memory, pc': Pc, e: Event)
    requires Shape(m) && Kept(h, m, pc, m', pc', e)
    ensures Shape(m') && forall p: nat :: p < PART_COUNT ==> m'.counters[p] >= m.counters[p]
  {
    hide AllOk, EventOk, Grows, LockMoves, OtherOk;
  }

  lemma {:induction false} StillFree(h: Hash, s: State, t: nat, s': State, pc': Pc)
    requires Free(h, s, t) && s'.threads == s.threads[t := pc'] && SameCall(s.threads[t], pc')
    ensures Free(h, s', t)
  {
    forall u | u != t && Putting(pc') ensures !Owns(h, s'.threads, u, Bucket(h, pc'.stack)) {
      assert !Owns(h, s.threads, u, Bucket(h, pc'.stack));
    }
  }

  lemma {:induction false} AloneFirst(h: Hash, t: nat, s: State, rest: seq<State>)
    requires Alone(h, t, rest) && StepBy(h, t, s, rest[0])
    ensures Alone(h, t, [s] + rest)
  {
    hide StepBy;
    var ss := [s] + rest;
    forall i | 0 < i < |ss| ensures StepBy(h, t, ss[i - 1], ss[i]) {
      assert ss[i] == rest[i - 1];
      if i > 1 { assert ss[i - 1] == rest[i - 2]; }
    }
  }

  /** In terms of runs. */
  lemma {:induction false} CallsEnd(h: Hash, run: seq<State>, i: nat, t: nat) returns (ss: seq<State>, e: Event)
    requires IsRun(h, run) && i < |run| && !run[i].dead && Free(h, run[i], t) && !run[i].threads[t].Idle?
    ensures Alone(h, t, ss) && ss[0] == run[i]
    ensures var last := ss[|ss| - 1];
      && Shape(last.memory)
      && (if last.dead then Overdrawn(h, last.memory, run[i].threads[t])
          else t in last.threads && last.threads[t] == Idle && Ends(run[i].threads[t], e))
      && (e.Put? ==> (e.stack, e.id) in last.puts) && (e.Got? ==> e in last.gets)
  {
    RunInv(h, run, i);
    hide Inv, IsRun;
    ss, e := CallEnds(h, run[i], t);
  }
}
