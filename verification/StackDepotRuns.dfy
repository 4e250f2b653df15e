/** The stack depot as a whole: any number of threads, any interleaving, runs of any length. */
module StackDepotRuns {
  import opened Options
  import opened StackDepot

  /** puts and gets are history: what calls have returned so far.  dead: a CHECK has failed. */
  datatype State = State(
    memory: Memory,
    threads: map<nat, Pc>,
    puts: set<(Stack, nat)>,
    gets: set<Event>,
    dead: bool)

  /** StackDepotPut before it holds the lock. */
  ghost predicate SearchingStep(h: Hash, m: Memory, pc: Pc, m': Memory, pc': Pc, e: Event)
    requires Shape(m)
  {
    || (exists stack :: StartPut(h, m, pc, m', pc', e, stack))
    || SearchStep(h, m, pc, m', pc', e)
    || SpinStep(h, m, pc, m', pc', e)
    || CasFails(h, m, pc, m', pc', e)
  }

  /** Taking the lock, and finding the stack after all or not. */
  ghost predicate LockingStep(h: Hash, m: Memory, pc: Pc, m': Memory, pc': Pc, e: Event)
    requires Shape(m)
  {
    || CasSucceeds(h, m, pc, m', pc', e)
    || ResearchStep(h, m, pc, m', pc', e)
    || ResearchFinds(h, m, pc, m', pc', e)
    || DrawStep(h, m, pc, m', pc', e)
  }

  /** Adding the stack. */
  ghost predicate AddingStep(h: Hash, m: Memory, pc: Pc, m': Memory, pc': Pc, e: Event)
    requires Shape(m)
  {
    || CheckStep(h, m, pc, m', pc', e)
    || (exists node, garbage :: AllocStep(h, m, pc, m', pc', e, node, garbage))
    || FillStep(h, m, pc, m', pc', e)
    || PublishStep(h, m, pc, m', pc', e)
  }

  ghost predicate GetStep(m: Memory, pc: Pc, m': Memory, pc': Pc, e: Event, puts: set<(Stack, nat)>)
    requires Shape(m)
  {
    || (exists id :: StartGet(m, pc, m', pc', e, id, puts))
    || LoadStep(m, pc, m', pc', e)
    || ScanStep(m, pc, m', pc', e)
  }

  ghost predicate ThreadStep(h: Hash, m: Memory, pc: Pc, m': Memory, pc': Pc, e: Event, puts: set<(Stack, nat)>)
    requires Shape(m)
  {
    || SearchingStep(h, m, pc, m', pc', e)
    || LockingStep(h, m, pc, m', pc', e)
    || AddingStep(h, m, pc, m', pc', e)
    || GetStep(m, pc, m', pc', e, puts)
  }

  /** Thread t takes a step of the machine that ends with event e. */
  ghost predicate Next(h: Hash, s: State, s': State, t: nat, e: Event)
    requires Shape(s.memory)
  {
    && !s.dead && t in s.threads && t in s'.threads
    && ThreadStep(h, s.memory, s.threads[t], s'.memory, s'.threads[t], e, s.puts)
    && s'.threads == s.threads[t := s'.threads[t]]
    && s'.puts == (if e.Put? then s.puts + {(e.stack, e.id)} else s.puts)
    && s'.gets == (if e.Got? then s.gets + {e} else s.gets)
    && s'.dead == e.Die?
  }

  ghost predicate Init(s: State)
  {
    && Shape(s.memory)
    && s.memory.heap == map[] && s.memory.names == map[]
    && (forall b: nat :: b < TAB_SIZE ==> s.memory.tab[b] == 0 && s.memory.chains[b] == [])
    && (forall p: nat :: p < PART_COUNT ==> s.memory.counters[p] == 0)
    && (forall t :: t in s.threads ==> s.threads[t] == Idle)
    && s.puts == {} && s.gets == {} && !s.dead
  }

  // ----- The invariant

  ghost predicate AllApart(h: Hash, threads: map<nat, Pc>)
  {
    forall t, u :: t in threads && u in threads && t != u ==> Apart(h, threads[t], threads[u])
  }

  ghost predicate ThreadsOk(h: Hash, s: State)
    requires Shape(s.memory)
  {
    && (forall t :: t in s.threads ==> ThreadOk(h, s.memory, s.threads[t]))
    && AllApart(h, s.threads)
  }

  ghost predicate LogOk(s: State)
  {
    && (forall p :: p in s.puts ==> EventOk(s.memory, Put(p.0, p.1)))
    && (forall g :: g in s.gets ==> g.Got? && EventOk(s.memory, g))
  }

  /** Thread t has drawn number n of part p and is about to fail CHECK_LT(id, kMaxId). */
  ghost predicate Doomed(h: Hash, threads: map<nat, Pc>, p: nat, n: nat, t: nat)
  {
    t in threads && threads[t].Check? && Part(Bucket(h, threads[t].stack)) == p && threads[t].number == n
  }

  /** Every number past the last usable one is still with the thread that drew it. */
  ghost predicate CountersOk(h: Hash, s: State)
    requires Shape(s.memory)
  {
    forall p: nat, n: nat :: p < PART_COUNT && MAX_ID <= n <= s.memory.counters[p] ==>
      Taken(h, s.threads, p, n)
  }

  ghost predicate Taken(h: Hash, threads: map<nat, Pc>, p: nat, n: nat)
  {
    exists t :: Doomed(h, threads, p, n, t)
  }

  /** Thread t is between lock() and unlock() of bucket b. */
  ghost predicate Owns(h: Hash, threads: map<nat, Pc>, t: nat, b: nat)
  {
    t in threads && Holds(threads[t]) && Bucket(h, threads[t].stack) == b
  }

  ghost predicate Owned(h: Hash, threads: map<nat, Pc>, b: nat) { exists t :: Owns(h, threads, t, b) }

  /** A bucket whose lock bit is set is some thread's. */
  ghost predicate LocksOk(h: Hash, s: State)
    requires Shape(s.memory)
  {
    forall b: nat :: b < TAB_SIZE && Bit(s.memory.tab[b]) ==> Owned(h, s.threads, b)
  }

  ghost predicate Inv(h: Hash, s: State)
  {
    MemoryOk(h, s.memory) && ThreadsOk(h, s) && LogOk(s) && CountersOk(h, s) && LocksOk(h, s)
  }

  lemma {:induction false} InitInv(h: Hash, s: State)
    requires Init(s)
    ensures Inv(h, s)
  {
  }

  // ----- The 32-bit counters do not wrap

  /** The buckets locked by the threads with numbers from lo up to hi: one for each. */
  lemma {:induction false} LockedBuckets(h: Hash, threads: map<nat, Pc>, p: nat, lo: nat, hi: nat) returns (buckets: set<nat>)
    requires AllApart(h, threads) && lo <= hi
    requires forall n: nat :: lo <= n < hi ==> Taken(h, threads, p, n)
    ensures |buckets| == hi - lo
    ensures forall b :: b in buckets ==> Locked(h, threads, p, lo, hi, b)
    decreases hi
  {
    buckets := {};
    if lo < hi {
      buckets := LockedBuckets(h, threads, p, lo, hi - 1);
      assert Taken(h, threads, p, hi - 1);
      var t :| Doomed(h, threads, p, hi - 1, t);
      var b := Bucket(h, threads[t].stack);
      forall c | c in buckets ensures c != b && Locked(h, threads, p, lo, hi, c) {
        var n, u := LockedElsewhere(h, threads, p, lo, hi, c, t);
        assert Doomed(h, threads, p, n, u);
      }
      assert Locked(h, threads, p, lo, hi, b);
      buckets := buckets + {b};
    }
  }

  lemma {:induction false} LockedElsewhere(h: Hash, threads: map<nat, Pc>, p: nat, lo: nat, hi: nat, c: nat, t: nat)
    returns (n: nat, u: nat)
    requires AllApart(h, threads) && lo < hi && Locked(h, threads, p, lo, hi - 1, c)
    requires Doomed(h, threads, p, hi - 1, t)
    ensures lo <= n < hi - 1 && Doomed(h, threads, p, n, u) && Bucket(h, threads[u].stack) == c
    ensures c != Bucket(h, threads[t].stack)
  {
    n, u :| lo <= n < hi - 1 && Doomed(h, threads, p, n, u) && Bucket(h, threads[u].stack) == c;
    assert Apart(h, threads[t], threads[u]);
  }

  ghost predicate Locked(h: Hash, threads: map<nat, Pc>, p: nat, lo: nat, hi: nat, b: nat)
  {
    exists n: nat, t: nat :: lo <= n < hi && Doomed(h, threads, p, n, t) && Bucket(h, threads[t].stack) == b
  }

  lemma {:induction false} RangeSize(buckets: set<nat>, lo: nat, hi: nat)
    requires lo <= hi && forall b :: b in buckets ==> lo <= b < hi
    ensures |buckets| <= hi - lo
    decreases hi - lo
  {
    if lo == hi {
      assert buckets == {};
    } else {
      RangeSize(buckets - {hi - 1}, lo, hi - 1);
    }
  }

  /** A part has 4096 buckets, so no more than that many threads can have drawn a number too big. */
  lemma {:induction false} CountersBounded(h: Hash, s: State, p: nat)
    requires Inv(h, s) && p < PART_COUNT
    ensures s.memory.counters[p] < MAX_ID + PART_SIZE
  {
    var top := s.memory.counters[p];
    if top >= MAX_ID {
      var buckets := LockedBuckets(h, s.threads, p, MAX_ID, top + 1);
      forall b | b in buckets ensures p * PART_SIZE <= b < p * PART_SIZE + PART_SIZE {
        assert Locked(h, s.threads, p, MAX_ID, top + 1, b);
      }
      RangeSize(buckets, p * PART_SIZE, p * PART_SIZE + PART_SIZE);
    }
  }

  lemma {:induction false} CountersRoomy(h: Hash, s: State)
    requires Inv(h, s)
    ensures Roomy(s.memory)
  {
    forall p: nat | p < PART_COUNT ensures s.memory.counters[p] + 1 < WORD {
      CountersBounded(h, s, p);
    }
  }

  // ----- Every step keeps the invariant

  lemma {:induction false} SearchingKeeps(h: Hash, m: Memory, pc: Pc, m': Memory, pc': Pc, e: Event)
    requires MemoryOk(h, m) && ThreadOk(h, m, pc) && SearchingStep(h, m, pc, m', pc', e)
    ensures Kept(h, m, pc, m', pc', e)
  {
    if SearchStep(h, m, pc, m', pc', e) {
      KeepSearch(h, m, pc, m', pc', e);
    } else if SpinStep(h, m, pc, m', pc', e) || CasFails(h, m, pc, m', pc', e) {
      KeepSpin(h, m, pc, m', pc', e);
    } else {
      var stack :| StartPut(h, m, pc, m', pc', e, stack);
      KeepStartPut(h, m, pc, m', pc', e, stack);
    }
  }

  lemma {:induction false} LockingKeeps(h: Hash, m: Memory, pc: Pc, m': Memory, pc': Pc, e: Event)
    requires MemoryOk(h, m) && ThreadOk(h, m, pc) && Roomy(m) && LockingStep(h, m, pc, m', pc', e)
    ensures Kept(h, m, pc, m', pc', e)
  {
    if CasSucceeds(h, m, pc, m', pc', e) {
      KeepCas(h, m, pc, m', pc', e);
    } else if ResearchStep(h, m, pc, m', pc', e) {
      KeepResearch(h, m, pc, m', pc', e);
    } else if ResearchFinds(h, m, pc, m', pc', e) {
      KeepFinds(h, m, pc, m', pc', e);
    } else {
      KeepDraw(h, m, pc, m', pc', e);
    }
  }

  lemma {:induction false} AddingKeeps(h: Hash, m: Memory, pc: Pc, m': Memory, pc': Pc, e: Event)
    requires MemoryOk(h, m) && ThreadOk(h, m, pc) && AddingStep(h, m, pc, m', pc', e)
    ensures Kept(h, m, pc, m', pc', e)
  {
    if CheckStep(h, m, pc, m', pc', e) {
      KeepCheck(h, m, pc, m', pc', e);
    } else if FillStep(h, m, pc, m', pc', e) {
      KeepFill(h, m, pc, m', pc', e);
    } else if PublishStep(h, m, pc, m', pc', e) {
      KeepPublish(h, m, pc, m', pc', e);
    } else {
      var node, garbage :| AllocStep(h, m, pc, m', pc', e, node, garbage);
      KeepAlloc(h, m, pc, m', pc', e, node, garbage);
    }
  }

  lemma {:induction false} GetStepKeeps(h: Hash, m: Memory, pc: Pc, m': Memory, pc': Pc, e: Event, puts: set<(Stack, nat)>)
    requires MemoryOk(h, m) && ThreadOk(h, m, pc) && GetStep(m, pc, m', pc', e, puts)
    requires forall p :: p in puts ==> EventOk(m, Put(p.0, p.1))
    ensures Kept(h, m, pc, m', pc', e)
  {
    if LoadStep(m, pc, m', pc', e) {
      KeepLoad(h, m, pc, m', pc', e);
    } else if ScanStep(m, pc, m', pc', e) {
      KeepScan(h, m, pc, m', pc', e);
    } else {
      var id :| StartGet(m, pc, m', pc', e, id, puts);
      KeepStartGet(h, m, pc, m', pc', e, id, puts);
    }
  }

  lemma {:induction false} StepKept(h: Hash, s: State, s': State, t: nat, e: Event)
    requires Inv(h, s) && Next(h, s, s', t, e)
    ensures Kept(h, s.memory, s.threads[t], s'.memory, s'.threads[t], e)
  {
    CountersRoomy(h, s);
    if SearchingStep(h, s.memory, s.threads[t], s'.memory, s'.threads[t], e) {
      SearchingKeeps(h, s.memory, s.threads[t], s'.memory, s'.threads[t], e);
    } else if LockingStep(h, s.memory, s.threads[t], s'.memory, s'.threads[t], e) {
      LockingKeeps(h, s.memory, s.threads[t], s'.memory, s'.threads[t], e);
    } else if AddingStep(h, s.memory, s.threads[t], s'.memory, s'.threads[t], e) {
      AddingKeeps(h, s.memory, s.threads[t], s'.memory, s'.threads[t], e);
    } else {
      GetStepKeeps(h, s.memory, s.threads[t], s'.memory, s'.threads[t], e, s.puts);
    }
  }

  lemma {:induction false} ApartSymmetric(h: Hash, p: Pc, q: Pc)
    requires Apart(h, p, q)
    ensures Apart(h, q, p)
  {
  }

  lemma {:induction false} OthersKept(h: Hash, s: State, s': State, t: nat, e: Event, u: nat)
    requires Inv(h, s) && Next(h, s, s', t, e) && u in s.threads && u != t
    requires Kept(h, s.memory, s.threads[t], s'.memory, s'.threads[t], e)
    ensures s'.threads[u] == s.threads[u]
    ensures ThreadOk(h, s'.memory, s'.threads[u])
    ensures Apart(h, s'.threads[t], s'.threads[u]) && Apart(h, s'.threads[u], s'.threads[t])
  {
    assert OtherOk(h, s.memory, s.threads[t], s'.memory, s'.threads[t], s.threads[u]);
    ApartSymmetric(h, s'.threads[t], s'.threads[u]);
  }

  lemma {:induction false} ThreadsKept(h: Hash, s: State, s': State, t: nat, e: Event)
    requires Inv(h, s) && Next(h, s, s', t, e)
    requires Kept(h, s.memory, s.threads[t], s'.memory, s'.threads[t], e)
    ensures ThreadsOk(h, s')
  {
    forall u | u in s.threads && u != t
      ensures s'.threads[u] == s.threads[u] && ThreadOk(h, s'.memory, s'.threads[u])
      ensures Apart(h, s'.threads[t], s'.threads[u]) && Apart(h, s'.threads[u], s'.threads[t])
    {
      OthersKept(h, s, s', t, e, u);
    }
  }

  lemma {:induction false} EventKept(m: Memory, m': Memory, e: Event)
    requires Grows(m, m') && EventOk(m, e)
    ensures EventOk(m', e)
  {
  }

  lemma {:induction false} LogKept(h: Hash, s: State, s': State, t: nat, e: Event)
    requires Inv(h, s) && Next(h, s, s', t, e)
    requires Kept(h, s.memory, s.threads[t], s'.memory, s'.threads[t], e)
    ensures LogOk(s')
  {
    forall p | p in s'.puts ensures EventOk(s'.memory, Put(p.0, p.1)) {
      if p in s.puts { EventKept(s.memory, s'.memory, Put(p.0, p.1)); }
    }
    forall g | g in s'.gets ensures g.Got? && EventOk(s'.memory, g) {
      if g in s.gets { EventKept(s.memory, s'.memory, g); }
    }
  }

  lemma {:induction false} CountersKept(h: Hash, s: State, s': State, t: nat, e: Event)
    requires Inv(h, s) && Next(h, s, s', t, e)
    requires Kept(h, s.memory, s.threads[t], s'.memory, s'.threads[t], e)
    ensures CountersOk(h, s')
  {
    forall p: nat, n: nat | p < PART_COUNT && MAX_ID <= n <= s'.memory.counters[p]
      ensures Taken(h, s'.threads, p, n)
    {
      if n <= s.memory.counters[p] {
        assert Taken(h, s.threads, p, n);
        var u :| Doomed(h, s.threads, p, n, u);
        assert Doomed(h, s'.threads, p, n, u);
      } else {
        assert Doomed(h, s'.threads, p, n, t);
      }
    }
  }

  lemma {:induction false} LocksKept(h: Hash, s: State, s': State, t: nat, e: Event)
    requires Inv(h, s) && Next(h, s, s', t, e)
    requires Kept(h, s.memory, s.threads[t], s'.memory, s'.threads[t], e)
    ensures LocksOk(h, s')
  {
    hide ThreadStep, MemoryOk, ThreadsOk, LogOk, CountersOk, AllOk, EventOk, Grows, CounterMoves, OtherOk, Bit;
    ShapeKept(h, s.memory);
    ShapeKept(h, s'.memory);
    forall b: nat | b < TAB_SIZE && Bit(s'.memory.tab[b]) ensures Owned(h, s'.threads, b) {
      if Bit(s.memory.tab[b]) {
        var u :| Owns(h, s.threads, u, b);
        assert Owns(h, s'.threads, u, b);
      } else {
        assert Owns(h, s'.threads, t, b);
      }
    }
  }

  lemma {:induction false} NextInv(h: Hash, s: State, s': State, t: nat, e: Event)
    requires Inv(h, s) && Next(h, s, s', t, e)
    ensures Inv(h, s')
  {
    StepKept(h, s, s', t, e);
    ThreadsKept(h, s, s', t, e);
    LogKept(h, s, s', t, e);
    CountersKept(h, s, s', t, e);
    LocksKept(h, s, s', t, e);
  }

  // ----- Runs

  ghost predicate StepExists(h: Hash, s: State, s': State)
  {
    Shape(s.memory) && exists t, e :: Next(h, s, s', t, e)
  }

  ghost predicate IsRun(h: Hash, run: seq<State>)
  {
    && |run| > 0 && Init(run[0])
    && forall i {:trigger run[i]} :: 0 < i < |run| ==> StepExists(h, run[i - 1], run[i])
  }

  lemma {:induction false} RunInv(h: Hash, run: seq<State>, i: nat)
    requires IsRun(h, run) && i < |run|
    ensures Inv(h, run[i])
  {
    if i == 0 {
      InitInv(h, run[0]);
    } else {
      RunInv(h, run, i - 1);
      assert StepExists(h, run[i - 1], run[i]);
      var t, e :| Next(h, run[i - 1], run[i], t, e);
      NextInv(h, run[i - 1], run[i], t, e);
    }
  }

  /** Two ids that stand for the same stack are the same id. */
  lemma {:induction false} OneIdPerStack(h: Hash, m: Memory, i: nat, j: nat)
    requires MemoryOk(h, m) && i in m.names && j in m.names && m.names[i].stack == m.names[j].stack
    ensures i == j
  {
    NamedNode(h, m, i);
    NamedNode(h, m, j);
    assert Distinct(m, Bucket(h, m.names[i].stack));
  }

  lemma {:induction false} PutsAgreeNow(h: Hash, s: State, p: (Stack, nat), q: (Stack, nat))
    requires Inv(h, s) && p in s.puts && q in s.puts
    ensures p.0 == q.0 <==> p.1 == q.1
    ensures p.0 == [] <==> p.1 == 0
    ensures p.1 < SIGN
  {
    assert EventOk(s.memory, Put(p.0, p.1)) && EventOk(s.memory, Put(q.0, q.1));
    if p.0 == q.0 && p.0 != [] {
      OneIdPerStack(h, s.memory, p.1, q.1);
    }
  }

  /** Whatever the threads do: two calls of StackDepotPut return the same id exactly when they were
      given the same stack, the id is zero exactly for the empty stack, and the top bit is clear. */
  lemma {:induction false} PutsAgree(h: Hash, run: seq<State>, i: nat, p: (Stack, nat), q: (Stack, nat))
    requires IsRun(h, run) && i < |run| && p in run[i].puts && q in run[i].puts
    ensures p.0 == q.0 <==> p.1 == q.1
    ensures p.0 == [] <==> p.1 == 0
    ensures p.1 < SIGN
  {
    RunInv(h, run, i);
    PutsAgreeNow(h, run[i], p, q);
  }

  lemma {:induction false} GetsAgreeNow(h: Hash, s: State, g: Event)
    requires Inv(h, s) && g in s.gets
    ensures g.Got?
    ensures g.id != 0 ==> forall stack :: stack in g.known ==> g.result == Some(stack)
    ensures g.id != 0 && g.result.Some? ==> forall p :: p in s.puts && p.1 == g.id ==> g.result == Some(p.0)
  {
    assert EventOk(s.memory, g);
    if g.id != 0 && g.result.Some? {
      forall p | p in s.puts && p.1 == g.id ensures g.result == Some(p.0) {
        assert EventOk(s.memory, Put(p.0, p.1));
      }
    }
  }

  /** StackDepotGet returns the stack for which a call of StackDepotPut has returned the id, if that
      call ended before this one began; and it never returns any other stack, whenever the call of
      StackDepotPut ends. */
  lemma {:induction false} GetsAgree(h: Hash, run: seq<State>, i: nat, g: Event)
    requires IsRun(h, run) && i < |run| && g in run[i].gets
    ensures g.Got?
    ensures g.id != 0 ==> forall stack :: stack in g.known ==> g.result == Some(stack)
    ensures g.id != 0 && g.result.Some? ==> forall p :: p in run[i].puts && p.1 == g.id ==> g.result == Some(p.0)
  {
    RunInv(h, run, i);
    GetsAgreeNow(h, run[i], g);
  }

  lemma {:induction false} ExclusionNow(h: Hash, s: State, b: nat)
    requires Inv(h, s) && b < TAB_SIZE
    ensures Shape(s.memory) && (Bit(s.memory.tab[b]) <==> Owned(h, s.threads, b))
    ensures forall t, u :: Owns(h, s.threads, t, b) && Owns(h, s.threads, u, b) ==> t == u
  {
    forall t | Owns(h, s.threads, t, b) ensures Bit(s.memory.tab[b]) {
      assert ThreadOk(h, s.memory, s.threads[t]);
    }
    forall t, u | Owns(h, s.threads, t, b) && Owns(h, s.threads, u, b) ensures t == u {
      assert t != u ==> Apart(h, s.threads[t], s.threads[u]);
    }
  }

  /** At most one thread is between lock() and unlock() of a bucket, and the lowest bit of the bucket's word is set if and
      only if there is one. */
  lemma {:induction false} MutualExclusion(h: Hash, run: seq<State>, i: nat, b: nat)
    requires IsRun(h, run) && i < |run| && b < TAB_SIZE
    ensures Shape(run[i].memory) && (run[i].memory.tab[b] % 2 == 1 <==> Owned(h, run[i].threads, b))
    ensures forall t, u :: Owns(h, run[i].threads, t, b) && Owns(h, run[i].threads, u, b) ==> t == u
  {
    RunInv(h, run, i);
    hide Inv;
    ExclusionNow(h, run[i], b);
  }

  lemma {:induction false} ReadsNow(h: Hash, s: State, t: nat)
    requires Inv(h, s) && t in s.threads
    ensures var pc := s.threads[t];
      && (pc.Search? || pc.Research? ==> Published(h, s.memory, Bucket(h, pc.stack), pc.cur))
      && (pc.Scan? ==> pc.id < SIGN && pc.i < PART_SIZE && Published(h, s.memory, ScanBucket(pc.id, pc.i), pc.cur))
  {
    assert ThreadOk(h, s.memory, s.threads[t]);
  }

  /** No thread follows a pointer to anything but a published node of the bucket it looks at. */
  lemma {:induction false} ReadsPublished(h: Hash, run: seq<State>, i: nat, t: nat)
    requires IsRun(h, run) && i < |run| && t in run[i].threads
    ensures Shape(run[i].memory)
    ensures var pc := run[i].threads[t];
      && (pc.Search? || pc.Research? ==> Published(h, run[i].memory, Bucket(h, pc.stack), pc.cur))
      && (pc.Scan? ==> pc.id < SIGN && pc.i < PART_SIZE && Published(h, run[i].memory, ScanBucket(pc.id, pc.i), pc.cur))
  {
    RunInv(h, run, i);
    ReadsNow(h, run[i], t);
  }
}
