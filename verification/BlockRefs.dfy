/** BlocksRuntime/runtime.c, without garbage collection: the reference count of a heap block and of a
heap byref.

The count is the low 16 bits of the flags word.  It is raised and lowered by a read and a
compare-and-swap, and sticks at 0xffff.  Threads own references; each step of the machine is one
access to the flags word by one thread.  A reference is a token: calls that drop one consume it,
calls that add one create it, and references pass freely between threads. */
module BlockRefs {
  import opened Bits

  const REFCOUNT_MASK := 0xffff
  const NEEDS_FREE := 0x100_0000
  const COUNTS := 0x1_0000
  const WORD := 0x1_0000_0000

  /** `flags & BLOCK_REFCOUNT_MASK`. */
  function Count(flags: nat): nat { flags % COUNTS }
  /** Everything else in the word. */
  function Marks(flags: nat): nat { flags / COUNTS }
  function Freeable(flags: nat): bool { flags / NEEDS_FREE % 2 == 1 }

  /** Blocks and byrefs go through the same steps, up to one more read when a byref is released. */
  datatype Kind = Block | Byref

  datatype Pc =
    | Idle
    // _Block_copy, _Block_byref_assign_copy: the test of the flags, then latching_incr_int
    | CopyTest(token: nat)
    | IncrRead(token: nat)
    | IncrCas(token: nat, seen: nat)
    // _Block_release, _Block_byref_release: latching_decr_int, then the disposal
    | ReleaseTest(token: nat)
    | DecrRead(token: nat)
    | DecrCas(token: nat, seen: nat)
    | LastTest
    | Disposing
    | Freeing

  /** owners: which thread owns which reference.  disposals and freed are history. */
  datatype State = State(
    flags: nat,
    owners: map<nat, nat>,
    threads: map<nat, Pc>,
    disposals: nat,
    freed: bool)

  // ----- The code

  function Goto(s: State, t: nat, pc: Pc): State { s.(threads := s.threads[t := pc]) }

  /** A call may begin with any reference that its thread owns. */
  ghost predicate Begin(k: Kind, s: State, s': State, t: nat, pc: Pc, token: nat)
  {
    && pc == Idle && token in s.owners && s.owners[token] == t
    && (s' == Goto(s, t, CopyTest(token)) || s' == Goto(s, t, if k.Byref? then ReleaseTest(token) else DecrRead(token)))
  }

  /** An idle thread hands a reference to another thread. */
  ghost predicate Pass(s: State, s': State, t: nat, pc: Pc, token: nat, u: nat)
  {
    && pc == Idle && token in s.owners && s.owners[token] == t && u in s.threads
    && s' == s.(owners := s.owners[token := u])
  }

  /** `if (aBlock->flags & BLOCK_NEEDS_FREE)`: otherwise the block is not on the heap. */
  ghost predicate TestCopy(s: State, s': State, t: nat, pc: Pc)
  {
    pc.CopyTest? && s' == Goto(s, t, if Freeable(s.flags) then IncrRead(pc.token) else Idle)
  }

  /** A latched count is left alone; the call still returns the block. */
  ghost predicate ReadIncr(s: State, s': State, t: nat, pc: Pc, added: nat)
  {
    && pc.IncrRead? && added !in s.owners
    && s' == if Count(s.flags) == REFCOUNT_MASK then Goto(s.(owners := s.owners[added := t]), t, Idle)
             else Goto(s, t, IncrCas(pc.token, s.flags))
  }

  ghost predicate CasIncr(s: State, s': State, t: nat, pc: Pc, added: nat)
  {
    && pc.IncrCas? && added !in s.owners
    && s' == if s.flags == pc.seen then Goto(s.(flags := (pc.seen + 1) % WORD, owners := s.owners[added := t]), t, Idle)
             else Goto(s, t, IncrRead(pc.token))
  }

  /** _Block_byref_release looks at the flags before it decrements. */
  ghost predicate TestRelease(s: State, s': State, t: nat, pc: Pc)
  {
    pc.ReleaseTest? && s' == Goto(s, t, if Freeable(s.flags) && Count(s.flags) > 0 then DecrRead(pc.token) else Idle)
  }

  ghost predicate ReadDecr(s: State, s': State, t: nat, pc: Pc)
  {
    && pc.DecrRead?
    && s' == if Count(s.flags) == REFCOUNT_MASK then Goto(s.(owners := s.owners - {pc.token}), t, Idle)
             else if Count(s.flags) == 0 then Goto(s.(owners := s.owners - {pc.token}), t, LastTest)
             else Goto(s, t, DecrCas(pc.token, s.flags))
  }

  ghost predicate CasDecr(s: State, s': State, t: nat, pc: Pc)
  {
    && pc.DecrCas?
    && s' == if s.flags != pc.seen then Goto(s, t, DecrRead(pc.token))
             else Goto(s.(flags := (pc.seen + WORD - 1) % WORD, owners := s.owners - {pc.token}), t,
               if Count((pc.seen + WORD - 1) % WORD) == 0 then LastTest else Idle)
  }

  /** The count has reached zero: test the flags, run the dispose helper, free. */
  ghost predicate TestLast(s: State, s': State, t: nat, pc: Pc)
  {
    pc.LastTest? && s' == Goto(s, t, if Freeable(s.flags) then Disposing else Idle)
  }

  ghost predicate Dispose(s: State, s': State, t: nat, pc: Pc)
  {
    pc.Disposing? && s' == Goto(s.(disposals := s.disposals + 1), t, Freeing)
  }

  ghost predicate Free(s: State, s': State, t: nat, pc: Pc)
  {
    pc.Freeing? && s' == Goto(s.(freed := true), t, Idle)
  }

  ghost predicate Step(k: Kind, s: State, s': State, t: nat)
  {
    && t in s.threads
    && var pc := s.threads[t];
       || (exists token :: Begin(k, s, s', t, pc, token))
       || (exists token, u :: Pass(s, s', t, pc, token, u))
       || TestCopy(s, s', t, pc)
       || (exists added :: ReadIncr(s, s', t, pc, added))
       || (exists added :: CasIncr(s, s', t, pc, added))
       || TestRelease(s, s', t, pc)
       || ReadDecr(s, s', t, pc)
       || CasDecr(s, s', t, pc)
       || TestLast(s, s', t, pc)
       || Dispose(s, s', t, pc)
       || Free(s, s', t, pc)
  }

  // ----- How the object starts

  /** _Block_copy_internal of a stack block: `flags & ~MASK | BLOCK_NEEDS_FREE | 1`. */
  function CopiedFlags(flags: nat): nat
    requires flags < WORD
  {
    Or(Or(flags - Count(flags), NEEDS_FREE), 1)
  }

  /** _Block_byref_assign_copy of a stack byref: `src->flags | BLOCK_NEEDS_FREE | 2`. */
  function ForwardedFlags(flags: nat): nat
    requires flags < WORD
  {
    Or(Or(flags, NEEDS_FREE), 2)
  }

  /** One reference for a new block; two for a new byref: the block that is being copied, and the
      stack frame of the variable. */
  ghost predicate Init(k: Kind, s: State)
  {
    && s.flags < WORD && Freeable(s.flags)
    && Count(s.flags) == (if k.Block? then 1 else 2) == |s.owners|
    && (forall token :: token in s.owners ==> s.owners[token] in s.threads)
    && (forall t :: t in s.threads ==> s.threads[t] == Idle)
    && s.disposals == 0 && !s.freed
  }

  // ----- The invariant

  predicate Working(pc: Pc)
  {
    pc.CopyTest? || pc.IncrRead? || pc.IncrCas? || pc.ReleaseTest? || pc.DecrRead? || pc.DecrCas?
  }

  predicate Last(pc: Pc) { pc.LastTest? || pc.Disposing? || pc.Freeing? }

  ghost predicate ThreadOk(s: State, t: nat, pc: Pc)
  {
    && (Working(pc) ==> pc.token in s.owners && s.owners[pc.token] == t)
    && (pc.IncrCas? ==> Count(pc.seen) < REFCOUNT_MASK)
    && (pc.DecrCas? ==> 0 < Count(pc.seen) < REFCOUNT_MASK)
    && (Last(pc) ==> Count(s.flags) == 0 && !s.freed && s.disposals == (if pc.Freeing? then 1 else 0))
  }

  ghost predicate Inv(s: State)
  {
    && s.flags < WORD && Freeable(s.flags)
    && (Count(s.flags) < REFCOUNT_MASK ==> Count(s.flags) == |s.owners|)
    && (forall t :: t in s.threads ==> ThreadOk(s, t, s.threads[t]))
    && (forall t, u :: t in s.threads && u in s.threads && Last(s.threads[t]) && Last(s.threads[u]) ==> t == u)
    && (s.freed ==> Count(s.flags) == 0 && s.disposals == 1)
    && (!s.freed && (forall t :: t in s.threads ==> !Last(s.threads[t])) ==> Count(s.flags) > 0 && s.disposals == 0)
  }

  lemma {:induction false} InitInv(k: Kind, s: State)
    requires Init(k, s)
    ensures Inv(s)
  {
  }

  /** Counting up or down inside the mask leaves the other flags alone. */
  lemma {:induction false} CountStep(flags: nat)
    requires flags < WORD
    ensures Count(flags) < REFCOUNT_MASK ==>
      (flags + 1) % WORD == flags + 1 && Count(flags + 1) == Count(flags) + 1 && Marks(flags + 1) == Marks(flags)
    ensures Count(flags) > 0 ==> flags > 0 && (flags + WORD - 1) % WORD == flags - 1
    ensures Count(flags) > 0 ==> Count(flags - 1) == Count(flags) - 1 && Marks(flags - 1) == Marks(flags)
  {
  }

  lemma {:induction false} MarksDecide(x: nat, y: nat)
    requires Marks(x) == Marks(y)
    ensures Freeable(x) == Freeable(y) && (x < WORD <==> y < WORD)
  {
    assert x / NEEDS_FREE == Marks(x) / 256 && y / NEEDS_FREE == Marks(y) / 256;
  }

  // ----- Steps

  /** Whoever owns a reference finds the object alive. */
  lemma {:induction false} Alive(s: State, token: nat)
    requires Inv(s) && token in s.owners
    ensures Count(s.flags) > 0 && !s.freed
    ensures forall t :: t in s.threads ==> !Last(s.threads[t])
  {
    assert s.owners.Keys - {token} < s.owners.Keys;
    assert |s.owners| == |s.owners.Keys|;
    assert Count(s.flags) > 0;
  }

  /** A thread moves on without a change to the object. */
  lemma {:induction false} GotoInv(s: State, t: nat, pc': Pc)
    requires Inv(s) && t in s.threads && ThreadOk(s, t, pc') && Last(pc') == Last(s.threads[t])
    ensures Inv(Goto(s, t, pc'))
  {
    var s' := Goto(s, t, pc');
    forall u | u in s'.threads ensures ThreadOk(s', u, s'.threads[u]) {
      assert ThreadOk(s, u, s.threads[u]);
    }
    forall u | u in s.threads ensures Last(s'.threads[u]) == Last(s.threads[u]) {
    }
  }

  lemma {:induction false} KeysGrow(owners: map<nat, nat>, added: nat, t: nat)
    requires added !in owners
    ensures |owners[added := t]| == |owners| + 1
  {
    assert owners[added := t].Keys == owners.Keys + {added};
    assert |owners| == |owners.Keys| && |owners[added := t]| == |owners[added := t].Keys|;
  }

  lemma {:induction false} KeysShrink(owners: map<nat, nat>, token: nat)
    requires token in owners
    ensures |owners - {token}| == |owners| - 1
  {
    assert (owners - {token}).Keys == owners.Keys - {token};
    assert |owners| == |owners.Keys| && |owners - {token}| == |(owners - {token}).Keys|;
  }

  /** Nobody else relies on the count or on the reference that changes. */
  lemma {:induction false} OthersOk(s: State, s': State, t: nat)
    requires Inv(s) && t in s.threads && s'.threads.Keys == s.threads.Keys
    requires forall u :: u in s.threads && u != t ==> s'.threads[u] == s.threads[u]
    requires forall u :: u in s.threads ==> !Last(s.threads[u])
    requires forall token :: token in s.owners && s.owners[token] != t ==> token in s'.owners && s'.owners[token] == s.owners[token]
    ensures forall u :: u in s'.threads && u != t ==> ThreadOk(s', u, s'.threads[u]) && !Last(s'.threads[u])
  {
    forall u | u in s'.threads && u != t ensures ThreadOk(s', u, s'.threads[u]) && !Last(s'.threads[u]) {
      assert ThreadOk(s, u, s.threads[u]);
    }
  }

  /** A reference is added. */
  lemma {:induction false} Added(s: State, s': State, t: nat, added: nat)
    requires Inv(s) && t in s.threads && Working(s.threads[t]) && added !in s.owners
    requires if Count(s.flags) == REFCOUNT_MASK then s'.flags == s.flags else s'.flags == s.flags + 1
    requires s' == Goto(s.(flags := s'.flags, owners := s.owners[added := t]), t, Idle)
    ensures Inv(s')
  {
    assert ThreadOk(s, t, s.threads[t]);
    Alive(s, s.threads[t].token);
    CountStep(s.flags);
    MarksDecide(s.flags, s'.flags);
    KeysGrow(s.owners, added, t);
    OthersOk(s, s', t);
  }

  /** A reference is dropped; the thread that drops the last one goes on to dispose of the object. */
  lemma {:induction false} Dropped(s: State, s': State, t: nat, token: nat)
    requires Inv(s) && t in s.threads && Working(s.threads[t]) && token == s.threads[t].token
    requires if Count(s.flags) == REFCOUNT_MASK then s'.flags == s.flags
      else Count(s.flags) > 0 && s'.flags == s.flags - 1
    requires s' == Goto(s.(flags := s'.flags, owners := s.owners - {token}), t,
      if Count(s'.flags) == 0 then LastTest else Idle)
    ensures Inv(s')
  {
    assert ThreadOk(s, t, s.threads[t]);
    Alive(s, token);
    CountStep(s.flags);
    MarksDecide(s.flags, s'.flags);
    KeysShrink(s.owners, token);
    OthersOk(s, s', t);
  }

  /** The disposal: one thread, once. */
  lemma {:induction false} LastKeeps(s: State, s': State, t: nat)
    requires Inv(s) && t in s.threads
    requires TestLast(s, s', t, s.threads[t]) || Dispose(s, s', t, s.threads[t]) || Free(s, s', t, s.threads[t])
    ensures Inv(s')
  {
    assert ThreadOk(s, t, s.threads[t]);
    forall u | u in s'.threads && u != t ensures ThreadOk(s', u, s'.threads[u]) && !Last(s'.threads[u]) {
      assert ThreadOk(s, u, s.threads[u]);
    }
    assert Last(s.threads[t]) && (s'.freed || Last(s'.threads[t]));
  }

  lemma {:induction false} PassKeeps(s: State, s': State, t: nat, token: nat, u: nat)
    requires Inv(s) && t in s.threads && Pass(s, s', t, s.threads[t], token, u)
    ensures Inv(s')
  {
    assert s'.owners.Keys == s.owners.Keys;
    assert |s.owners| == |s.owners.Keys| && |s'.owners| == |s'.owners.Keys|;
    forall v | v in s'.threads ensures ThreadOk(s', v, s'.threads[v]) {
      assert ThreadOk(s, v, s.threads[v]);
    }
  }

  lemma {:induction false} CopyKeeps(s: State, s': State, t: nat)
    requires Inv(s) && t in s.threads
    requires TestCopy(s, s', t, s.threads[t]) || (exists added :: ReadIncr(s, s', t, s.threads[t], added))
      || (exists added :: CasIncr(s, s', t, s.threads[t], added))
    ensures Inv(s')
  {
    var pc := s.threads[t];
    assert ThreadOk(s, t, pc);
    CountStep(s.flags);
    if TestCopy(s, s', t, pc) {
      GotoInv(s, t, s'.threads[t]);
    } else if exists added :: ReadIncr(s, s', t, pc, added) {
      var added :| ReadIncr(s, s', t, pc, added);
      if Count(s.flags) == REFCOUNT_MASK { Added(s, s', t, added); } else { GotoInv(s, t, IncrCas(pc.token, s.flags)); }
    } else {
      var added :| CasIncr(s, s', t, pc, added);
      if s.flags == pc.seen { Added(s, s', t, added); } else { GotoInv(s, t, IncrRead(pc.token)); }
    }
  }

  lemma {:induction false} ReleaseKeeps(s: State, s': State, t: nat)
    requires Inv(s) && t in s.threads
    requires TestRelease(s, s', t, s.threads[t]) || ReadDecr(s, s', t, s.threads[t]) || CasDecr(s, s', t, s.threads[t])
    ensures Inv(s')
  {
    var pc := s.threads[t];
    assert ThreadOk(s, t, pc);
    Alive(s, pc.token);
    CountStep(s.flags);
    if TestRelease(s, s', t, pc) {
      GotoInv(s, t, DecrRead(pc.token));
    } else if ReadDecr(s, s', t, pc) {
      if Count(s.flags) == REFCOUNT_MASK { Dropped(s, s', t, pc.token); } else { GotoInv(s, t, DecrCas(pc.token, s.flags)); }
    } else {
      if s.flags == pc.seen { Dropped(s, s', t, pc.token); } else { GotoInv(s, t, DecrRead(pc.token)); }
    }
  }

  lemma {:induction false} StepKeeps(k: Kind, s: State, s': State, t: nat)
    requires Inv(s) && Step(k, s, s', t)
    ensures Inv(s')
  {
    var pc := s.threads[t];
    if exists token :: Begin(k, s, s', t, pc, token) {
      assert s' == Goto(s, t, s'.threads[t]);
      GotoInv(s, t, s'.threads[t]);
    } else if exists token, u :: Pass(s, s', t, pc, token, u) {
      var token, u :| Pass(s, s', t, pc, token, u);
      PassKeeps(s, s', t, token, u);
    } else if TestLast(s, s', t, pc) || Dispose(s, s', t, pc) || Free(s, s', t, pc) {
      LastKeeps(s, s', t);
    } else if TestRelease(s, s', t, pc) || ReadDecr(s, s', t, pc) || CasDecr(s, s', t, pc) {
      ReleaseKeeps(s, s', t);
    } else {
      CopyKeeps(s, s', t);
    }
  }

  // ----- Runs

  ghost predicate StepExists(k: Kind, s: State, s': State) { exists t :: Step(k, s, s', t) }

  /** The steps from the object's first state on. */
  ghost predicate IsRun(k: Kind, run: seq<State>)
  {
    && run != [] && Init(k, run[0])
    && forall j {:trigger run[j]} :: 0 < j < |run| ==> StepExists(k, run[j - 1], run[j])
  }

  lemma {:induction false} RunInv(k: Kind, run: seq<State>, i: nat)
    requires IsRun(k, run) && i < |run|
    ensures Inv(run[i])
  {
    hide Inv, Step, Init;
    if i == 0 {
      InitInv(k, run[0]);
    } else {
      RunInv(k, run, i - 1);
      assert StepExists(k, run[i - 1], run[i]);
      var t :| Step(k, run[i - 1], run[i], t);
      StepKeeps(k, run[i - 1], run[i], t);
    }
  }

  /** No step touches the other flags, and a latched count stays latched. */
  lemma {:induction false} StepFlags(k: Kind, s: State, s': State, t: nat)
    requires Inv(s) && Step(k, s, s', t)
    ensures Marks(s'.flags) == Marks(s.flags)
    ensures Count(s.flags) == REFCOUNT_MASK ==> s'.flags == s.flags
  {
    assert ThreadOk(s, t, s.threads[t]);
    CountStep(s.flags);
  }

  /** In every state of every run the flags above the count are those the object started with. */
  lemma {:induction false} FlagsKept(k: Kind, run: seq<State>, i: nat)
    requires IsRun(k, run) && i < |run|
    ensures Marks(run[i].flags) == Marks(run[0].flags)
  {
    hide Inv, Step, Init, Marks;
    if i > 0 {
      FlagsKept(k, run, i - 1);
      RunInv(k, run, i - 1);
      assert StepExists(k, run[i - 1], run[i]);
      var t :| Step(k, run[i - 1], run[i], t);
      StepFlags(k, run[i - 1], run[i], t);
    }
  }

  /** A latched object is never freed, however many references are dropped. */
  lemma {:induction false} LatchedForever(k: Kind, run: seq<State>, i: nat, j: nat)
    requires IsRun(k, run) && i <= j < |run| && Count(run[i].flags) == REFCOUNT_MASK
    ensures run[j].flags == run[i].flags && !run[j].freed && run[j].disposals == 0
  {
    hide Inv, Step, Init, Count;
    if i == j {
      RunInv(k, run, i);
      LatchedAlive(run[i]);
    } else {
      LatchedForever(k, run, i, j - 1);
      RunInv(k, run, j - 1);
      assert StepExists(k, run[j - 1], run[j]);
      var t :| Step(k, run[j - 1], run[j], t);
      StepFlags(k, run[j - 1], run[j], t);
      RunInv(k, run, j);
      LatchedAlive(run[j]);
    }
  }

  lemma {:induction false} LatchedAlive(s: State)
    requires Inv(s) && Count(s.flags) == REFCOUNT_MASK
    ensures !s.freed && s.disposals == 0
  {
    forall t | t in s.threads ensures !Last(s.threads[t]) {
      assert ThreadOk(s, t, s.threads[t]);
    }
  }

  // ----- What a call does

  /** A copy that returns has added a reference of the thread, and no other: it does not return without one. */
  lemma {:induction false} CopyAdds(k: Kind, s: State, s': State, t: nat)
    requires Inv(s) && Step(k, s, s', t) && Copying(s.threads[t]) && !Copying(s'.threads[t])
    ensures s'.threads[t] == Idle
    ensures exists added: nat :: added !in s.owners && s'.owners == s.owners[added := t]
  {
    assert ThreadOk(s, t, s.threads[t]);
  }

  predicate Copying(pc: Pc) { pc.CopyTest? || pc.IncrRead? || pc.IncrCas? }

  predicate Dropping(pc: Pc) { pc.ReleaseTest? || pc.DecrRead? || pc.DecrCas? }

  /** A release that has come past the count has dropped the reference it was called with, and no other; the thread
      goes on to dispose of the object exactly if the count is then zero. */
  lemma {:induction false} ReleaseDrops(k: Kind, s: State, s': State, t: nat)
    requires Inv(s) && Step(k, s, s', t) && Dropping(s.threads[t]) && !Dropping(s'.threads[t])
    ensures s'.owners == s.owners - {s.threads[t].token}
    ensures s'.threads[t] == if Count(s'.flags) == 0 then LastTest else Idle
  {
    assert ThreadOk(s, t, s.threads[t]);
    Alive(s, s.threads[t].token);
    CountStep(s.flags);
  }

  /** Only another thread's change of the word makes a call try again. */
  lemma {:induction false} RetriesOnlyIfChanged(k: Kind, s: State, s': State, t: nat)
    requires Inv(s) && Step(k, s, s', t) && (s.threads[t].IncrCas? || s.threads[t].DecrCas?) && s.flags == s.threads[t].seen
    ensures !Working(s'.threads[t])
  {
  }

  // ----- When the count latches

  /** There have been as many references as the count cannot tell. */
  ghost predicate TooMany(run: seq<State>, i: nat)
    requires i < |run|
  {
    exists j: nat :: j <= i && Crowded(run[j])
  }

  ghost predicate Crowded(s: State) { |s.owners| >= REFCOUNT_MASK }

  /** A step latches the count only by adding the last reference that it could count. */
  lemma {:induction false} LatchStep(k: Kind, s: State, s': State, t: nat)
    requires Inv(s) && Step(k, s, s', t) && Count(s.flags) != REFCOUNT_MASK && Count(s'.flags) == REFCOUNT_MASK
    ensures Crowded(s')
  {
    StepKeeps(k, s, s', t);
    LatchAdds(k, s, s', t);
  }

  lemma {:induction false} LatchAdds(k: Kind, s: State, s': State, t: nat)
    requires Inv(s) && Step(k, s, s', t) && Count(s.flags) != REFCOUNT_MASK && Count(s'.flags) == REFCOUNT_MASK
    ensures |s'.owners| >= REFCOUNT_MASK
  {
    assert ThreadOk(s, t, s.threads[t]);
    CountStep(s.flags);
    var pc := s.threads[t];
    var added :| CasIncr(s, s', t, pc, added);
    KeysGrow(s.owners, added, t);
  }

  /** The count is latched if and only if there once were 0xffff references. */
  lemma {:induction false} LatchedExactly(k: Kind, run: seq<State>, i: nat)
    requires IsRun(k, run) && i < |run|
    ensures Count(run[i].flags) == REFCOUNT_MASK <==> TooMany(run, i)
  {
    hide Inv, Step, Init, Count, Crowded;
    if Count(run[i].flags) == REFCOUNT_MASK {
      LatchedSince(k, run, i);
    }
    if TooMany(run, i) {
      var j: nat :| j <= i && Crowded(run[j]);
      RunInv(k, run, j);
      CrowdedLatches(run[j]);
      LatchedForever(k, run, j, i);
    }
  }

  lemma {:induction false} CrowdedLatches(s: State)
    requires Inv(s) && Crowded(s)
    ensures Count(s.flags) == REFCOUNT_MASK
  {
  }

  lemma {:induction false} LatchedSince(k: Kind, run: seq<State>, i: nat)
    requires IsRun(k, run) && i < |run| && Count(run[i].flags) == REFCOUNT_MASK
    ensures TooMany(run, i)
  {
    hide Inv, Step, Count, Crowded;
    if i > 0 {
      RunInv(k, run, i - 1);
      assert StepExists(k, run[i - 1], run[i]);
      var t :| Step(k, run[i - 1], run[i], t);
      if Count(run[i - 1].flags) == REFCOUNT_MASK {
        LatchedSince(k, run, i - 1);
        var j: nat :| j <= i - 1 && Crowded(run[j]);
        assert j <= i;
      } else {
        LatchStep(k, run[i - 1], run[i], t);
      }
    }
  }

  // ----- What the count is for

  /** In every run the count is the number of references, unless there once were 0xffff, and 0xffff from then on.
      While there are any the object is alive; it is disposed of at most once, and freed only after that. */
  lemma {:induction false} CountsReferences(k: Kind, run: seq<State>, i: nat)
    requires IsRun(k, run) && i < |run|
    ensures var s := run[i];
      && Count(s.flags) == (if TooMany(run, i) then REFCOUNT_MASK else |s.owners|)
      && (s.owners != map[] ==> !s.freed && s.disposals == 0)
      && s.disposals <= 1 && (s.freed ==> s.disposals == 1 && s.owners == map[])
  {
    RunInv(k, run, i);
    LatchedExactly(k, run, i);
    hide IsRun, TooMany;
    var s := run[i];
    if s.owners != map[] {
      var token :| token in s.owners;
      Alive(s, token);
    }
    DisposalsBounded(s);
  }

  lemma {:induction false} DisposalsBounded(s: State)
    requires Inv(s)
    ensures s.disposals <= 1
  {
    if exists t :: t in s.threads && Last(s.threads[t]) {
      var t :| t in s.threads && Last(s.threads[t]);
      assert ThreadOk(s, t, s.threads[t]);
    }
  }

  /** Nothing is leaked either: once the last reference is gone and the threads have come to rest, the object has been
      freed, if and only if there never were 0xffff references. */
  lemma {:induction false} LastReleaseFrees(k: Kind, run: seq<State>, i: nat)
    requires IsRun(k, run) && i < |run| && run[i].owners == map[]
    requires forall t :: t in run[i].threads ==> run[i].threads[t] == Idle
    ensures run[i].freed <==> !TooMany(run, i)
    ensures run[i].freed ==> run[i].disposals == 1
  {
    RunInv(k, run, i);
    LatchedExactly(k, run, i);
    hide IsRun, TooMany;
  }

  // ----- The first reference

  /** A copied stack block starts with one reference, a forwarded byref with two; every flag but
      BLOCK_NEEDS_FREE comes from the original. */
  lemma {:induction false} FirstCounts(flags: nat)
    requires flags < WORD
    ensures Count(CopiedFlags(flags)) == 1 && Freeable(CopiedFlags(flags))
    ensures Count(flags) == 0 ==> Count(ForwardedFlags(flags)) == 2 && Freeable(ForwardedFlags(flags))
    ensures Marks(CopiedFlags(flags)) == Or(Marks(flags), 0x100)
    ensures Count(flags) == 0 ==> Marks(ForwardedFlags(flags)) == Or(Marks(flags), 0x100)
  {
    var marks := Marks(flags);
    SixteenBits();
    LshTimes(marks, 16);
    LshTimes(0x100, 16);
    assert flags == marks * COUNTS + Count(flags) && NEEDS_FREE == 0x100 * COUNTS;
    FieldOr(marks, 0x100, 16, 1);
    FieldOr(marks, 0x100, 16, 2);
    EighthBit(marks);
  }

  /** The marks and the count do not mix. */
  lemma {:induction false} FieldOr(marks: nat, mark: nat, k: nat, count: nat)
    requires count < Pow2(k)
    ensures var flags := Or(Or(Lsh(marks, k), Lsh(mark, k)), count);
      flags == Or(marks, mark) * Pow2(k) + count && flags % Pow2(k) == count && flags / Pow2(k) == Or(marks, mark)
  {
    OrShifted(marks, mark, k);
    LshTimes(Or(marks, mark), k);
    OrFields(Or(marks, mark), count, k);
    DivModUnique(Or(marks, mark) * Pow2(k) + count, Pow2(k), Or(marks, mark), count);
  }

  /** BLOCK_NEEDS_FREE is bit 8 of the marks. */
  lemma {:induction false} EighthBit(marks: nat)
    ensures forall flags: nat :: Marks(flags) == Or(marks, 0x100) ==> Freeable(flags)
  {
    forall flags: nat | Marks(flags) == Or(marks, 0x100) ensures Freeable(flags) {
      assert Pow2(8) == 0x100;
      SetBit(marks, 8);
      ShiftMeaning(Or(marks, 0x100), 8);
      assert flags / NEEDS_FREE == Marks(flags) / 256;
    }
  }

  lemma {:induction false} SetBit(x: nat, k: nat)
    ensures Shr(Or(x, Pow2(k)), k) % 2 == 1
  {
    OrBitFields(x, k, k + 1);
  }

  lemma {:induction false} SixteenBits()
    ensures Pow2(16) == COUNTS
  {
    assert Pow2(8) == 256;
    Pow2Sum(8, 8);
  }

  lemma {:induction false} OrShifted(x: nat, y: nat, k: nat)
    ensures Or(Lsh(x, k), Lsh(y, k)) == Lsh(Or(x, y), k)
  {
    if k > 0 {
      OrShifted(x, y, k - 1);
      OrHalf(Lsh(x, k), Lsh(y, k));
    }
  }
}
