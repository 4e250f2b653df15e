/** BlocksRuntime/runtime.c, without garbage collection: who keeps whom.

Copying a stack block to the heap copies or retains what it captures, and moves captured __block
variables to the heap; releasing the last reference to a block releases what it captured in turn.  A change
of a count is one step here (BlockRefs has the interleavings of one count), and malloc() does not fail. */
module BlockGraph {
  import opened Options
  import BlockRefs

  const REFCOUNT_MASK := BlockRefs.REFCOUNT_MASK

  /** A pointer to a block; a stack block comes with what it captures. */
  datatype Value = Null | Global | Heap(p: nat) | Stack(captures: seq<Capture>)

  /** A block, a __block variable of a live stack frame, or a byref that is on the heap already. */
  datatype Capture = OfBlock(block: Value) | OfVariable(v: nat) | OfByref(p: nat)

  /** An object on the heap: its reference count, and what it has retained; a null or global block
      takes no reference. */
  datatype Obj = Obj(byref: bool, count: nat, holds: seq<Option<nat>>)

  type Objs = map<nat, Obj>

  /** The __block variables in scope, and where each has moved to. */
  type Scope = map<nat, Option<nat>>

  /** A reference, by its owner: the program, a slot of a heap block, the frame of a variable. */
  datatype Ref = Program(id: nat) | Slot(block: nat, i: nat) | Frame(v: nat)

  type Refs = map<Ref, nat>

  function Pointing(refs: Refs, p: nat): set<Ref> { set r | r in refs && refs[r] == p }

  function Raised(count: nat): nat { if count == REFCOUNT_MASK then count else count + 1 }

  function Lowered(count: nat): nat { if count == REFCOUNT_MASK || count == 0 then count else count - 1 }

  /** dying: the blocks whose dispose helper is running. */
  datatype World = World(objs: Objs, scope: Scope, refs: Refs, dying: set<nat>)

  // ----- The invariant

  /** Until it latches, the count is the number of references, and is zero only while the object is
      being disposed of. */
  ghost predicate CountOk(w: World, p: nat)
    requires p in w.objs
  {
    var count := w.objs[p].count;
    if count == REFCOUNT_MASK then p !in w.dying
    else count == |Pointing(w.refs, p)| && count < REFCOUNT_MASK && (count == 0 <==> p in w.dying)
  }

  ghost predicate SlotOk(w: World, b: nat, i: nat) {
    && (Slot(b, i) in w.refs <==> b in w.objs && i < |w.objs[b].holds| && w.objs[b].holds[i].Some?)
    && (Slot(b, i) in w.refs ==> w.refs[Slot(b, i)] == w.objs[b].holds[i].value)
  }

  ghost predicate FrameOk(w: World, v: nat) {
    && (Frame(v) in w.refs <==> v in w.scope && w.scope[v].Some?)
    && (Frame(v) in w.refs ==>
      w.refs[Frame(v)] == w.scope[v].value && w.scope[v].value in w.objs && w.objs[w.scope[v].value].byref)
  }

  ghost predicate Sound(w: World) {
    && (forall r :: r in w.refs ==> w.refs[r] in w.objs)
    && (forall p {:trigger CountOk(w, p)} :: p in w.objs ==> CountOk(w, p))
    && (forall b: nat, i: nat {:trigger SlotOk(w, b, i)} :: SlotOk(w, b, i))
    && (forall v: nat {:trigger FrameOk(w, v)} :: FrameOk(w, v))
    && (forall v, u :: v in w.scope && u in w.scope && w.scope[v].Some? && w.scope[v] == w.scope[u] ==> v == u)
    && (forall p :: p in w.objs && w.objs[p].byref ==> w.objs[p].holds == [])
    && w.dying <= w.objs.Keys
  }

  /** No call is in progress: nothing is being disposed of, and the program itself holds blocks only. */
  ghost predicate Idle(w: World) {
    && w.dying == {}
    && forall id: nat :: Program(id) in w.refs && w.refs[Program(id)] in w.objs ==> !w.objs[w.refs[Program(id)]].byref
  }

  ghost predicate AtRest(w: World) { Sound(w) && Acyclic(w) && Idle(w) }

  function RankOf(rank: map<nat, nat>, p: nat): nat { if p in rank then rank[p] else 0 }

  /** Whatever a block holds comes before it in some order. */
  ghost predicate Ranked(w: World, rank: map<nat, nat>) {
    forall b: nat, i: nat {:trigger Slot(b, i)} ::
      Slot(b, i) in w.refs ==> RankOf(rank, w.refs[Slot(b, i)]) < RankOf(rank, b)
  }

  ghost predicate Acyclic(w: World) { exists rank :: Ranked(w, rank) }

  /** No block holds it. */
  ghost predicate Unheld(w: World, p: nat) {
    forall b: nat, i: nat {:trigger Slot(b, i)} :: Slot(b, i) in w.refs ==> w.refs[Slot(b, i)] != p
  }

  ghost predicate Spare(w: World, id: nat) { Program(id) !in w.refs }

  // ----- One reference more or less

  lemma {:induction false} PointingAdd(refs: Refs, r: Ref, p: nat)
    requires r !in refs
    ensures forall q :: |Pointing(refs[r := p], q)| == |Pointing(refs, q)| + if q == p then 1 else 0
  {
    forall q ensures |Pointing(refs[r := p], q)| == |Pointing(refs, q)| + if q == p then 1 else 0 {
      PointingAlso(refs, r, p, q);
    }
  }

  lemma {:induction false} PointingAlso(refs: Refs, r: Ref, p: nat, q: nat)
    requires r !in refs
    ensures |Pointing(refs[r := p], q)| == |Pointing(refs, q)| + if q == p then 1 else 0
  {
    assert Pointing(refs[r := p], q) == Pointing(refs, q) + if q == p then {r} else {};
  }

  lemma {:induction false} PointingDrop(refs: Refs, r: Ref)
    requires r in refs
    ensures forall q :: |Pointing(refs - {r}, q)| == |Pointing(refs, q)| - if q == refs[r] then 1 else 0
  {
    forall q ensures |Pointing(refs - {r}, q)| == |Pointing(refs, q)| - if q == refs[r] then 1 else 0 {
      assert Pointing(refs - {r}, q) == Pointing(refs, q) - if q == refs[r] then {r} else {};
    }
  }

  function Moved(refs: Refs, r: Ref, r': Ref): Refs
    requires r in refs
  {
    (refs - {r})[r' := refs[r]]
  }

  lemma {:induction false} PointingMoved(refs: Refs, r: Ref, r': Ref)
    requires r in refs && r' !in refs
    ensures forall q :: |Pointing(Moved(refs, r, r'), q)| == |Pointing(refs, q)|
  {
    PointingDrop(refs, r);
    PointingAdd(refs - {r}, r', refs[r]);
  }

  lemma {:induction false} Referenced(refs: Refs, r: Ref)
    requires r in refs
    ensures |Pointing(refs, refs[r])| > 0
  {
    assert r in Pointing(refs, refs[r]);
  }

  // ----- What a call does to the world, piece by piece

  /** latching_incr_int(). */
  function Retained(w: World, id: nat, p: nat): World
    requires p in w.objs
  {
    w.(objs := w.objs[p := w.objs[p].(count := Raised(w.objs[p].count))], refs := w.refs[Program(id) := p])
  }

  /** latching_decr_int(): the object is disposed of when that was its last reference. */
  function Dropped(w: World, id: nat): World
    requires Program(id) in w.refs && w.refs[Program(id)] in w.objs
  {
    var p := w.refs[Program(id)];
    var count := Lowered(w.objs[p].count);
    w.(objs := w.objs[p := w.objs[p].(count := count)], refs := w.refs - {Program(id)},
      dying := if count == 0 then w.dying + {p} else w.dying)
  }

  /** malloc() and `flags |= BLOCK_NEEDS_FREE | 1`. */
  function WithBlock(w: World, p: nat, id: nat): World {
    w.(objs := w.objs[p := Obj(false, 1, [])], refs := w.refs[Program(id) := p])
  }

  /** A variable moves to the heap with two references: one for the caller, one for the stack. */
  function WithByref(w: World, p: nat, id: nat, v: nat): World {
    w.(objs := w.objs[p := Obj(true, 2, [])], scope := w.scope[v := Some(p)],
      refs := w.refs[Program(id) := p][Frame(v) := p])
  }

  /** The copy helper stores what it has retained. */
  function Stored(w: World, b: nat, id: nat): World
    requires b in w.objs
  {
    if Program(id) in w.refs then
      w.(objs := w.objs[b := w.objs[b].(holds := w.objs[b].holds + [Some(w.refs[Program(id)])])],
        refs := Moved(w.refs, Program(id), Slot(b, |w.objs[b].holds|)))
    else
      w.(objs := w.objs[b := w.objs[b].(holds := w.objs[b].holds + [None])])
  }

  /** The dispose helper takes one up again, to release it. */
  function Unstored(w: World, b: nat, id: nat): World
    requires b in w.objs && w.objs[b].holds != []
  {
    var n := |w.objs[b].holds| - 1;
    w.(objs := w.objs[b := w.objs[b].(holds := w.objs[b].holds[..n])],
      refs := if Slot(b, n) in w.refs then Moved(w.refs, Slot(b, n), Program(id)) else w.refs)
  }

  function Freed(w: World, b: nat): World { w.(objs := w.objs - {b}, dying := w.dying - {b}) }

  /** The frame of a variable gives up its reference. */
  function FrameEnded(w: World, v: nat, id: nat): World {
    w.(scope := w.scope - {v}, refs := if Frame(v) in w.refs then Moved(w.refs, Frame(v), Program(id)) else w.refs)
  }

  /** Only references of the program come or go, and only counts change: slots and frames stay right. */
  lemma {:induction false} Elsewhere(w: World, w': World)
    requires Sound(w) && w'.objs.Keys == w.objs.Keys && w'.scope == w.scope
    requires forall p :: p in w.objs ==> w'.objs[p].holds == w.objs[p].holds && w'.objs[p].byref == w.objs[p].byref
    requires forall r: Ref :: !r.Program? ==> ((r in w'.refs <==> r in w.refs) && (r in w.refs ==> w'.refs[r] == w.refs[r]))
    ensures forall b: nat, i: nat {:trigger SlotOk(w', b, i)} :: SlotOk(w', b, i)
    ensures forall v: nat {:trigger FrameOk(w', v)} :: FrameOk(w', v)
  {
    hide CountOk;
    forall b: nat, i: nat ensures SlotOk(w', b, i) {
      assert SlotOk(w, b, i);
    }
    forall v: nat ensures FrameOk(w', v) {
      assert FrameOk(w, v);
    }
  }

  lemma {:induction false} RetainedSound(w: World, id: nat, p: nat)
    requires Sound(w) && p in w.objs && p !in w.dying && Spare(w, id)
    ensures Sound(Retained(w, id, p))
  {
    var w' := Retained(w, id, p);
    PointingAdd(w.refs, Program(id), p);
    hide Pointing;
    forall q | q in w'.objs ensures CountOk(w', q) {
      assert CountOk(w, q);
    }
    Elsewhere(w, w');
  }

  lemma {:induction false} DroppedSound(w: World, id: nat)
    requires Sound(w) && Program(id) in w.refs
    ensures var p := w.refs[Program(id)];
      p in w.objs && p !in w.dying && w.objs[p].count > 0 && Sound(Dropped(w, id))
  {
    var p := w.refs[Program(id)];
    assert CountOk(w, p);
    Referenced(w.refs, Program(id));
    PointingDrop(w.refs, Program(id));
    hide Pointing;
    var w' := Dropped(w, id);
    forall q | q in w'.objs ensures CountOk(w', q) {
      assert CountOk(w, q);
    }
    Elsewhere(w, w');
  }

  lemma {:induction false} NothingPoints(w: World, p: nat)
    requires Sound(w) && p !in w.objs
    ensures |Pointing(w.refs, p)| == 0 && p !in w.dying && forall i: nat :: Slot(p, i) !in w.refs
  {
    assert Pointing(w.refs, p) == {};
    forall i: nat ensures Slot(p, i) !in w.refs {
      assert SlotOk(w, p, i);
    }
  }

  lemma {:induction false} WithBlockSound(w: World, p: nat, id: nat)
    requires Sound(w) && p !in w.objs && Spare(w, id)
    ensures p !in w.dying && Sound(WithBlock(w, p, id))
  {
    var w' := WithBlock(w, p, id);
    NothingPoints(w, p);
    PointingAdd(w.refs, Program(id), p);
    hide Pointing;
    forall q | q in w'.objs ensures CountOk(w', q) {
      assert q != p ==> CountOk(w, q);
    }
    forall b: nat, i: nat ensures SlotOk(w', b, i) {
      assert SlotOk(w, b, i);
    }
    forall v: nat ensures FrameOk(w', v) {
      assert FrameOk(w, v);
    }
  }

  lemma {:induction false} WithByrefSound(w: World, p: nat, id: nat, v: nat)
    requires Sound(w) && p !in w.objs && Spare(w, id) && v in w.scope && w.scope[v].None?
    ensures p !in w.dying && Frame(v) !in w.refs && Sound(WithByref(w, p, id, v))
  {
    hide Pointing;
    var w' := WithByref(w, p, id, v);
    assert FrameOk(w, v);
    NothingPoints(w, p);
    PointingAdd(w.refs, Program(id), p);
    PointingAdd(w.refs[Program(id) := p], Frame(v), p);
    forall q | q in w'.objs ensures CountOk(w', q) {
      assert q != p ==> CountOk(w, q);
    }
    forall b: nat, i: nat ensures SlotOk(w', b, i) {
      assert SlotOk(w, b, i);
    }
    forall u: nat ensures FrameOk(w', u) && (u in w.scope ==> w.scope[u] != Some(p)) {
      assert FrameOk(w, u);
    }
  }

  lemma {:induction false} StoredSound(w: World, b: nat, id: nat)
    requires Sound(w) && b in w.objs && !w.objs[b].byref
    ensures Slot(b, |w.objs[b].holds|) !in w.refs && Sound(Stored(w, b, id))
  {
    hide Pointing;
    var n := |w.objs[b].holds|;
    var w' := Stored(w, b, id);
    assert SlotOk(w, b, n);
    if Program(id) in w.refs {
      PointingMoved(w.refs, Program(id), Slot(b, n));
    }
    forall q | q in w'.objs ensures CountOk(w', q) {
      assert CountOk(w, q);
    }
    forall c: nat, i: nat ensures SlotOk(w', c, i) {
      assert SlotOk(w, c, i);
    }
    forall v: nat ensures FrameOk(w', v) {
      assert FrameOk(w, v);
    }
  }

  lemma {:induction false} UnstoredSound(w: World, b: nat, id: nat)
    requires Sound(w) && b in w.objs && w.objs[b].holds != [] && Spare(w, id)
    ensures Sound(Unstored(w, b, id))
    ensures var n := |w.objs[b].holds| - 1;
      && (Slot(b, n) in w.refs <==> w.objs[b].holds[n].Some?)
      && (Slot(b, n) in w.refs ==> w.refs[Slot(b, n)] == w.objs[b].holds[n].value)
  {
    hide Pointing;
    var n := |w.objs[b].holds| - 1;
    var w' := Unstored(w, b, id);
    assert SlotOk(w, b, n);
    if Slot(b, n) in w.refs {
      PointingMoved(w.refs, Slot(b, n), Program(id));
    }
    forall q | q in w'.objs ensures CountOk(w', q) {
      assert CountOk(w, q);
    }
    forall c: nat, i: nat ensures SlotOk(w', c, i) {
      assert SlotOk(w, c, i);
    }
    forall v: nat ensures FrameOk(w', v) {
      assert FrameOk(w, v);
    }
  }

  lemma {:induction false} FreedSound(w: World, b: nat)
    requires Sound(w) && b in w.dying && w.objs[b].holds == []
    ensures Sound(Freed(w, b)) && |Pointing(w.refs, b)| == 0
  {
    var w' := Freed(w, b);
    assert CountOk(w, b);
    forall r | r in w.refs ensures w.refs[r] in w'.objs {
      Referenced(w.refs, r);
    }
    hide Pointing;
    forall q | q in w'.objs ensures CountOk(w', q) {
      assert CountOk(w, q);
    }
    forall c: nat, i: nat ensures SlotOk(w', c, i) {
      assert SlotOk(w, c, i);
    }
    forall v: nat ensures FrameOk(w', v) {
      assert FrameOk(w, v);
    }
  }

  lemma {:induction false} FrameEndedSound(w: World, v: nat, id: nat)
    requires Sound(w) && v in w.scope && Spare(w, id)
    ensures Sound(FrameEnded(w, v, id)) && (Frame(v) in w.refs <==> w.scope[v].Some?)
    ensures Frame(v) in w.refs ==> w.refs[Frame(v)] == w.scope[v].value && w.scope[v].value in w.objs && w.objs[w.scope[v].value].byref
  {
    assert FrameOk(w, v);
    var w' := FrameEnded(w, v, id);
    if Frame(v) in w.refs {
      PointingMoved(w.refs, Frame(v), Program(id));
    }
    hide Pointing;
    forall q | q in w'.objs ensures CountOk(w', q) {
      assert CountOk(w, q);
    }
    forall c: nat, i: nat ensures SlotOk(w', c, i) {
      assert SlotOk(w, c, i);
    }
    forall u: nat ensures FrameOk(w', u) {
      assert FrameOk(w, u);
    }
  }

  // ----- Copies

  /** r is what copying v gives: a heap block for a stack block, with copies of the captures. */
  ghost predicate Copied(w: World, v: Value, r: Value)
  {
    match v
    case Stack(captures) =>
      && r.Heap? && r.p in w.objs && !w.objs[r.p].byref && |w.objs[r.p].holds| == |captures|
      && forall i: nat :: i < |captures| ==> CaptureCopied(w, captures[i], w.objs[r.p].holds[i])
    case _ => r == v
  }

  ghost predicate CaptureCopied(w: World, c: Capture, held: Option<nat>)
  {
    match c
    case OfBlock(b) => Copied(w, b, if held.Some? then Heap(held.value) else if b.Null? then Null else Global)
    case OfVariable(v) => v in w.scope && w.scope[v].Some? && held == w.scope[v]
    case OfByref(p) => held == Some(p)
  }

  /** The pointers in it lead to live objects and to variables in scope. */
  ghost predicate Usable(w: World, v: Value)
  {
    match v
    case Heap(p) => p in w.objs && !w.objs[p].byref && p !in w.dying
    case Stack(captures) => forall i: nat :: i < |captures| ==> CaptureUsable(w, captures[i])
    case _ => true
  }

  ghost predicate CaptureUsable(w: World, c: Capture)
  {
    match c
    case OfBlock(b) => Usable(w, b)
    case OfVariable(v) => v in w.scope
    case OfByref(p) => p in w.objs && w.objs[p].byref && p !in w.dying
  }

  /** Whether it leads to the object p. */
  ghost predicate Mentions(v: Value, p: nat)
  {
    match v
    case Heap(q) => q == p
    case Stack(captures) => exists i: nat :: i < |captures| && CaptureMentions(captures[i], p)
    case _ => false
  }

  ghost predicate CaptureMentions(c: Capture, p: nat) { c.OfBlock? && Mentions(c.block, p) }

  /** Whether it captures the variable x. */
  ghost predicate Captures(v: Value, x: nat)
  {
    v.Stack? && exists i: nat :: i < |v.captures| && CapturesBy(v.captures[i], x)
  }

  ghost predicate CapturesBy(c: Capture, x: nat)
  {
    match c
    case OfBlock(b) => Captures(b, x)
    case OfVariable(v) => v == x
    case OfByref(p) => false
  }

  lemma {:induction false} UsableMentions(w: World, v: Value, p: nat)
    requires Usable(w, v) && Mentions(v, p)
    ensures p in w.objs
    decreases v
  {
    if v.Stack? {
      var i: nat :| i < |v.captures| && CaptureMentions(v.captures[i], p);
      assert CaptureUsable(w, v.captures[i]);
      UsableMentions(w, v.captures[i].block, p);
    }
  }

  /** Nothing is lost: what was there is there, what it holds it still holds, and a variable that has
      moved stays where it is. */
  ghost predicate Grown(w: World, w': World) {
    && (forall p :: p in w.objs ==> p in w'.objs && w'.objs[p].holds == w.objs[p].holds && w'.objs[p].byref == w.objs[p].byref)
    && w'.scope.Keys == w.scope.Keys && (forall v :: v in w.scope && w.scope[v].Some? ==> w'.scope[v] == w.scope[v])
    && (forall r :: r in w.refs ==> r in w'.refs && w'.refs[r] == w.refs[r])
    && w'.dying == w.dying
  }

  lemma {:induction false} GrownTwice(w: World, mid: World, w': World)
    requires Grown(w, mid) && Grown(mid, w')
    ensures Grown(w, w')
  {
  }

  lemma {:induction false} StillCopied(w: World, w': World, v: Value, r: Value)
    requires Grown(w, w') && Copied(w, v, r)
    ensures Copied(w', v, r)
    decreases v
  {
    if v.Stack? {
      forall i: nat | i < |v.captures| ensures CaptureCopied(w', v.captures[i], w.objs[r.p].holds[i]) {
        StillCaptured(w, w', v.captures[i], w.objs[r.p].holds[i]);
      }
    }
  }

  lemma {:induction false} StillCaptured(w: World, w': World, c: Capture, held: Option<nat>)
    requires Grown(w, w') && CaptureCopied(w, c, held)
    ensures CaptureCopied(w', c, held)
    decreases c
  {
    if c.OfBlock? {
      StillCopied(w, w', c.block, if held.Some? then Heap(held.value) else if c.block.Null? then Null else Global);
    }
  }

  lemma {:induction false} StillUsable(w: World, w': World, v: Value)
    requires Grown(w, w') && Usable(w, v)
    ensures Usable(w', v)
    decreases v
  {
    if v.Stack? {
      forall i: nat | i < |v.captures| ensures CaptureUsable(w', v.captures[i]) {
        CaptureStillUsable(w, w', v.captures[i]);
      }
    }
  }

  lemma {:induction false} CaptureStillUsable(w: World, w': World, c: Capture)
    requires Grown(w, w') && CaptureUsable(w, c)
    ensures CaptureUsable(w', c)
    decreases c
  {
    if c.OfBlock? {
      StillUsable(w, w', c.block);
    }
  }

  // ----- No cycles

  /** Slots have gone, or none have come. */
  lemma {:induction false} StillAcyclic(w: World, w': World)
    requires Acyclic(w)
    requires forall b: nat, i: nat {:trigger Slot(b, i)} ::
      Slot(b, i) in w'.refs ==> Slot(b, i) in w.refs && w.refs[Slot(b, i)] == w'.refs[Slot(b, i)]
    ensures Acyclic(w')
  {
    var rank :| Ranked(w, rank);
    assert Ranked(w', rank);
  }

  ghost function Above(s: set<nat>): (r: nat)
    ensures forall x :: x in s ==> x < r
  {
    if s == {} then 0
    else
      var x :| x in s;
      var r := Above(s - {x});
      assert forall y :: y in s ==> y == x || y in s - {x};
      if x < r then r else x + 1
  }

  /** A block that no other block holds may hold anything else. */
  lemma {:induction false} StoredAcyclic(w: World, b: nat, id: nat)
    requires Acyclic(w) && Unheld(w, b) && b in w.objs && (Program(id) in w.refs ==> w.refs[Program(id)] != b)
    requires Slot(b, |w.objs[b].holds|) !in w.refs
    ensures Acyclic(Stored(w, b, id)) && Unheld(Stored(w, b, id), b)
  {
    var rank :| Ranked(w, rank);
    var values := set p | p in rank :: rank[p];
    var top := Above(values);
    forall p ensures RankOf(rank, p) <= top {
      if p in rank {
        assert rank[p] in values;
      }
    }
    var w', rank' := Stored(w, b, id), rank[b := top + 1];
    forall c: nat, i: nat | Slot(c, i) in w'.refs
      ensures w'.refs[Slot(c, i)] != b && RankOf(rank', w'.refs[Slot(c, i)]) < RankOf(rank', c)
    {
      var held := w'.refs[Slot(c, i)];
      assert RankOf(rank, held) <= top;
      if Slot(c, i) in w.refs {
        assert held == w.refs[Slot(c, i)];
        assert RankOf(rank, w.refs[Slot(c, i)]) < RankOf(rank, c);
      } else {
        assert Slot(c, i) == Slot(b, |w.objs[b].holds|);
      }
    }
    assert Ranked(w', rank');
  }

  // ----- What copying does

  /** The copy r is referred to by Program(id), if it is on the heap; no other reference of the program
      changes; and no block comes to be held that the argument does not lead to. */
  ghost predicate CopySpec(w: World, w': World, arg: Value, r: Value, id: nat) {
    && Sound(w') && Grown(w, w') && Copied(w', arg, r) && !r.Stack? && Usable(w', r)
    && (if r.Heap? then Program(id) in w'.refs && w'.refs[Program(id)] == r.p else Spare(w', id))
    && (forall j: nat {:trigger Spare(w', j)} {:trigger Spare(w, j)} :: j != id ==> (Spare(w', j) <==> Spare(w, j)))
    && (Acyclic(w) ==> Acyclic(w'))
    && (forall p: nat {:trigger Unheld(w', p)} :: p in w.objs && !w.objs[p].byref && !Mentions(arg, p) && Unheld(w, p) ==> Unheld(w', p))
    && (arg.Stack? ==> r.p !in w.objs)
  }

  ghost predicate AssignSpec(w: World, w': World, c: Capture, held: Option<nat>, id: nat) {
    && Sound(w') && Grown(w, w') && CaptureCopied(w', c, held)
    && (if held.Some? then Program(id) in w'.refs && w'.refs[Program(id)] == held.value else Spare(w', id))
    && (forall j: nat {:trigger Spare(w', j)} {:trigger Spare(w, j)} :: j != id ==> (Spare(w', j) <==> Spare(w, j)))
    && (Acyclic(w) ==> Acyclic(w'))
    && (forall p: nat {:trigger Unheld(w', p)} :: p in w.objs && !w.objs[p].byref && !CaptureMentions(c, p) && Unheld(w, p) ==> Unheld(w', p))
    && (held.Some? ==> forall p: nat :: p in w.objs && !w.objs[p].byref && !CaptureMentions(c, p) ==> held.value != p)
  }

  /** Retaining an object that is alive. */
  lemma {:induction false} RetainedSpec(w: World, id: nat, p: nat)
    requires Sound(w) && p in w.objs && p !in w.dying && Spare(w, id)
    ensures var w' := Retained(w, id, p);
      && Sound(w') && Grown(w, w') && Program(id) in w'.refs && w'.refs[Program(id)] == p
      && (forall j: nat {:trigger Spare(w', j)} {:trigger Spare(w, j)} :: j != id ==> (Spare(w', j) <==> Spare(w, j)))
      && (Acyclic(w) ==> Acyclic(w')) && (forall q: nat {:trigger Unheld(w', q)} :: Unheld(w, q) ==> Unheld(w', q))
  {
    hide CountOk, SlotOk, FrameOk, Ranked;
    RetainedSound(w, id, p);
    if Acyclic(w) {
      StillAcyclic(w, Retained(w, id, p));
    }
  }

  lemma {:induction false} BlockCopied(w: World, b: Value, r: Value)
    requires Copied(w, b, r) && !r.Stack?
    ensures CaptureCopied(w, OfBlock(b), if r.Heap? then Some(r.p) else None)
  {
  }

  lemma {:induction false} AssignBlock(w: World, w': World, b: Value, r: Value, id: nat)
    requires CopySpec(w, w', b, r, id)
    ensures AssignSpec(w, w', OfBlock(b), if r.Heap? then Some(r.p) else None, id)
  {
    BlockCopied(w', b, r);
    hide Sound, Acyclic, Unheld, Grown, Usable;
    if r.Heap? {
      HeapCopied(w', b, r);
      forall p: nat | p in w.objs && !Mentions(b, p) ensures r.p != p {
      }
    }
  }

  lemma {:induction false} HeapCopied(w: World, b: Value, r: Value)
    requires Copied(w, b, r) && r.Heap?
    ensures b.Stack? || (b == r && Mentions(b, r.p))
  {
  }

  // ----- A block in the making

  /** b, referred to by Program(id) only, has got copies of the first i captures. */
  ghost predicate Building(w: World, w': World, captures: seq<Capture>, i: nat, b: nat, id: nat)
  {
    && Sound(w') && Grown(w, w') && i <= |captures| && b !in w.objs
    && b in w'.objs && !w'.objs[b].byref && b !in w'.dying && |w'.objs[b].holds| == i
    && (forall j: nat :: j < i ==> CaptureCopied(w', captures[j], w'.objs[b].holds[j]))
    && (forall j: nat :: j < |captures| ==> CaptureUsable(w', captures[j]) && !CaptureMentions(captures[j], b))
    && Program(id) in w'.refs && w'.refs[Program(id)] == b && Unheld(w', b)
    && (forall j: nat {:trigger Spare(w', j)} {:trigger Spare(w, j)} :: j != id ==> (Spare(w', j) <==> Spare(w, j)))
    && (Acyclic(w) ==> Acyclic(w'))
    && (forall p: nat {:trigger Unheld(w', p)} :: p in w.objs && !w.objs[p].byref && !Mentions(Stack(captures), p) && Unheld(w, p) ==> Unheld(w', p))
  }

  lemma {:induction false} BuildStart(w: World, captures: seq<Capture>, b: nat, id: nat)
    requires Sound(w) && Usable(w, Stack(captures)) && Spare(w, id) && b !in w.objs
    ensures Building(w, WithBlock(w, b, id), captures, 0, b, id)
  {
    hide CountOk, SlotOk, FrameOk, Acyclic, CaptureUsable, CaptureMentions;
    var w' := WithBlock(w, b, id);
    WithBlockSound(w, b, id);
    assert Unheld(w', b);
    if Acyclic(w) {
      StillAcyclic(w, w');
    }
    BuildCaptures(w, captures, b, id);
  }

  /** What was usable still is, and does not mention the new block. */
  lemma {:induction false} BuildCaptures(w: World, captures: seq<Capture>, b: nat, id: nat)
    requires Sound(w) && Usable(w, Stack(captures)) && Spare(w, id) && b !in w.objs
    ensures forall j: nat :: j < |captures| ==> CaptureUsable(WithBlock(w, b, id), captures[j]) && !CaptureMentions(captures[j], b)
  {
    hide Sound;
    var w' := WithBlock(w, b, id);
    forall j: nat | j < |captures| ensures CaptureUsable(w', captures[j]) && !CaptureMentions(captures[j], b) {
      CaptureStillUsable(w, w', captures[j]);
      if CaptureMentions(captures[j], b) {
        UsableMentions(w, captures[j].block, b);
      }
    }
  }

  /** Copies are not disturbed by a new slot in a block that none of them is or holds. */
  lemma {:induction false} CopiedAside(w: World, b: nat, id: nat, v: Value, r: Value)
    requires Sound(w) && b in w.objs && !w.objs[b].byref && Unheld(w, b) && Copied(w, v, r) && (r.Heap? ==> r.p != b)
    ensures Copied(Stored(w, b, id), v, r)
    decreases v
  {
    if v.Stack? {
      forall i: nat | i < |v.captures| ensures CaptureCopied(Stored(w, b, id), v.captures[i], w.objs[r.p].holds[i]) {
        assert SlotOk(w, r.p, i);
        CapturedAside(w, b, id, v.captures[i], w.objs[r.p].holds[i]);
      }
    }
  }

  lemma {:induction false} CapturedAside(w: World, b: nat, id: nat, c: Capture, held: Option<nat>)
    requires Sound(w) && b in w.objs && !w.objs[b].byref && Unheld(w, b) && CaptureCopied(w, c, held) && held != Some(b)
    ensures CaptureCopied(Stored(w, b, id), c, held)
    decreases c
  {
    if c.OfBlock? {
      CopiedAside(w, b, id, c.block, if held.Some? then Heap(held.value) else if c.block.Null? then Null else Global);
    }
  }

  lemma {:induction false} UsableAside(w: World, b: nat, id: nat, v: Value)
    requires b in w.objs && Usable(w, v)
    ensures Usable(Stored(w, b, id), v)
    decreases v
  {
    if v.Stack? {
      forall i: nat | i < |v.captures| ensures CaptureUsable(Stored(w, b, id), v.captures[i]) {
        CaptureUsableAside(w, b, id, v.captures[i]);
      }
    }
  }

  lemma {:induction false} CaptureUsableAside(w: World, b: nat, id: nat, c: Capture)
    requires b in w.objs && CaptureUsable(w, c)
    ensures CaptureUsable(Stored(w, b, id), c)
    decreases c
  {
    if c.OfBlock? {
      UsableAside(w, b, id, c.block);
    }
  }

  /** The copies of the captures so far, and the one that is stored now. */
  lemma {:induction false} StoredCaptures(mid: World, w': World, captures: seq<Capture>, i: nat, b: nat, held: Option<nat>, spare: nat)
    requires Sound(w') && Grown(mid, w') && b in mid.objs && !mid.objs[b].byref && Unheld(w', b)
    requires i < |captures| && |mid.objs[b].holds| == i
    requires forall j: nat :: j < i ==> CaptureCopied(mid, captures[j], mid.objs[b].holds[j])
    requires forall j: nat :: j < |captures| ==> CaptureUsable(mid, captures[j])
    requires CaptureCopied(w', captures[i], held) && held != Some(b)
    requires held == if Program(spare) in w'.refs then Some(w'.refs[Program(spare)]) else None
    ensures var w2 := Stored(w', b, spare);
      && (forall j: nat :: j < i + 1 ==> CaptureCopied(w2, captures[j], w2.objs[b].holds[j]))
      && (forall j: nat :: j < |captures| ==> CaptureUsable(w2, captures[j]))
  {
    hide CaptureCopied, CaptureUsable;
    var w2 := Stored(w', b, spare);
    forall j: nat | j < i + 1 ensures CaptureCopied(w2, captures[j], w2.objs[b].holds[j]) {
      if j < i {
        StillCaptured(mid, w', captures[j], mid.objs[b].holds[j]);
        assert SlotOk(w', b, j);
        CapturedAside(w', b, spare, captures[j], mid.objs[b].holds[j]);
      } else {
        CapturedAside(w', b, spare, captures[j], held);
      }
    }
    forall j: nat | j < |captures| ensures CaptureUsable(w2, captures[j]) {
      CaptureStillUsable(mid, w', captures[j]);
      CaptureUsableAside(w', b, spare, captures[j]);
    }
  }

  /** Only what the captures lead to is held by one slot more. */
  lemma {:induction false} StoredHolds(w': World, b: nat, spare: nat, p: nat)
    requires b in w'.objs && Unheld(w', p) && (Program(spare) in w'.refs ==> w'.refs[Program(spare)] != p)
    ensures Unheld(Stored(w', b, spare), p)
  {
    var w2 := Stored(w', b, spare);
    forall c: nat, i: nat | Slot(c, i) in w2.refs ensures w2.refs[Slot(c, i)] != p {
      if Slot(c, i) in w'.refs && w2.refs[Slot(c, i)] == w'.refs[Slot(c, i)] {
      }
    }
  }

  lemma {:induction false} NotMentioned(captures: seq<Capture>, p: nat, i: nat)
    requires !Mentions(Stack(captures), p) && i < |captures|
    ensures !CaptureMentions(captures[i], p)
  {
  }

  lemma {:induction false} StoredGrown(w: World, mid: World, w': World, b: nat, spare: nat)
    requires Grown(w, mid) && Grown(mid, w') && b !in w.objs && b in w'.objs && Spare(mid, spare)
    requires Slot(b, |w'.objs[b].holds|) !in w'.refs
    ensures Grown(w, Stored(w', b, spare))
  {
    GrownTwice(w, mid, w');
  }

  lemma {:induction false} BuildStep(w: World, mid: World, w': World, captures: seq<Capture>, i: nat, b: nat, id: nat,
      held: Option<nat>, spare: nat)
    requires Building(w, mid, captures, i, b, id) && i < |captures| && spare != id && Spare(mid, spare)
    requires AssignSpec(mid, w', captures[i], held, spare)
    ensures Building(w, Stored(w', b, spare), captures, i + 1, b, id)
  {
    hide Sound, Acyclic, CaptureCopied, CaptureUsable, CaptureMentions, Mentions, Unheld, Stored, Grown;
    KeptAcross(mid, w', b, id);
    var w2 := Stored(w', b, spare);
    StoredSound(w', b, spare);
    StoredShape(w', b, id, spare);
    StoredGrown(w, mid, w', b, spare);
    assert Unheld(w', b) && held != Some(b);
    if Acyclic(w) {
      StoredAcyclic(w', b, spare);
    }
    StoredCaptures(mid, w', captures, i, b, held, spare);
    StoredHolds(w', b, spare, b);
    forall p: nat | p in w.objs && !w.objs[p].byref && !Mentions(Stack(captures), p) && Unheld(w, p) ensures Unheld(w2, p) {
      NotMentioned(captures, p, i);
      KeptAcross(w, mid, p, p);
      assert Unheld(mid, p);
      assert Unheld(w', p);
      StoredHolds(w', b, spare, p);
    }
  }

  lemma {:induction false} KeptAcross(w: World, w': World, p: nat, id: nat)
    requires Grown(w, w') && p in w.objs
    ensures p in w'.objs && w'.objs[p].byref == w.objs[p].byref && w'.objs[p].holds == w.objs[p].holds && w'.dying == w.dying
    ensures Program(id) in w.refs ==> Program(id) in w'.refs && w'.refs[Program(id)] == w.refs[Program(id)]
  {
  }

  lemma {:induction false} StoredShape(w: World, b: nat, id: nat, spare: nat)
    requires b in w.objs && id != spare
    ensures var w2 := Stored(w, b, spare);
      && b in w2.objs && w2.objs[b].byref == w.objs[b].byref && |w2.objs[b].holds| == |w.objs[b].holds| + 1 && w2.dying == w.dying
      && (Program(id) in w.refs ==> Program(id) in w2.refs && w2.refs[Program(id)] == w.refs[Program(id)])
      && Spare(w2, spare) && (forall j: nat {:trigger Spare(w2, j)} {:trigger Spare(w, j)} :: j != spare ==> (Spare(w2, j) <==> Spare(w, j)))
  {
  }

  lemma {:induction false} BuildDone(w: World, w': World, captures: seq<Capture>, b: nat, id: nat)
    requires Building(w, w', captures, |captures|, b, id)
    ensures CopySpec(w, w', Stack(captures), Heap(b), id)
  {
    hide Sound, Acyclic, Unheld, Grown, Mentions, CaptureCopied, CaptureUsable;
  }

  // ----- What copying leaves alone

  /** References have only come, and a count has latched only where there are as many as it cannot tell. */
  ghost predicate Latches(w: World, w': World) {
    forall p: nat {:trigger Latched(w', p)} ::
      && |Pointing(w.refs, p)| <= |Pointing(w'.refs, p)|
      && (Latched(w, p) ==> Latched(w', p)) && (Latched(w', p) ==> Latched(w, p) || Crowded(w', p))
  }

  ghost predicate CopyEffects(w: World, w': World, arg: Value) {
    && Latches(w, w') && w'.scope.Keys == w.scope.Keys
    && forall v: nat {:trigger Captures(arg, v)} :: v in w.scope && !Captures(arg, v) ==> w'.scope[v] == w.scope[v]
  }

  ghost predicate AssignEffects(w: World, w': World, c: Capture) {
    && Latches(w, w') && w'.scope.Keys == w.scope.Keys
    && forall v: nat {:trigger CapturesBy(c, v)} :: v in w.scope && !CapturesBy(c, v) ==> w'.scope[v] == w.scope[v]
  }

  lemma {:induction false} LatchesMove(w: World, m: Move)
    requires Sound(w) && Allowed(w, m) && (m.NewBlock? || m.NewByref? || m.Retain? || m.Store?)
    ensures Latches(w, After(w, m))
  {
    hide Sound, After, Allowed, Latched, Crowded, Pointing;
    forall p: nat
      ensures |Pointing(w.refs, p)| <= |Pointing(After(w, m).refs, p)|
      ensures Latched(w, p) ==> Latched(After(w, m), p)
      ensures Latched(After(w, m), p) ==> Latched(w, p) || Crowded(After(w, m), p)
    {
      PointingGrows(w, m, p);
      if Latched(w, p) {
        LatchedStays(w, m, p);
      } else if Latched(After(w, m), p) {
        LatchStep(w, m, p);
      }
    }
  }

  lemma {:induction false} PointingGrows(w: World, m: Move, p: nat)
    requires Sound(w) && Allowed(w, m) && (m.NewBlock? || m.NewByref? || m.Retain? || m.Store?)
    ensures |Pointing(w.refs, p)| <= |Pointing(After(w, m).refs, p)|
  {
    match m
    case NewBlock(q, id) => PointingAlso(w.refs, Program(id), q, p);
    case NewByref(q, id, v) =>
      assert FrameOk(w, v);
      PointingAlso(w.refs, Program(id), q, p);
      PointingAlso(w.refs[Program(id) := q], Frame(v), q, p);
    case Retain(q, id) => PointingAlso(w.refs, Program(id), q, p);
    case Store(b, id) =>
      if Program(id) in w.refs {
        assert SlotOk(w, b, |w.objs[b].holds|);
        PointingMoved(w.refs, Program(id), Slot(b, |w.objs[b].holds|));
      }
  }

  lemma {:induction false} LatchesTwice(w: World, mid: World, w': World)
    requires Latches(w, mid) && Latches(mid, w')
    ensures Latches(w, w')
  {
    hide Latched, Pointing;
    forall p: nat
      ensures |Pointing(w.refs, p)| <= |Pointing(w'.refs, p)|
      ensures Latched(w, p) ==> Latched(w', p)
      ensures Latched(w', p) ==> Latched(w, p) || Crowded(w', p)
    {
      assert Latched(w', p) ==> Latched(mid, p) || Crowded(w', p);
      assert Latched(mid, p) ==> Latched(w, p) || Crowded(mid, p);
    }
  }

  /** Nothing has happened but one retained pointer. */
  lemma {:induction false} MoveEffects(w: World, m: Move, arg: Value, c: Capture)
    requires Sound(w) && Allowed(w, m) && (m.NewBlock? || m.Retain? || m.Store?)
    ensures CopyEffects(w, After(w, m), arg) && AssignEffects(w, After(w, m), c)
  {
    LatchesMove(w, m);
    hide Sound, Latches, Allowed;
  }

  lemma {:induction false} NoEffects(w: World, arg: Value)
    ensures CopyEffects(w, w, arg)
  {
    hide Latched, Pointing;
  }

  /** A capture has been copied and stored. */
  lemma {:induction false} EffectsStep(w: World, mid: World, now: World, w': World, captures: seq<Capture>, i: nat)
    requires CopyEffects(w, mid, Stack(captures)) && i < |captures| && AssignEffects(mid, now, captures[i])
    requires CopyEffects(now, w', Stack(captures))
    ensures CopyEffects(w, w', Stack(captures))
  {
    hide Latches;
    LatchesTwice(w, mid, now);
    LatchesTwice(w, now, w');
    forall v: nat | v in w.scope && !Captures(Stack(captures), v) ensures w'.scope[v] == w.scope[v] {
      assert !CapturesBy(captures[i], v);
    }
  }

  lemma {:induction false} BlockEffects(w: World, w': World, b: Value)
    requires CopyEffects(w, w', b)
    ensures AssignEffects(w, w', OfBlock(b))
  {
    hide Latches;
    forall v: nat | v in w.scope && !CapturesBy(OfBlock(b), v) ensures w'.scope[v] == w.scope[v] {
      assert !Captures(b, v);
    }
  }

  lemma {:induction false} FirstEffects(w: World, m: Move)
    requires Sound(w) && m.NewByref? && Allowed(w, m)
    ensures AssignEffects(w, After(w, m), OfVariable(m.v))
  {
    LatchesMove(w, m);
    hide Sound, Latches;
  }

  /** Every count tells the references, if it has not latched before and there are not too many of them now. */
  ghost predicate Counts(w: World, w': World) {
    forall p :: p in w'.objs ==>
      w'.objs[p].count == if Latched(w, p) || Crowded(w', p) then REFCOUNT_MASK else |Pointing(w'.refs, p)|
  }

  lemma {:induction false} CountsOf(w: World, w': World)
    requires Sound(w') && Latches(w, w')
    ensures Counts(w, w')
  {
    forall p | p in w'.objs
      ensures w'.objs[p].count == if Latched(w, p) || Crowded(w', p) then REFCOUNT_MASK else |Pointing(w'.refs, p)|
    {
      assert CountOk(w', p);
      CrowdedCounts(w, w', p);
    }
  }

  lemma {:induction false} CrowdedCounts(w: World, w': World, p: nat)
    requires Sound(w') && Latches(w, w')
    ensures Latched(w', p) <==> Latched(w, p) || Crowded(w', p)
  {
    assert Latched(w', p) || !Latched(w', p);
    if Crowded(w', p) {
      CrowdedLatches(w', p);
    }
  }

  // ----- Variables

  /** A variable that has moved is alive: its frame refers to it. */
  lemma {:induction false} VariableAlive(w: World, v: nat)
    requires Sound(w) && v in w.scope && w.scope[v].Some?
    ensures var p := w.scope[v].value; p in w.objs && w.objs[p].byref && p !in w.dying
  {
    assert FrameOk(w, v);
    Referenced(w.refs, Frame(v));
    assert CountOk(w, w.scope[v].value);
  }

  lemma {:induction false} AssignMoved(w: World, c: Capture, p: nat, id: nat)
    requires Sound(w) && p in w.objs && w.objs[p].byref && p !in w.dying && Spare(w, id)
    requires if c.OfVariable? then c.v in w.scope && w.scope[c.v] == Some(p) else c == OfByref(p)
    ensures AssignSpec(w, Retained(w, id, p), c, Some(p), id)
  {
    RetainedSpec(w, id, p);
    hide Sound, Acyclic, Unheld;
  }

  lemma {:induction false} AssignFirst(w: World, v: nat, p: nat, id: nat)
    requires Sound(w) && p !in w.objs && Spare(w, id) && v in w.scope && w.scope[v].None?
    ensures AssignSpec(w, WithByref(w, p, id, v), OfVariable(v), Some(p), id)
  {
    hide CountOk, SlotOk, FrameOk, Ranked;
    var w' := WithByref(w, p, id, v);
    WithByrefSound(w, p, id, v);
    hide Sound;
    if Acyclic(w) {
      StillAcyclic(w, w');
    }
    hide Acyclic;
    forall q: nat | Unheld(w, q) ensures Unheld(w', q) {
      forall b: nat, i: nat | Slot(b, i) in w'.refs ensures w'.refs[Slot(b, i)] != q {
        assert Slot(b, i) in w.refs;
      }
    }
  }

  // ----- What releasing does

  /** Program(id) is gone, and no other reference of the program is; slots have gone, none have come. */
  ghost predicate Fewer(refs: Refs, refs': Refs, id: nat) {
    && |refs'| < |refs| && Program(id) !in refs'
    && (forall j: nat {:trigger Program(j)} :: j != id ==>
      (Program(j) in refs' <==> Program(j) in refs) && (Program(j) in refs ==> refs'[Program(j)] == refs[Program(j)]))
    && (forall b: nat, i: nat {:trigger Slot(b, i)} ::
      Slot(b, i) in refs' ==> Slot(b, i) in refs && refs[Slot(b, i)] == refs'[Slot(b, i)])
  }

  /** What is left, b apart, holds what it held. */
  ghost predicate Left(objs: Objs, objs': Objs, b: Option<nat>) {
    forall p {:trigger p in objs'} :: p in objs' && b != Some(p) ==>
      p in objs && objs'[p].holds == objs[p].holds && objs'[p].byref == objs[p].byref
  }

  ghost predicate ReleaseSpec(w: World, w': World, id: nat) {
    Sound(w') && w'.scope == w.scope && w'.dying == w.dying && Fewer(w.refs, w'.refs, id) && Left(w.objs, w'.objs, None)
  }

  /** After latching_decr_int(), and while the dispose helper of the object released runs. */
  ghost predicate Releasing(w: World, w': World, id: nat, b: nat)
    requires b in w.objs
  {
    && Sound(w') && w'.scope == w.scope && Fewer(w.refs, w'.refs, id) && Left(w.objs, w'.objs, Some(b))
    && b in w'.objs && w'.objs[b].byref == w.objs[b].byref
  }

  lemma {:induction false} ReleaseStart(w: World, id: nat)
    requires Sound(w) && Program(id) in w.refs
    ensures var b := w.refs[Program(id)];
      && b in w.objs && b !in w.dying && w.objs[b].count > 0 && Releasing(w, Dropped(w, id), id, b)
      && b in Dropped(w, id).objs && Dropped(w, id).objs[b].holds == w.objs[b].holds && Dropped(w, id).objs[b].count == Lowered(w.objs[b].count)
      && Dropped(w, id).dying == if w.objs[b].count == 1 then w.dying + {b} else w.dying
  {
    DroppedSound(w, id);
    hide Sound;
    assert (w.refs - {Program(id)}).Keys == w.refs.Keys - {Program(id)};
    assert |w.refs| == |w.refs.Keys| && |w.refs - {Program(id)}| == |(w.refs - {Program(id)}).Keys|;
  }

  /** Not the last reference. */
  lemma {:induction false} ReleaseShared(w: World, id: nat)
    requires Sound(w) && Program(id) in w.refs && w.objs[w.refs[Program(id)]].count != 1
    ensures ReleaseSpec(w, Dropped(w, id), id)
  {
    ReleaseStart(w, id);
    hide Sound;
  }

  /** The dispose helper has released the last of what b held. */
  lemma {:induction false} ReleaseNone(w: World, w': World, id: nat, b: nat)
    requires b in w.objs && Releasing(w, w', id, b) && w'.objs[b].holds != [] && w'.objs[b].holds[|w'.objs[b].holds| - 1] == None
    ensures Releasing(w, Unstored(w', b, id), id, b)
  {
    UnstoredSound(w', b, id);
    hide Sound;
  }

  lemma {:induction false} FewerStill(refs: Refs, mid: Refs, r: Ref, refs': Refs, id: nat)
    requires Fewer(refs, mid, id) && r in mid && r.Slot? && Fewer(Moved(mid, r, Program(id)), refs', id)
    requires |Moved(mid, r, Program(id))| == |mid|
    ensures Fewer(refs, refs', id)
  {
    hide Pointing;
    var moved := Moved(mid, r, Program(id));
    forall b: nat, i: nat | Slot(b, i) in refs' ensures Slot(b, i) in refs && refs[Slot(b, i)] == refs'[Slot(b, i)] {
      assert Slot(b, i) in moved;
      assert Slot(b, i) in mid;
    }
    forall j: nat | j != id
      ensures (Program(j) in refs' <==> Program(j) in refs) && (Program(j) in refs ==> refs'[Program(j)] == refs[Program(j)])
    {
      assert Program(j) in moved <==> Program(j) in mid;
    }
  }

  lemma {:induction false} DyingThere(w: World, b: nat)
    requires Sound(w) && b in w.dying
    ensures b in w.objs
  {
  }

  lemma {:induction false} ReleaseOne(w: World, w': World, w2: World, id: nat, b: nat)
    requires b in w.objs && Releasing(w, w', id, b) && b in w'.dying && w'.objs[b].holds != []
    requires w'.objs[b].holds[|w'.objs[b].holds| - 1].Some? && ReleaseSpec(Unstored(w', b, id), w2, id)
    ensures b in w2.objs && Releasing(w, w2, id, b) && w2.dying == w'.dying
    ensures |w2.objs[b].holds| == |w'.objs[b].holds| - 1
  {
    hide Sound, Pointing;
    UnstoredSound(w', b, id);
    UnstoredSize(w', b, id);
    var n, mid := |w'.objs[b].holds| - 1, Unstored(w', b, id);
    assert mid.refs == Moved(w'.refs, Slot(b, n), Program(id));
    assert mid.objs == w'.objs[b := w'.objs[b].(holds := w'.objs[b].holds[..n])] && mid.dying == w'.dying && mid.scope == w'.scope;
    DyingThere(w2, b);
    hide Unstored, Moved, Fewer;
    FewerStill(w.refs, w'.refs, Slot(b, n), w2.refs, id);
  }

  lemma {:induction false} UnstoredSize(w: World, b: nat, id: nat)
    requires b in w.objs && w.objs[b].holds != [] && Spare(w, id)
    ensures |Unstored(w, b, id).refs| == |w.refs|
  {
    var n := |w.objs[b].holds| - 1;
    if Slot(b, n) in w.refs {
      var r, r' := Slot(b, n), Program(id);
      assert Moved(w.refs, r, r').Keys == w.refs.Keys - {r} + {r'};
      assert |w.refs| == |w.refs.Keys| && |Moved(w.refs, r, r')| == |Moved(w.refs, r, r').Keys|;
    }
  }

  lemma {:induction false} ReleaseFreed(w: World, w': World, id: nat, b: nat)
    requires b in w.objs && b !in w.dying && Releasing(w, w', id, b) && w'.objs[b].holds == [] && w'.dying == w.dying + {b}
    ensures ReleaseSpec(w, Freed(w', b), id)
  {
    FreedSound(w', b);
    hide Sound, Fewer;
    assert w.dying + {b} - {b} == w.dying;
  }

  ghost predicate SameLatches(w: World, w': World) { forall p: nat {:trigger Latched(w', p)} :: Latched(w', p) <==> Latched(w, p) }

  lemma {:induction false} LatchesStay(w: World, m: Move)
    requires Sound(w) && Allowed(w, m) && (m.Drop? || m.Unstore? || m.Free? || m.Leave?)
    ensures SameLatches(w, After(w, m))
  {
    hide Sound, After, Allowed, Latched, Pointing;
    forall p: nat ensures Latched(After(w, m), p) <==> Latched(w, p) {
      if Latched(w, p) {
        LatchedStays(w, m, p);
      } else if Latched(After(w, m), p) {
        NotRetained(w, m, p);
      }
    }
  }

  lemma {:induction false} NotRetained(w: World, m: Move, p: nat)
    requires Sound(w) && Allowed(w, m) && (m.Drop? || m.Unstore? || m.Free? || m.Leave?) && Latched(After(w, m), p)
    ensures Latched(w, p)
  {
    if !Latched(w, p) {
      assert p in w.objs ==> CountOk(w, p);
      LatchRetains(w, m, p);
    }
  }

  lemma {:induction false} SameTwice(w: World, mid: World, w': World)
    requires SameLatches(w, mid) && SameLatches(mid, w')
    ensures SameLatches(w, w')
  {
    hide Latched;
    forall p: nat ensures Latched(w', p) <==> Latched(w, p) {
      assert Latched(mid, p) <==> Latched(w, p);
    }
  }

  /** Every count that has not latched before tells the references. */
  ghost predicate CountsLeft(w: World, w': World) {
    forall p :: p in w'.objs ==> w'.objs[p].count == if Latched(w, p) then REFCOUNT_MASK else |Pointing(w'.refs, p)|
  }

  lemma {:induction false} CountsAfter(w: World, w': World)
    requires Sound(w') && SameLatches(w, w')
    ensures CountsLeft(w, w')
  {
    hide Pointing;
    forall p | p in w'.objs ensures w'.objs[p].count == if Latched(w, p) then REFCOUNT_MASK else |Pointing(w'.refs, p)| {
      assert CountOk(w', p);
      assert Latched(w', p) <==> Latched(w, p);
    }
  }

  // ----- Runs

  /** The pieces that calls consist of, and that may alternate.  Retain, Drop, Store and so on are the steps of copy and
      dispose helpers; Enter and Leave are the frame of a __block variable. */
  datatype Move =
    | Enter(v: nat)
    | NewBlock(p: nat, id: nat)
    | NewByref(p: nat, id: nat, v: nat)
    | Retain(p: nat, id: nat)
    | Store(b: nat, id: nat)
    | Drop(id: nat)
    | Unstore(b: nat, id: nat)
    | Free(b: nat)
    | Leave(v: nat, id: nat)

  /** When a call takes the step: new objects are at new addresses, what is retained is alive, a block is filled before
      another holds it, and emptied and freed when it is disposed of.  The methods of Runtime keep to this. */
  ghost predicate Allowed(w: World, m: Move)
  {
    match m
    case Enter(v) => v !in w.scope
    case NewBlock(p, id) => p !in w.objs && Spare(w, id)
    case NewByref(p, id, v) => p !in w.objs && Spare(w, id) && v in w.scope && w.scope[v].None?
    case Retain(p, id) => p in w.objs && p !in w.dying && Spare(w, id)
    case Store(b, id) =>
      b in w.objs && !w.objs[b].byref && Unheld(w, b) && (Program(id) in w.refs ==> w.refs[Program(id)] != b)
    case Drop(id) => Program(id) in w.refs && w.refs[Program(id)] in w.objs
    case Unstore(b, id) => b in w.objs && b in w.dying && w.objs[b].holds != [] && Spare(w, id)
    case Free(b) => b in w.objs && b in w.dying && w.objs[b].holds == []
    case Leave(v, id) => v in w.scope && Spare(w, id)
  }

  ghost function After(w: World, m: Move): World
    requires Allowed(w, m)
  {
    match m
    case Enter(v) => w.(scope := w.scope[v := None])
    case NewBlock(p, id) => WithBlock(w, p, id)
    case NewByref(p, id, v) => WithByref(w, p, id, v)
    case Retain(p, id) => Retained(w, id, p)
    case Store(b, id) => Stored(w, b, id)
    case Drop(id) => Dropped(w, id)
    case Unstore(b, id) => Unstored(w, b, id)
    case Free(b) => Freed(w, b)
    case Leave(v, id) => FrameEnded(w, v, id)
  }

  ghost predicate StepAt(ws: seq<World>, ms: seq<Move>, i: nat)
    requires i < |ms| && |ws| == |ms| + 1
  {
    Allowed(ws[i], ms[i]) && ws[i + 1] == After(ws[i], ms[i])
  }

  /** The worlds ws from the empty heap on, between the moves ms. */
  ghost predicate IsRun(ws: seq<World>, ms: seq<Move>)
  {
    && |ws| == |ms| + 1 && ws[0] == World(map[], map[], map[], {})
    && forall i {:trigger StepAt(ws, ms, i)} :: 0 <= i < |ms| ==> StepAt(ws, ms, i)
  }

  ghost predicate EndsIn(ws: seq<World>, ms: seq<Move>, w: World) { IsRun(ws, ms) && ws[|ms|] == w }

  ghost predicate Reached(w: World) { exists ws, ms :: EndsIn(ws, ms, w) }

  lemma {:induction false} EmptyReached()
    ensures var w := World(map[], map[], map[], {});
      Reached(w) && Sound(w) && Acyclic(w)
  {
    var w := World(map[], map[], map[], {});
    var ws: seq<World>, ms: seq<Move> := [w], [];
    assert EndsIn(ws, ms, w);
    assert Ranked(w, map[]);
  }

  /** One more move. */
  lemma {:induction false} Go(w: World, m: Move)
    requires Allowed(w, m)
    ensures Reached(w) ==> Reached(After(w, m))
  {
    hide Allowed, After;
    if Reached(w) {
      var ws, ms :| EndsIn(ws, ms, w);
      var ws', ms' := ws + [After(w, m)], ms + [m];
      forall i | 0 <= i < |ms'| ensures StepAt(ws', ms', i) {
        assert i < |ms| ==> StepAt(ws, ms, i);
      }
      assert EndsIn(ws', ms', After(w, m));
    }
  }

  lemma {:induction false} EnteredSound(w: World, v: nat)
    requires Sound(w) && v !in w.scope
    ensures Sound(w.(scope := w.scope[v := None]))
  {
    hide Pointing;
    var w' := w.(scope := w.scope[v := None]);
    forall u: nat ensures FrameOk(w', u) {
      assert FrameOk(w, u);
    }
    forall p | p in w'.objs ensures CountOk(w', p) {
      assert CountOk(w, p);
    }
    forall b: nat, i: nat ensures SlotOk(w', b, i) {
      assert SlotOk(w, b, i);
    }
  }

  /** The counts stay right, and no cycle of blocks arises. */
  lemma {:induction false} MoveKeeps(w: World, m: Move)
    requires Sound(w) && Acyclic(w) && Allowed(w, m)
    ensures Sound(After(w, m)) && Acyclic(After(w, m))
  {
    hide Sound, Acyclic, Unheld, Retained, Dropped, WithBlock, WithByref, Stored, Unstored, Freed, FrameEnded;
    if m.Store? {
      StoredSound(w, m.b, m.id);
      StoredAcyclic(w, m.b, m.id);
    } else {
      FewerSlots(w, m);
      StillAcyclic(w, After(w, m));
    }
    match m
    case Enter(v) => EnteredSound(w, v);
    case NewBlock(p, id) => WithBlockSound(w, p, id);
    case NewByref(p, id, v) => WithByrefSound(w, p, id, v);
    case Retain(p, id) => RetainedSound(w, id, p);
    case Store(b, id) => StoredSound(w, b, id);
    case Drop(id) => DroppedSound(w, id);
    case Unstore(b, id) => UnstoredSound(w, b, id);
    case Free(b) => FreedSound(w, b);
    case Leave(v, id) => FrameEndedSound(w, v, id);
  }

  lemma {:induction false} FewerSlots(w: World, m: Move)
    requires Sound(w) && Allowed(w, m) && !m.Store?
    ensures forall b: nat, i: nat {:trigger Slot(b, i)} ::
      Slot(b, i) in After(w, m).refs ==> Slot(b, i) in w.refs && w.refs[Slot(b, i)] == After(w, m).refs[Slot(b, i)]
  {
    hide Sound, Unheld;
  }

  lemma {:induction false} StateSound(ws: seq<World>, ms: seq<Move>, i: nat)
    requires IsRun(ws, ms) && i <= |ms|
    ensures Sound(ws[i]) && Acyclic(ws[i])
  {
    hide Sound, Acyclic, Allowed, After;
    if i == 0 {
      EmptyReached();
    } else {
      StateSound(ws, ms, i - 1);
      assert StepAt(ws, ms, i - 1);
      MoveKeeps(ws[i - 1], ms[i - 1]);
    }
  }

  // ----- When a count latches

  /** There have been as many references to the object as its count cannot tell. */
  ghost predicate TooMany(ws: seq<World>, i: nat, p: nat)
    requires i < |ws|
  {
    exists j: nat :: j <= i && Crowded(ws[j], p)
  }

  ghost predicate Crowded(w: World, p: nat) { |Pointing(w.refs, p)| >= REFCOUNT_MASK }

  ghost predicate Latched(w: World, p: nat) { p in w.objs && w.objs[p].count == REFCOUNT_MASK }

  /** Only retaining an object latches its count, and only with the last reference that it could count. */
  lemma {:induction false} LatchStep(w: World, m: Move, p: nat)
    requires Sound(w) && Allowed(w, m) && !Latched(w, p) && Latched(After(w, m), p)
    ensures Crowded(After(w, m), p)
  {
    assert p in w.objs ==> CountOk(w, p);
    LatchRetains(w, m, p);
    PointingAdd(w.refs, Program(m.id), p);
  }

  lemma {:induction false} LatchRetains(w: World, m: Move, p: nat)
    requires Allowed(w, m) && !Latched(w, p) && Latched(After(w, m), p) && (p in w.objs ==> w.objs[p].count < REFCOUNT_MASK)
    ensures m.Retain? && m.p == p && p in w.objs && w.objs[p].count + 1 == REFCOUNT_MASK
  {
    hide Unheld, Pointing;
  }

  /** A latched object stays, and so does its count. */
  lemma {:induction false} LatchedStays(w: World, m: Move, p: nat)
    requires Sound(w) && Allowed(w, m) && Latched(w, p)
    ensures Latched(After(w, m), p)
  {
    assert CountOk(w, p);
    hide Sound, Unheld, Pointing;
  }

  lemma {:induction false} CrowdedLatches(w: World, p: nat)
    requires Sound(w) && Crowded(w, p)
    ensures Latched(w, p)
  {
    if p !in w.objs {
      NothingPoints(w, p);
    } else {
      assert CountOk(w, p);
    }
  }

  lemma {:induction false} LatchedSince(ws: seq<World>, ms: seq<Move>, i: nat, p: nat)
    requires IsRun(ws, ms) && i <= |ms| && Latched(ws[i], p)
    ensures TooMany(ws, i, p)
  {
    hide Latched, Crowded, Allowed, After, Sound, Acyclic;
    if i == 0 {
      NothingLatched(ws, ms, p);
    } else {
      StateSound(ws, ms, i - 1);
      assert StepAt(ws, ms, i - 1);
      if Latched(ws[i - 1], p) {
        LatchedSince(ws, ms, i - 1, p);
        var j: nat :| j <= i - 1 && Crowded(ws[j], p);
        assert j <= i;
      } else {
        LatchStep(ws[i - 1], ms[i - 1], p);
      }
    }
  }

  lemma {:induction false} NothingLatched(ws: seq<World>, ms: seq<Move>, p: nat)
    requires IsRun(ws, ms)
    ensures !Latched(ws[0], p)
  {
  }

  lemma {:induction false} LatchedOn(ws: seq<World>, ms: seq<Move>, j: nat, i: nat, p: nat)
    requires IsRun(ws, ms) && j <= i <= |ms| && Latched(ws[j], p)
    ensures Latched(ws[i], p)
  {
    hide Latched, Allowed, After, Sound, Acyclic;
    if j < i {
      LatchedOn(ws, ms, j, i - 1, p);
      StateSound(ws, ms, i - 1);
      assert StepAt(ws, ms, i - 1);
      LatchedStays(ws[i - 1], ms[i - 1], p);
    }
  }

  /** A count is latched, and its object will never be freed, if and only if there once were 0xffff references to it. */
  lemma {:induction false} LatchedExactly(ws: seq<World>, ms: seq<Move>, i: nat, p: nat)
    requires IsRun(ws, ms) && i <= |ms|
    ensures Latched(ws[i], p) <==> TooMany(ws, i, p)
    ensures forall k :: i <= k <= |ms| && Latched(ws[i], p) ==> Latched(ws[k], p)
  {
    hide Latched, Crowded, IsRun, Sound, Acyclic;
    RunLength(ws, ms);
    if Latched(ws[i], p) {
      LatchedSince(ws, ms, i, p);
      forall k | i <= k <= |ms| ensures Latched(ws[k], p) {
        LatchedOn(ws, ms, i, k, p);
      }
    }
    if TooMany(ws, i, p) {
      var j: nat :| j <= i && Crowded(ws[j], p);
      StateSound(ws, ms, j);
      CrowdedLatches(ws[j], p);
      LatchedOn(ws, ms, j, i, p);
    }
  }

  lemma {:induction false} RunLength(ws: seq<World>, ms: seq<Move>)
    requires IsRun(ws, ms)
    ensures |ws| == |ms| + 1
  {
  }

  // ----- What the counts mean

  function Slots(w: World, p: nat): set<Ref> { set r | r in w.refs && r.Slot? && w.refs[r] == p }

  function Programs(w: World, p: nat): set<Ref> { set r | r in w.refs && r.Program? && w.refs[r] == p }

  /** A variable that is in scope has moved to p. */
  ghost predicate OnStack(w: World, p: nat) { exists v :: v in w.scope && w.scope[v] == Some(p) }

  /** In every state of every run a byref on the heap counts the pointers to it in heap blocks, one for the stack
      while its frame lasts, and those that calls in progress hold: between calls there are none.  From 0xffff references
      on it counts no more. */
  lemma {:induction false} ByrefCount(ws: seq<World>, ms: seq<Move>, i: nat, p: nat)
    requires IsRun(ws, ms) && i <= |ms| && p in ws[i].objs && ws[i].objs[p].byref
    ensures ws[i].objs[p].count ==
      if TooMany(ws, i, p) then REFCOUNT_MASK
      else |Slots(ws[i], p)| + |Programs(ws[i], p)| + if OnStack(ws[i], p) then 1 else 0
    ensures Idle(ws[i]) ==> Programs(ws[i], p) == {}
  {
    StateSound(ws, ms, i);
    LatchedExactly(ws, ms, i, p);
    hide IsRun, Acyclic, TooMany;
    if !Latched(ws[i], p) {
      ByrefCounted(ws[i], p);
    }
  }

  lemma {:induction false} ByrefCounted(w: World, p: nat)
    requires Sound(w) && p in w.objs && w.objs[p].byref && w.objs[p].count != REFCOUNT_MASK
    ensures w.objs[p].count == |Slots(w, p)| + |Programs(w, p)| + if OnStack(w, p) then 1 else 0
  {
    assert CountOk(w, p);
    forall r | r in Pointing(w.refs, p) && r.Frame? ensures OnStack(w, p) && r.v in w.scope && w.scope[r.v] == Some(p) {
      assert FrameOk(w, r.v);
    }
    if OnStack(w, p) {
      var v :| v in w.scope && w.scope[v] == Some(p);
      assert FrameOk(w, v);
      assert Pointing(w.refs, p) == Slots(w, p) + Programs(w, p) + {Frame(v)};
    } else {
      assert Pointing(w.refs, p) == Slots(w, p) + Programs(w, p);
    }
  }

  /** In every state of every run a block counts the pointers to it in heap blocks, and the references of the program,
      until there have been 0xffff. */
  lemma {:induction false} BlockCount(ws: seq<World>, ms: seq<Move>, i: nat, p: nat)
    requires IsRun(ws, ms) && i <= |ms| && p in ws[i].objs && !ws[i].objs[p].byref
    ensures ws[i].objs[p].count ==
      if TooMany(ws, i, p) then REFCOUNT_MASK else |Slots(ws[i], p)| + |Programs(ws[i], p)|
  {
    StateSound(ws, ms, i);
    LatchedExactly(ws, ms, i, p);
    hide IsRun, Acyclic, TooMany;
    if !Latched(ws[i], p) {
      BlockCounted(ws[i], p);
    }
  }

  lemma {:induction false} BlockCounted(w: World, p: nat)
    requires Sound(w) && p in w.objs && !w.objs[p].byref && w.objs[p].count != REFCOUNT_MASK
    ensures w.objs[p].count == |Slots(w, p)| + |Programs(w, p)|
  {
    assert CountOk(w, p);
    forall r | r in Pointing(w.refs, p) ensures !r.Frame? {
      assert r.Frame? ==> FrameOk(w, r.v);
    }
    assert Pointing(w.refs, p) == Slots(w, p) + Programs(w, p);
  }

  lemma {:induction false} Highest(s: set<nat>, rank: map<nat, nat>) returns (p: nat)
    requires s != {}
    ensures p in s && forall q :: q in s ==> RankOf(rank, q) <= RankOf(rank, p)
    decreases s
  {
    p :| p in s;
    if s != {p} {
      var rest := s - {p};
      var q := Highest(rest, rank);
      assert forall x :: x in s ==> x == p || x in rest;
      if RankOf(rank, q) > RankOf(rank, p) {
        p := q;
      }
    }
  }

  /** Nothing leaks, whatever the run: once the program has released its references and left its frames, and no
      disposal is under way, the heap is empty, if and only if no object ever had 0xffff references. */
  lemma {:induction false} NothingLeaks(ws: seq<World>, ms: seq<Move>, i: nat)
    requires IsRun(ws, ms) && i <= |ms| && ws[i].dying == {} && ws[i].scope == map[] && forall id: nat :: Spare(ws[i], id)
    ensures ws[i].objs == map[] <==> forall p: nat :: !TooMany(ws, i, p)
  {
    StateSound(ws, ms, i);
    forall p: nat ensures Latched(ws[i], p) <==> TooMany(ws, i, p) {
      LatchedExactly(ws, ms, i, p);
    }
    hide IsRun, Sound, TooMany;
    if forall p: nat :: !TooMany(ws, i, p) {
      NoneLatched(ws[i]);
    }
  }

  lemma {:induction false} NoneLatched(w: World)
    requires Sound(w) && Acyclic(w) && w.dying == {} && w.scope == map[] && forall id: nat :: Spare(w, id)
    requires forall p: nat :: !Latched(w, p)
    ensures w.objs == map[]
  {
    if w.objs != map[] {
      assert w.objs.Keys != {};
      var rank :| Ranked(w, rank);
      var p := Highest(w.objs.Keys, rank);
      assert !Latched(w, p);
      HighestHeld(w, rank, p);
    }
  }

  lemma {:induction false} HighestHeld(w: World, rank: map<nat, nat>, p: nat)
    requires Sound(w) && w.dying == {} && w.scope == map[] && Ranked(w, rank) && p in w.objs && w.objs[p].count != REFCOUNT_MASK
    requires forall id: nat :: Spare(w, id)
    ensures exists q :: q in w.objs && RankOf(rank, q) > RankOf(rank, p)
  {
    assert CountOk(w, p);
    assert Pointing(w.refs, p) != {};
    var r :| r in Pointing(w.refs, p);
    assert r.Program? ==> !Spare(w, r.id);
    assert r.Frame? ==> FrameOk(w, r.v);
    assert r.Slot?;
    assert SlotOk(w, r.block, r.i);
    assert RankOf(rank, w.refs[Slot(r.block, r.i)]) < RankOf(rank, r.block);
  }

  // ----- The calls

  lemma {:induction false} SomeAddress(objs: Objs)
    ensures exists p: nat :: p !in objs
  {
    var top := Above(objs.Keys);
    assert top !in objs;
  }

  lemma {:induction false} SomeSpare(w: World, id: nat)
    ensures exists j: nat :: Spare(w, j) && j != id
  {
    var ids := (set r | r in w.refs && r.Program? :: r.id) + {id};
    var top := Above(ids);
    assert Program(top) in w.refs ==> top in ids;
    assert Spare(w, top) && top != id;
  }

  lemma {:induction false} CopyNothing(w: World, arg: Value, id: nat)
    requires Sound(w) && Spare(w, id) && (arg.Null? || arg.Global?)
    ensures CopySpec(w, w, arg, arg, id)
  {
    hide Sound, Acyclic, Unheld;
  }

  lemma {:induction false} CopyHeap(w: World, p: nat, id: nat)
    requires Sound(w) && Usable(w, Heap(p)) && Spare(w, id)
    ensures p in w.objs && CopySpec(w, Retained(w, id, p), Heap(p), Heap(p), id)
  {
    RetainedSpec(w, id, p);
    hide Sound, Acyclic, Unheld;
  }

  class Runtime {
    var objs: Objs
    var scope: Scope
    ghost var refs: Refs
    ghost var dying: set<nat>

    ghost function Now(): World
      reads this
    {
      World(objs, scope, refs, dying)
    }

    ghost predicate Valid()
      reads this
    {
      AtRest(Now()) && Reached(Now())
    }

    constructor ()
      ensures Now() == World(map[], map[], map[], {}) && Valid()
    {
      objs, scope, refs, dying := map[], map[], map[], {};
      new;
      hide Reached;
      EmptyReached();
    }

    /** A __block variable comes into scope, on the stack. */
    method Declare(v: nat)
      requires Valid() && v !in scope
      modifies this`scope
      ensures Valid() && scope == old(scope)[v := None]
    {
      hide Reached, Sound, Acyclic;
      Declared(Now(), v);
      Go(Now(), Enter(v));
      scope := scope[v := None];
    }

    /** latching_incr_int() */
    method LatchingIncr(p: nat, ghost id: nat)
      requires p in objs
      modifies this
      ensures Now() == Retained(old(Now()), id, p)
    {
      var count := objs[p].count;
      if count != REFCOUNT_MASK {
        objs := objs[p := objs[p].(count := count + 1)];
      } else {
        assert objs == objs[p := objs[p].(count := count)];
      }
      refs := refs[Program(id) := p];
    }

    /** latching_decr_int() */
    method LatchingDecr(p: nat, ghost id: nat) returns (left: nat)
      requires p in objs && Program(id) in refs && refs[Program(id)] == p
      modifies this
      ensures Now() == Dropped(old(Now()), id) && left == objs[p].count
    {
      left := objs[p].count;
      if left != REFCOUNT_MASK && left != 0 {
        left := left - 1;
      }
      objs := objs[p := objs[p].(count := left)];
      refs := refs - {Program(id)};
      dying := if left == 0 then dying + {p} else dying;
    }

    /** _Block_copy_internal(), BlocksRuntime/runtime.c:285-326 */
    method CopyInternal(arg: Value, ghost id: nat) returns (r: Value)
      requires Sound(Now()) && Usable(Now(), arg) && Spare(Now(), id)
      modifies this
      ensures CopySpec(old(Now()), Now(), arg, r, id) && CopyEffects(old(Now()), Now(), arg)
      ensures old(Reached(Now())) ==> Reached(Now())
      decreases arg
    {
      hide Reached, Sound, CopySpec, Usable, AssignSpec, Building, Stored, Spare, Unheld, CopyEffects, AssignEffects;
      ghost var was := Now();
      NoEffects(was, arg);
      match arg
      case Null =>
        CopyNothing(was, arg, id);
        r := Null;
      case Global =>
        CopyNothing(was, arg, id);
        r := Global;
      case Heap(p) =>
        CopyHeap(was, p, id);
        HeapAlive(was, p);
        Go(was, Retain(p, id));
        MoveEffects(was, Retain(p, id), arg, OfByref(p));
        LatchingIncr(p, id);
        r := arg;
      case Stack(captures) =>
        SomeAddress(objs);
        var b: nat :| b !in objs;
        BuildStart(was, captures, b, id);
        objs := objs[b := Obj(false, 1, [])];
        refs := refs[Program(id) := b];
        assert Now() == WithBlock(was, b, id);
        Go(was, NewBlock(b, id));
        MoveEffects(was, NewBlock(b, id), arg, OfByref(b));
        var i := 0;
        while i < |captures|
          invariant i <= |captures| && Building(was, Now(), captures, i, b, id)
          invariant Reached(was) ==> Reached(Now())
          invariant CopyEffects(was, Now(), arg)
        {
          ghost var mid := Now();
          SomeSpare(mid, id);
          ghost var spare :| Spare(mid, spare) && spare != id;
          BuildUsable(was, mid, captures, i, b, id);
          var held := ObjectAssign(captures[i], spare);
          ghost var now := Now();
          BuildStep(was, mid, now, captures, i, b, id, held, spare);
          BuildHeld(mid, now, captures[i], held, spare, b);
          BuildReady(was, mid, now, captures, i, b, id, held, spare);
          Go(now, Move.Store(b, spare));
          SpecSound(mid, now, captures[i], held, spare);
          MoveEffects(now, Move.Store(b, spare), arg, captures[i]);
          EffectsStep(was, mid, now, After(now, Move.Store(b, spare)), captures, i);
          Store(b, held, spare);
          i := i + 1;
        }
        BuildDone(was, Now(), captures, b, id);
        r := Heap(b);
    }

    /** The pointer that has been retained goes into the new block. */
    method Store(b: nat, held: Option<nat>, ghost spare: nat)
      requires b in objs && held == if Program(spare) in refs then Some(refs[Program(spare)]) else None
      modifies this
      ensures Now() == Stored(old(Now()), b, spare)
    {
      ghost var was := Now();
      objs := objs[b := objs[b].(holds := objs[b].holds + [held])];
      refs := if held.Some? then Moved(refs, Program(spare), Slot(b, |was.objs[b].holds|)) else refs;
    }

    /** _Block_object_assign(), called by a copy helper, BlocksRuntime/runtime.c:560-587 */
    method ObjectAssign(c: Capture, ghost id: nat) returns (held: Option<nat>)
      requires Sound(Now()) && CaptureUsable(Now(), c) && Spare(Now(), id)
      modifies this
      ensures AssignSpec(old(Now()), Now(), c, held, id) && AssignEffects(old(Now()), Now(), c)
      ensures old(Reached(Now())) ==> Reached(Now())
      decreases c
    {
      hide Reached, Sound, CopySpec, Usable, AssignSpec, Spare, CopyEffects, AssignEffects;
      ghost var was := Now();
      match c
      case OfBlock(block) =>
        var r := CopyInternal(block, id);
        AssignBlock(was, Now(), block, r, id);
        BlockEffects(was, Now(), block);
        held := if r.Heap? then Some(r.p) else None;
      case OfVariable(v) =>
        held := ByrefAssignCopy(v, id);
      case OfByref(p) =>
        AssignMoved(was, c, p, id);
        Go(was, Retain(p, id));
        MoveEffects(was, Retain(p, id), Null, c);
        LatchingIncr(p, id);
        held := Some(p);
    }

    /** _Block_byref_assign_copy(), BlocksRuntime/runtime.c:368-410: the first copy moves the variable. */
    method ByrefAssignCopy(v: nat, ghost id: nat) returns (held: Option<nat>)
      requires Sound(Now()) && v in scope && Spare(Now(), id)
      modifies this
      ensures AssignSpec(old(Now()), Now(), OfVariable(v), held, id) && AssignEffects(old(Now()), Now(), OfVariable(v))
      ensures old(Reached(Now())) ==> Reached(Now())
    {
      hide Reached, Sound, AssignSpec, Spare, AssignEffects;
      ghost var was := Now();
      match scope[v]
      case None =>
        SomeAddress(objs);
        var p: nat :| p !in objs;
        AssignFirst(was, v, p, id);
        Go(was, NewByref(p, id, v));
        FirstEffects(was, NewByref(p, id, v));
        objs := objs[p := Obj(true, 2, [])];
        scope := scope[v := Some(p)];
        refs := refs[Program(id) := p][Frame(v) := p];
        held := Some(p);
      case Some(p) =>
        VariableAlive(was, v);
        AssignMoved(was, OfVariable(v), p, id);
        Go(was, Retain(p, id));
        MoveEffects(was, Retain(p, id), Null, OfVariable(v));
        LatchingIncr(p, id);
        held := Some(p);
    }

    /** The dispose helper takes up the last pointer that is left. */
    method Unstore(b: nat, ghost id: nat) returns (held: Option<nat>)
      requires b in objs && objs[b].holds != []
      modifies this
      ensures Now() == Unstored(old(Now()), b, id) && held == old(objs)[b].holds[|old(objs)[b].holds| - 1]
    {
      var n := |objs[b].holds| - 1;
      held := objs[b].holds[n];
      objs := objs[b := objs[b].(holds := objs[b].holds[..n])];
      refs := if Slot(b, n) in refs then Moved(refs, Slot(b, n), Program(id)) else refs;
    }

    /** _Block_release(), BlocksRuntime/runtime.c:459-482, on a block; _Block_byref_release(), 414-439, on
        a byref. */
    method Release(p: nat, ghost id: nat)
      requires Sound(Now()) && Program(id) in refs && refs[Program(id)] == p
      modifies this
      ensures ReleaseSpec(old(Now()), Now(), id)
      ensures p in old(objs) && (p in objs <==> old(objs)[p].count != 1)
      ensures SameLatches(old(Now()), Now()) && (old(Reached(Now())) ==> Reached(Now()))
      decreases |refs|
    {
      hide Reached, Sound, ReleaseSpec, Releasing, Unstored, Dropped, Fewer, Left, SameLatches;
      ghost var was := Now();
      ReleaseStart(was, id);
      Go(was, Drop(id));
      LatchesStay(was, Drop(id));
      var left := LatchingDecr(p, id);
      if left > 0 {
        ReleaseShared(was, id);
        return;
      }
      while objs[p].holds != []
        invariant p in objs && Releasing(was, Now(), id, p) && dying == was.dying + {p}
        invariant SameLatches(was, Now()) && (Reached(was) ==> Reached(Now()))
        decreases |objs[p].holds|
      {
        ghost var mid := Now();
        FewerSpare(was, mid, id, p);
        UnstoredSound(mid, p, id);
        UnstoredSize(mid, p, id);
        Go(mid, Move.Unstore(p, id));
        LatchesStay(mid, Move.Unstore(p, id));
        ghost var size := |objs[p].holds|;
        var held := Unstore(p, id);
        UnstoredHeld(mid, p, id);
        SameTwice(was, mid, Now());
        ghost var taken := Now();
        match held
        case None =>
          ReleaseNone(was, mid, id, p);
        case Some(q) =>
          Release(q, id);
          ReleaseOne(was, mid, Now(), id, p);
          SameTwice(was, taken, Now());
      }
      ReleaseFreed(was, Now(), id, p);
      ghost var empty := Now();
      StillSound(was, empty, id, p);
      Go(empty, Free(p));
      LatchesStay(empty, Free(p));
      SameTwice(was, empty, After(empty, Free(p)));
      objs := objs - {p};
      dying := dying - {p};
    }

    /** _Block_copy(): the program gets a reference to the copy. */
    method BlockCopy(arg: Value, ghost id: nat) returns (r: Value)
      requires Valid() && Usable(Now(), arg) && Spare(Now(), id)
      modifies this
      ensures Valid() && CopySpec(old(Now()), Now(), arg, r, id) && CopyEffects(old(Now()), Now(), arg)
      ensures Counts(old(Now()), Now())
    {
      hide Reached, Sound, CopySpec, Usable, Spare, CopyEffects, Counts, Latches;
      ghost var was := Now();
      r := CopyInternal(arg, id);
      CopyCounts(was, Now(), arg, r, id);
      CopyRest(was, Now(), arg, r, id);
    }

    /** _Block_release(): the program gives a reference up. */
    method BlockRelease(p: nat, ghost id: nat)
      requires Valid() && Program(id) in refs && refs[Program(id)] == p
      modifies this
      ensures Valid() && ReleaseSpec(old(Now()), Now(), id)
      ensures p in old(objs) && (p in objs <==> old(objs)[p].count != 1) && CountsLeft(old(Now()), Now())
    {
      hide Reached, Sound, ReleaseSpec, SameLatches;
      ghost var was := Now();
      TargetsThere(was);
      Release(p, id);
      ReleaseRest(was, Now(), id);
      CountsAfter(was, Now());
    }

    /** The frame of a __block variable ends: _Block_object_dispose() on it, BlocksRuntime/runtime.c:593-607. */
    method LeaveScope(v: nat)
      requires Valid() && v in scope
      modifies this
      ensures Valid() && scope == old(scope) - {v}
      ensures forall p: nat :: p in objs ==> p in old(objs) && objs[p].holds == old(objs)[p].holds
      ensures forall j: nat {:trigger Program(j)} ::
        (Program(j) in refs <==> Program(j) in old(refs)) && (Program(j) in refs ==> refs[Program(j)] == old(refs)[Program(j)])
      ensures CountsLeft(old(Now()), Now())
    {
      hide Reached, Sound, ReleaseSpec, Acyclic, SameLatches, CountsLeft;
      ghost var was := Now();
      SomeSpare(was, 0);
      ghost var id :| Spare(was, id) && id != 0;
      FrameEndedSound(was, v, id);
      FrameEndedRest(was, v, id);
      Go(was, Leave(v, id));
      LatchesStay(was, Leave(v, id));
      var moved := scope[v];
      scope := scope - {v};
      refs := if Frame(v) in refs then Moved(refs, Frame(v), Program(id)) else refs;
      ghost var mid := Now();
      if moved.Some? {
        Release(moved.value, id);
        ReleaseRest(mid, Now(), id);
        ReleaseLeft(mid, Now(), id);
        SameTwice(was, mid, Now());
      }
      CountsAfter(was, Now());
    }
  }

  lemma {:induction false} StillSound(w: World, w': World, id: nat, b: nat)
    requires b in w.objs && Releasing(w, w', id, b)
    ensures Sound(w')
  {
  }

  lemma {:induction false} SpecSound(w: World, w': World, c: Capture, held: Option<nat>, id: nat)
    requires AssignSpec(w, w', c, held, id)
    ensures Sound(w')
  {
  }

  lemma {:induction false} CopyCounts(w: World, w': World, arg: Value, r: Value, id: nat)
    requires CopySpec(w, w', arg, r, id) && CopyEffects(w, w', arg)
    ensures Counts(w, w')
  {
    hide Sound, Latches, Counts;
    CountsOf(w, w');
  }

  lemma {:induction false} TargetsThere(w: World)
    requires Sound(w)
    ensures forall r :: r in w.refs ==> w.refs[r] in w.objs
  {
  }

  lemma {:induction false} CopyRest(w: World, w': World, arg: Value, r: Value, id: nat)
    requires AtRest(w) && Spare(w, id) && CopySpec(w, w', arg, r, id)
    ensures AtRest(w')
  {
    TargetsThere(w);
    TargetsThere(w');
    hide Sound, Acyclic, Unheld, Copied;
    forall j: nat | Program(j) in w'.refs ensures !w'.objs[w'.refs[Program(j)]].byref {
      if j != id {
        assert !Spare(w', j);
        assert !Spare(w, j);
        KeptAcross(w, w', w.refs[Program(j)], j);
      }
    }
  }

  lemma {:induction false} ReleaseRest(w: World, w': World, id: nat)
    requires Sound(w) && Acyclic(w) && w.dying == {} && ReleaseSpec(w, w', id)
    requires forall j: nat :: Program(j) in w.refs && j != id ==> !w.objs[w.refs[Program(j)]].byref
    ensures AtRest(w')
  {
    StillAcyclic(w, w');
    forall j: nat | Program(j) in w'.refs ensures !w'.objs[w'.refs[Program(j)]].byref {
      assert w'.refs[Program(j)] in w'.objs;
    }
  }

  lemma {:induction false} ReleaseLeft(w: World, w': World, id: nat)
    requires ReleaseSpec(w, w', id)
    ensures w'.scope == w.scope && forall p: nat :: p in w'.objs ==> p in w.objs && w'.objs[p].holds == w.objs[p].holds
    ensures Program(id) !in w'.refs && forall j: nat {:trigger Program(j)} :: j != id ==>
      (Program(j) in w'.refs <==> Program(j) in w.refs) && (Program(j) in w.refs ==> w'.refs[Program(j)] == w.refs[Program(j)])
  {
    hide Sound;
  }

  lemma {:induction false} FrameEndedRest(w: World, v: nat, id: nat)
    requires AtRest(w) && v in w.scope && Spare(w, id)
    ensures var w' := FrameEnded(w, v, id);
      && Acyclic(w') && w'.dying == {} && (w.scope[v].None? ==> AtRest(w'))
      && forall j: nat :: Program(j) in w'.refs && j != id ==> w'.refs[Program(j)] in w'.objs && !w'.objs[w'.refs[Program(j)]].byref
  {
    FrameEndedSound(w, v, id);
    StillAcyclic(w, FrameEnded(w, v, id));
  }

  lemma {:induction false} Declared(w: World, v: nat)
    requires AtRest(w) && v !in w.scope
    ensures AtRest(w.(scope := w.scope[v := None]))
  {
    var w' := w.(scope := w.scope[v := None]);
    EnteredSound(w, v);
    StillAcyclic(w, w');
  }

  lemma {:induction false} FewerSpare(w: World, w': World, id: nat, b: nat)
    requires b in w.objs && Releasing(w, w', id, b)
    ensures Sound(w') && Spare(w', id) && |w'.refs| < |w.refs| && b in w'.objs
  {
  }

  lemma {:induction false} UnstoredHeld(w: World, b: nat, id: nat)
    requires b in w.objs && w.objs[b].holds != [] && Sound(w) && Spare(w, id)
    ensures var n := |w.objs[b].holds| - 1; var w' := Unstored(w, b, id);
      && (w.objs[b].holds[n].Some? ==> Program(id) in w'.refs && w'.refs[Program(id)] == w.objs[b].holds[n].value)
      && b in w'.objs && |w'.objs[b].holds| == n && w'.dying == w.dying && w'.scope == w.scope
  {
    UnstoredSound(w, b, id);
  }

  lemma {:induction false} BuildUsable(w: World, w': World, captures: seq<Capture>, i: nat, b: nat, id: nat)
    requires Building(w, w', captures, i, b, id) && i < |captures|
    ensures Sound(w') && CaptureUsable(w', captures[i]) && b in w'.objs
  {
  }

  lemma {:induction false} HeapAlive(w: World, p: nat)
    requires Usable(w, Heap(p))
    ensures p in w.objs && p !in w.dying
  {
  }

  /** The block in the making may be filled: nothing holds it, and the copy is another object. */
  lemma {:induction false} BuildReady(w: World, mid: World, w': World, captures: seq<Capture>, i: nat, b: nat, id: nat,
      held: Option<nat>, spare: nat)
    requires Building(w, mid, captures, i, b, id) && i < |captures| && AssignSpec(mid, w', captures[i], held, spare)
    ensures Allowed(w', Move.Store(b, spare))
  {
    hide Sound, Acyclic, CaptureCopied, CaptureUsable, CaptureMentions, Mentions, Unheld, Grown;
    KeptAcross(mid, w', b, id);
  }

  lemma {:induction false} BuildHeld(mid: World, w': World, c: Capture, held: Option<nat>, spare: nat, b: nat)
    requires AssignSpec(mid, w', c, held, spare) && b in mid.objs
    ensures b in w'.objs && held == if Program(spare) in w'.refs then Some(w'.refs[Program(spare)]) else None
  {
  }
}
