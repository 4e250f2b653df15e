/** lib/sanitizer_common/sanitizer_stackdepot.cc: the hash table of stack traces.

Threads run StackDepotPut and StackDepotGet side by side.  A step of the machine is one atomic access
to the shared memory, or one look at a node that nobody writes any more; any thread may take the next
step.  A bucket word holds a pointer whose lowest bit is the bucket's lock.  Nodes are addresses in a
heap.  Memory for them comes from allocDesc(), here any address not handed out before.  The hash is
any function of the stack. */
module StackDepot {
  import opened Bits
  import opened Options

  type Stack = seq<nat>
  type Hash = Stack -> nat

  const TAB_SIZE := 1024 * 1024
  const PART_SHIFT := 23   // kPartShift
  const PART_COUNT := 256
  const PART_SIZE := 4096
  const MAX_ID := 0x80_0000
  const SIGN := 0x8000_0000
  const WORD := 0x1_0000_0000

  /** StackDesc. */
  datatype Node = Node(link: nat, id: nat, hash: nat, stack: Stack)

  /** What a published node is filed under, and how many older nodes its bucket holds. */
  datatype Entry = Entry(stack: Stack, index: nat)

  /** The shared memory.  chains and names are history: no step reads them.  A bucket's chain lists
      its published nodes, oldest first; names tells which stack a published id stands for. */
  datatype Memory = Memory(
    heap: map<nat, Node>,
    tab: seq<nat>,
    counters: seq<nat>,
    chains: seq<seq<nat>>,
    names: map<nat, Entry>)

  /** Where a thread is. */
  datatype Pc =
    | Idle
    // StackDepotPut: find() without the lock, then lock(), then perhaps find() again
    | Search(stack: Stack, head: nat, cur: nat)
    | Spin(stack: Stack, head: nat)
    | Cas(stack: Stack, head: nat, seen: nat)
    | Research(stack: Stack, top: nat, cur: nat)
    | Draw(stack: Stack, top: nat)
    | Check(stack: Stack, top: nat, number: nat)
    | Alloc(stack: Stack, top: nat, id: nat)
    | Fill(stack: Stack, top: nat, id: nat, node: nat)
    | Publish(stack: Stack, top: nat, id: nat, node: nat)
    // StackDepotGet; known is history: the stacks for which StackDepotPut had returned the id
    | Load(id: nat, i: nat, known: set<Stack>)
    | Scan(id: nat, i: nat, cur: nat, known: set<Stack>)

  /** How a step of a thread ends. */
  datatype Event =
    | Silent
    | Put(stack: Stack, id: nat)
    | Got(id: nat, known: set<Stack>, result: Option<Stack>)
    | Die

  // ----- The code

  function Bucket(h: Hash, stack: Stack): (b: nat)
    ensures b < TAB_SIZE
  {
    h(stack) % TAB_SIZE
  }

  function Part(bucket: nat): nat { bucket / PART_SIZE }

  /** `id |= part << kPartShift`. */
  function MakeId(part: nat, number: nat): nat { Or(number, Lsh(part, PART_SHIFT)) }

  /** The pointer in a bucket word: `v & ~1`. */
  function Pointer(word: nat): nat { word - word % 2 }

  /** Reading through a pointer; meaningless for one that points nowhere. */
  function Deref(m: Memory, a: nat): Node
  {
    if a in m.heap then m.heap[a] else Node(0, 0, 0, [])
  }

  /** The comparison in find(). */
  predicate Matches(h: Hash, n: Node, stack: Stack)
  {
    n.hash == h(stack) && |n.stack| == |stack| && n.stack == stack
  }

  ghost predicate StartPut(h: Hash, m: Memory, pc: Pc, m': Memory, pc': Pc, e: Event, stack: Stack)
    requires |m.tab| == TAB_SIZE
  {
    && pc == Idle && m' == m
    && if stack == [] then pc' == Idle && e == Put([], 0)
       else
         var s := Pointer(m.tab[Bucket(h, stack)]);
         pc' == Search(stack, s, s) && e == Silent
  }

  ghost predicate SearchStep(h: Hash, m: Memory, pc: Pc, m': Memory, pc': Pc, e: Event)
  {
    && pc.Search? && m' == m
    && if pc.cur == 0 then pc' == Spin(pc.stack, pc.head) && e == Silent
       else if Matches(h, Deref(m, pc.cur), pc.stack) then pc' == Idle && e == Put(pc.stack, Deref(m, pc.cur).id)
       else pc' == Search(pc.stack, pc.head, Deref(m, pc.cur).link) && e == Silent
  }

  ghost predicate SpinStep(h: Hash, m: Memory, pc: Pc, m': Memory, pc': Pc, e: Event)
    requires |m.tab| == TAB_SIZE
  {
    pc.Spin? && m' == m && e == Silent && pc' == Cas(pc.stack, pc.head, m.tab[Bucket(h, pc.stack)])
  }

  /** The weak compare-exchange of lock(): it may fail for no reason. */
  ghost predicate CasFails(h: Hash, m: Memory, pc: Pc, m': Memory, pc': Pc, e: Event)
  {
    pc.Cas? && m' == m && e == Silent && pc' == Spin(pc.stack, pc.head)
  }

  ghost predicate CasSucceeds(h: Hash, m: Memory, pc: Pc, m': Memory, pc': Pc, e: Event)
    requires |m.tab| == TAB_SIZE
  {
    && pc.Cas? && pc.seen % 2 == 0 && m.tab[Bucket(h, pc.stack)] == pc.seen && e == Silent
    && m' == m.(tab := m.tab[Bucket(h, pc.stack) := pc.seen + 1])
    && pc' == if pc.seen == pc.head then Draw(pc.stack, pc.seen) else Research(pc.stack, pc.seen, pc.seen)
  }

  ghost predicate ResearchStep(h: Hash, m: Memory, pc: Pc, m': Memory, pc': Pc, e: Event)
  {
    && pc.Research? && m' == m && e == Silent
    && (pc.cur == 0 || !Matches(h, Deref(m, pc.cur), pc.stack))
    && pc' == if pc.cur == 0 then Draw(pc.stack, pc.top) else Research(pc.stack, pc.top, Deref(m, pc.cur).link)
  }

  /** Found under the lock: unlock and return. */
  ghost predicate ResearchFinds(h: Hash, m: Memory, pc: Pc, m': Memory, pc': Pc, e: Event)
    requires |m.tab| == TAB_SIZE
  {
    && pc.Research? && pc.cur != 0 && Matches(h, Deref(m, pc.cur), pc.stack)
    && m' == m.(tab := m.tab[Bucket(h, pc.stack) := pc.top])
    && pc' == Idle && e == Put(pc.stack, Deref(m, pc.cur).id)
  }

  /** The atomic_fetch_add of the part's counter, a 32-bit word. */
  ghost predicate DrawStep(h: Hash, m: Memory, pc: Pc, m': Memory, pc': Pc, e: Event)
    requires |m.counters| == PART_COUNT
  {
    && pc.Draw? && e == Silent
    && var part := Part(Bucket(h, pc.stack));
       var number := (m.counters[part] + 1) % WORD;
       && m' == m.(counters := m.counters[part := number])
       && pc' == Check(pc.stack, pc.top, number)
  }

  /** CHECK_LT(id, kMaxId), and the id the rest of the call uses. */
  ghost predicate CheckStep(h: Hash, m: Memory, pc: Pc, m': Memory, pc': Pc, e: Event)
  {
    && pc.Check? && m' == m
    && if pc.number >= MAX_ID then pc' == pc && e == Die
       else pc' == Alloc(pc.stack, pc.top, MakeId(Part(Bucket(h, pc.stack)), pc.number)) && e == Silent
  }

  /** allocDesc(): fresh, aligned memory with anything in it. */
  ghost predicate AllocStep(h: Hash, m: Memory, pc: Pc, m': Memory, pc': Pc, e: Event, node: nat, garbage: Node)
  {
    && pc.Alloc? && e == Silent
    && node !in m.heap && node != 0 && node % 2 == 0
    && m' == m.(heap := m.heap[node := garbage])
    && pc' == Fill(pc.stack, pc.top, pc.id, node)
  }

  ghost predicate FillStep(h: Hash, m: Memory, pc: Pc, m': Memory, pc': Pc, e: Event)
  {
    && pc.Fill? && e == Silent
    && m' == m.(heap := m.heap[pc.node := Node(pc.top, pc.id, h(pc.stack), pc.stack)])
    && pc' == Publish(pc.stack, pc.top, pc.id, pc.node)
  }

  function Publishing(m: Memory, b: nat, node: nat, id: nat, stack: Stack): Memory
    requires b < |m.tab| && b < |m.chains|
  {
    m.(tab := m.tab[b := node],
       chains := m.chains[b := m.chains[b] + [node]],
       names := m.names[id := Entry(stack, |m.chains[b]|)])
  }

  /** unlock(p, s): the store that publishes the node and releases the bucket. */
  ghost predicate PublishStep(h: Hash, m: Memory, pc: Pc, m': Memory, pc': Pc, e: Event)
    requires |m.tab| == TAB_SIZE == |m.chains|
  {
    && pc.Publish? && pc' == Idle && e == Put(pc.stack, pc.id)
    && m' == Publishing(m, Bucket(h, pc.stack), pc.node, pc.id, pc.stack)
  }

  /** The CHECK in StackDepotGet kills the process when the top bit of the id is set. */
  ghost predicate StartGet(m: Memory, pc: Pc, m': Memory, pc': Pc, e: Event, id: nat, puts: set<(Stack, nat)>)
  {
    && pc == Idle && m' == m
    && var known := set p | p in puts && p.1 == id :: p.0;
       if id == 0 then pc' == Idle && e == Got(0, known, None)
       else if id >= SIGN then pc' == Idle && e == Die
       else pc' == Load(id, 0, known) && e == Silent
  }

  /** The bucket that the i-th turn of StackDepotGet looks at: CHECK_LT(idx, kTabSize) holds. */
  function ScanBucket(id: nat, i: nat): (b: nat)
    requires id < SIGN && i < PART_SIZE
    ensures b < TAB_SIZE && Part(b) == id / MAX_ID
  {
    id / MAX_ID * PART_SIZE + i
  }

  ghost predicate LoadStep(m: Memory, pc: Pc, m': Memory, pc': Pc, e: Event)
    requires |m.tab| == TAB_SIZE
  {
    && pc.Load? && pc.id < SIGN && pc.i < PART_SIZE && m' == m && e == Silent
    && pc' == Scan(pc.id, pc.i, Pointer(m.tab[ScanBucket(pc.id, pc.i)]), pc.known)
  }

  ghost predicate ScanStep(m: Memory, pc: Pc, m': Memory, pc': Pc, e: Event)
  {
    && pc.Scan? && m' == m
    && if pc.cur == 0 then
         if pc.i + 1 == PART_SIZE then pc' == Idle && e == Got(pc.id, pc.known, None)
         else pc' == Load(pc.id, pc.i + 1, pc.known) && e == Silent
       else if Deref(m, pc.cur).id == pc.id then
         pc' == Idle && e == Got(pc.id, pc.known, Some(Deref(m, pc.cur).stack))
       else pc' == Scan(pc.id, pc.i, Deref(m, pc.cur).link, pc.known) && e == Silent
  }

  // ----- What the memory keeps

  ghost predicate Shape(m: Memory)
  {
    |m.tab| == TAB_SIZE && |m.counters| == PART_COUNT && |m.chains| == TAB_SIZE
  }

  /** The node just older than position k of a chain, or null. */
  function Older(c: seq<nat>, k: nat): nat
    requires k <= |c|
  {
    if k == 0 then 0 else c[k - 1]
  }

  ghost predicate NodeOk(h: Hash, m: Memory, b: nat, k: nat)
    requires Shape(m) && b < TAB_SIZE && k < |m.chains[b]|
  {
    var a := m.chains[b][k];
    && a != 0 && a % 2 == 0 && a in m.heap
    && var n := m.heap[a];
       && n.link == Older(m.chains[b], k)
       && n.stack != [] && Bucket(h, n.stack) == b && n.hash == h(n.stack)
       && n.id in m.names && m.names[n.id] == Entry(n.stack, k)
       && Issued(m, Part(b), n.id)
  }

  /** An id made from a number that the part's counter has given out. */
  ghost predicate Issued(m: Memory, part: nat, id: nat)
    requires Shape(m) && part < PART_COUNT
  {
    id / MAX_ID == part && 0 < id % MAX_ID <= m.counters[part]
  }

  ghost predicate NamedOk(h: Hash, m: Memory, id: nat)
    requires Shape(m) && id in m.names
  {
    var e := m.names[id];
    var c := m.chains[Bucket(h, e.stack)];
    e.index < |c| && c[e.index] in m.heap && m.heap[c[e.index]].id == id
  }

  ghost predicate Distinct(m: Memory, b: nat)
    requires Shape(m) && b < TAB_SIZE
  {
    forall j, k :: 0 <= j < k < |m.chains[b]| ==>
      Deref(m, m.chains[b][j]).stack != Deref(m, m.chains[b][k]).stack
  }

  ghost predicate MemoryOk(h: Hash, m: Memory)
  {
    && Shape(m)
    && (forall b: nat :: b < TAB_SIZE ==> Pointer(m.tab[b]) == Older(m.chains[b], |m.chains[b]|))
    && (forall b: nat, k: nat :: b < TAB_SIZE && k < |m.chains[b]| ==> NodeOk(h, m, b, k))
    && (forall id :: id in m.names ==> NamedOk(h, m, id))
    && (forall b: nat :: b < TAB_SIZE ==> Distinct(m, b))
  }

  // ----- What a thread knows

  /** a is null or a published node of bucket b. */
  ghost predicate Published(h: Hash, m: Memory, b: nat, a: nat)
    requires Shape(m) && b < TAB_SIZE
  {
    a == 0 || (a in m.heap && m.heap[a].id in m.names
      && var e := m.names[m.heap[a].id];
         Bucket(h, e.stack) == b && e.index < |m.chains[b]| && m.chains[b][e.index] == a)
  }

  /** How many nodes a list starting at a has. */
  function Rank(m: Memory, a: nat): nat
  {
    if a == 0 || Deref(m, a).id !in m.names then 0 else m.names[Deref(m, a).id].index + 1
  }

  /** None of the nodes from lo up to hi of the bucket holds the stack. */
  ghost predicate Absent(m: Memory, b: nat, stack: Stack, lo: nat, hi: nat)
    requires Shape(m) && b < TAB_SIZE
  {
    forall k: nat :: lo <= k < hi && k < |m.chains[b]| ==> Deref(m, m.chains[b][k]).stack != stack
  }

  /** a is in no chain. */
  ghost predicate Private(m: Memory, a: nat)
    requires Shape(m)
  {
    forall b: nat, k: nat :: b < TAB_SIZE && k < |m.chains[b]| ==> m.chains[b][k] != a
  }

  /** Between lock() and unlock(). */
  predicate Holds(pc: Pc)
  {
    pc.Research? || pc.Draw? || pc.Check? || pc.Alloc? || pc.Fill? || pc.Publish?
  }

  predicate HasNode(pc: Pc) { pc.Fill? || pc.Publish? }
  predicate HasId(pc: Pc) { pc.Alloc? || pc.Fill? || pc.Publish? }
  predicate Putting(pc: Pc) { pc.Search? || pc.Spin? || pc.Cas? || Holds(pc) }

  ghost predicate PutOk(h: Hash, m: Memory, pc: Pc)
    requires Shape(m) && Putting(pc)
  {
    var b := Bucket(h, pc.stack);
    && pc.stack != []
    && (pc.Search? ==>
         && Published(h, m, b, pc.head) && Published(h, m, b, pc.cur)
         && Rank(m, pc.cur) <= Rank(m, pc.head)
         && Absent(m, b, pc.stack, Rank(m, pc.cur), Rank(m, pc.head)))
    && (pc.Spin? || pc.Cas? ==>
         && Published(h, m, b, pc.head)
         && Absent(m, b, pc.stack, 0, Rank(m, pc.head)))
    && (Holds(pc) ==> pc.top % 2 == 0 && m.tab[b] == pc.top + 1)
    && (pc.Research? ==>
         && Published(h, m, b, pc.cur)
         && Absent(m, b, pc.stack, Rank(m, pc.cur), |m.chains[b]|))
    && (Holds(pc) && !pc.Research? ==> Absent(m, b, pc.stack, 0, |m.chains[b]|))
  }

  ghost predicate NewOk(h: Hash, m: Memory, pc: Pc)
    requires Shape(m) && Holds(pc)
  {
    var part := Part(Bucket(h, pc.stack));
    && (pc.Check? ==>
         && 0 < pc.number <= m.counters[part]
         && (pc.number < MAX_ID ==> part * MAX_ID + pc.number !in m.names))
    && (HasId(pc) ==> Issued(m, part, pc.id) && pc.id !in m.names)
    && (HasNode(pc) ==> pc.node != 0 && pc.node % 2 == 0 && pc.node in m.heap && Private(m, pc.node))
    && (pc.Publish? ==> Deref(m, pc.node) == Node(pc.top, pc.id, h(pc.stack), pc.stack))
  }

  /** A stack filed before the call began has not been passed over. */
  ghost predicate Ahead(h: Hash, m: Memory, id: nat, i: nat, rank: nat)
    requires Shape(m)
  {
    id in m.names ==>
      var e := m.names[id];
      var b, here := Bucket(h, e.stack), id / MAX_ID * PART_SIZE + i;
      b > here || (b == here && e.index < rank)
  }

  ghost predicate GetOk(h: Hash, m: Memory, pc: Pc)
    requires Shape(m) && (pc.Load? || pc.Scan?)
  {
    && 0 < pc.id < SIGN && pc.i < PART_SIZE
    && (forall stack :: stack in pc.known ==> pc.id in m.names && m.names[pc.id].stack == stack)
    && (pc.known != {} ==>
         Ahead(h, m, pc.id, pc.i, if pc.Load? then |m.chains[ScanBucket(pc.id, pc.i)]| else Rank(m, pc.cur)))
    && (pc.Scan? ==> Published(h, m, ScanBucket(pc.id, pc.i), pc.cur))
  }

  ghost predicate ThreadOk(h: Hash, m: Memory, pc: Pc)
    requires Shape(m)
  {
    && (Putting(pc) ==> PutOk(h, m, pc))
    && (Holds(pc) ==> NewOk(h, m, pc))
    && (pc.Load? || pc.Scan? ==> GetOk(h, m, pc))
  }

  /** The number a thread has drawn and not yet published. */
  function Number(pc: Pc): nat
    requires pc.Check? || HasId(pc)
  {
    if pc.Check? then pc.number else pc.id % MAX_ID
  }

  /** Two threads do not hold the same lock, node or number. */
  ghost predicate Apart(h: Hash, p: Pc, q: Pc)
  {
    && (Holds(p) && Holds(q) ==> Bucket(h, p.stack) != Bucket(h, q.stack))
    && (HasNode(p) && HasNode(q) ==> p.node != q.node)
    && ((p.Check? || HasId(p)) && (q.Check? || HasId(q)) ==>
        Part(Bucket(h, p.stack)) != Part(Bucket(h, q.stack)) || Number(p) != Number(q))
  }

  // ----- Changes of the memory, seen by its invariant and by a thread that did not make them

  /** Taking and releasing a bucket's lock. */
  lemma {:induction false} LockMemory(h: Hash, m: Memory, b: nat, word: nat)
    requires MemoryOk(h, m) && b < TAB_SIZE && Pointer(word) == Pointer(m.tab[b])
    ensures MemoryOk(h, m.(tab := m.tab[b := word]))
  {
    var m' := m.(tab := m.tab[b := word]);
    forall b: nat, k: nat | b < TAB_SIZE && k < |m'.chains[b]| ensures NodeOk(h, m', b, k) {
      assert NodeOk(h, m, b, k);
    }
    forall id | id in m'.names ensures NamedOk(h, m', id) {
      assert NamedOk(h, m, id);
    }
    forall b: nat | b < TAB_SIZE ensures Distinct(m', b) {
      assert Distinct(m, b);
    }
  }

  lemma {:induction false} LockPut(h: Hash, m: Memory, b: nat, word: nat, q: Pc)
    requires Shape(m) && b < TAB_SIZE && Putting(q) && PutOk(h, m, q)
    requires Holds(q) ==> Bucket(h, q.stack) != b
    ensures PutOk(h, m.(tab := m.tab[b := word]), q)
  {
  }

  lemma {:induction false} LockNew(h: Hash, m: Memory, b: nat, word: nat, q: Pc)
    requires Shape(m) && b < TAB_SIZE && Holds(q) && NewOk(h, m, q)
    requires Holds(q) ==> Bucket(h, q.stack) != b
    ensures NewOk(h, m.(tab := m.tab[b := word]), q)
  {
  }

  lemma {:induction false} LockGet(h: Hash, m: Memory, b: nat, word: nat, q: Pc)
    requires Shape(m) && b < TAB_SIZE && (q.Load? || q.Scan?) && GetOk(h, m, q)
    ensures GetOk(h, m.(tab := m.tab[b := word]), q)
  {
  }

  lemma {:induction false} LockOther(h: Hash, m: Memory, b: nat, word: nat, q: Pc)
    requires Shape(m) && b < TAB_SIZE && ThreadOk(h, m, q)
    requires Holds(q) ==> Bucket(h, q.stack) != b
    ensures ThreadOk(h, m.(tab := m.tab[b := word]), q)
  {
    hide PutOk, NewOk, GetOk;
    if Putting(q) { LockPut(h, m, b, word, q); }
    if Holds(q) { LockNew(h, m, b, word, q); }
    if q.Load? || q.Scan? { LockGet(h, m, b, word, q); }
  }

  /** A counter moving up. */
  lemma {:induction false} CountMemory(h: Hash, m: Memory, part: nat, number: nat)
    requires MemoryOk(h, m) && part < PART_COUNT && m.counters[part] <= number
    ensures MemoryOk(h, m.(counters := m.counters[part := number]))
  {
    var m' := m.(counters := m.counters[part := number]);
    forall b: nat, k: nat | b < TAB_SIZE && k < |m'.chains[b]| ensures NodeOk(h, m', b, k) {
      assert NodeOk(h, m, b, k);
    }
    forall id | id in m'.names ensures NamedOk(h, m', id) {
      assert NamedOk(h, m, id);
    }
    forall b: nat | b < TAB_SIZE ensures Distinct(m', b) {
      assert Distinct(m, b);
    }
  }

  lemma {:induction false} CountPut(h: Hash, m: Memory, part: nat, number: nat, q: Pc)
    requires Shape(m) && part < PART_COUNT && m.counters[part] <= number && Putting(q) && PutOk(h, m, q)
    ensures PutOk(h, m.(counters := m.counters[part := number]), q)
  {
  }

  lemma {:induction false} CountNew(h: Hash, m: Memory, part: nat, number: nat, q: Pc)
    requires Shape(m) && part < PART_COUNT && m.counters[part] <= number && Holds(q) && NewOk(h, m, q)
    ensures NewOk(h, m.(counters := m.counters[part := number]), q)
  {
  }

  lemma {:induction false} CountGet(h: Hash, m: Memory, part: nat, number: nat, q: Pc)
    requires Shape(m) && part < PART_COUNT && m.counters[part] <= number && (q.Load? || q.Scan?) && GetOk(h, m, q)
    ensures GetOk(h, m.(counters := m.counters[part := number]), q)
  {
  }

  lemma {:induction false} CountOther(h: Hash, m: Memory, part: nat, number: nat, q: Pc)
    requires Shape(m) && part < PART_COUNT && m.counters[part] <= number && ThreadOk(h, m, q)
    ensures ThreadOk(h, m.(counters := m.counters[part := number]), q)
  {
    hide PutOk, NewOk, GetOk;
    if Putting(q) { CountPut(h, m, part, number, q); }
    if Holds(q) { CountNew(h, m, part, number, q); }
    if q.Load? || q.Scan? { CountGet(h, m, part, number, q); }
  }

  /** Writing to memory that is in no chain. */
  lemma {:induction false} WriteMemory(h: Hash, m: Memory, a: nat, n: Node)
    requires MemoryOk(h, m) && Private(m, a)
    ensures MemoryOk(h, m.(heap := m.heap[a := n]))
  {
    var m' := m.(heap := m.heap[a := n]);
    forall b: nat, k: nat | b < TAB_SIZE && k < |m'.chains[b]| ensures NodeOk(h, m', b, k) {
      assert NodeOk(h, m, b, k);
    }
    forall id | id in m'.names ensures NamedOk(h, m', id) {
      assert NamedOk(h, m, id);
    }
    forall b: nat | b < TAB_SIZE ensures Distinct(m', b) {
      assert Distinct(m, b);
    }
  }

  lemma {:induction false} WritePublished(h: Hash, m: Memory, a: nat, n: Node, b: nat, x: nat)
    requires Shape(m) && Private(m, a) && b < TAB_SIZE && Published(h, m, b, x)
    ensures var m' := m.(heap := m.heap[a := n]);
      Published(h, m', b, x) && Rank(m', x) == Rank(m, x)
  {
  }

  lemma {:induction false} WriteAbsent(h: Hash, m: Memory, a: nat, n: Node, b: nat, stack: Stack, lo: nat, hi: nat)
    requires Shape(m) && Private(m, a) && b < TAB_SIZE && Absent(m, b, stack, lo, hi)
    ensures Absent(m.(heap := m.heap[a := n]), b, stack, lo, hi)
  {
  }

  lemma {:induction false} WriteOther(h: Hash, m: Memory, a: nat, n: Node, q: Pc)
    requires Shape(m) && Private(m, a) && ThreadOk(h, m, q)
    requires HasNode(q) ==> q.node != a
    ensures ThreadOk(h, m.(heap := m.heap[a := n]), q)
  {
    if Putting(q) { WritePut(h, m, a, n, q); }
    if q.Scan? { WritePublished(h, m, a, n, ScanBucket(q.id, q.i), q.cur); }
  }

  lemma {:induction false} WritePut(h: Hash, m: Memory, a: nat, n: Node, q: Pc)
    requires Shape(m) && Private(m, a) && Putting(q) && PutOk(h, m, q)
    ensures PutOk(h, m.(heap := m.heap[a := n]), q)
  {
    var b := Bucket(h, q.stack);
    if q.Search? {
      WritePublished(h, m, a, n, b, q.head);
      WritePublished(h, m, a, n, b, q.cur);
      WriteAbsent(h, m, a, n, b, q.stack, Rank(m, q.cur), Rank(m, q.head));
    } else if q.Spin? || q.Cas? {
      WritePublished(h, m, a, n, b, q.head);
      WriteAbsent(h, m, a, n, b, q.stack, 0, Rank(m, q.head));
    } else if q.Research? {
      WritePublished(h, m, a, n, b, q.cur);
      WriteAbsent(h, m, a, n, b, q.stack, Rank(m, q.cur), |m.chains[b]|);
    } else {
      WriteAbsent(h, m, a, n, b, q.stack, 0, |m.chains[b]|);
    }
  }

  // ----- Publishing

  /** A complete node that is about to be published. */
  ghost predicate Ready(h: Hash, m: Memory, b: nat, node: nat, id: nat, stack: Stack)
    requires Shape(m) && b < TAB_SIZE
  {
    && stack != [] && Bucket(h, stack) == b && node != 0 && node % 2 == 0 && node in m.heap && Private(m, node)
    && m.heap[node] == Node(Older(m.chains[b], |m.chains[b]|), id, h(stack), stack)
    && Issued(m, Part(b), id) && id !in m.names
    && Absent(m, b, stack, 0, |m.chains[b]|)
  }

  lemma {:induction false} PublishNode(h: Hash, m: Memory, b: nat, node: nat, id: nat, stack: Stack, c: nat, k: nat)
    requires MemoryOk(h, m) && b < TAB_SIZE && Ready(h, m, b, node, id, stack) && c < TAB_SIZE
    requires k < |Publishing(m, b, node, id, stack).chains[c]|
    ensures NodeOk(h, Publishing(m, b, node, id, stack), c, k)
  {
    if k < |m.chains[c]| {
      assert NodeOk(h, m, c, k);
    }
  }

  lemma {:induction false} PublishDistinct(h: Hash, m: Memory, b: nat, node: nat, id: nat, stack: Stack, c: nat)
    requires MemoryOk(h, m) && b < TAB_SIZE && Ready(h, m, b, node, id, stack) && c < TAB_SIZE
    ensures Distinct(Publishing(m, b, node, id, stack), c)
  {
    assert Distinct(m, c);
  }

  lemma {:induction false} PublishMemory(h: Hash, m: Memory, b: nat, node: nat, id: nat, stack: Stack)
    requires MemoryOk(h, m) && b < TAB_SIZE && Ready(h, m, b, node, id, stack)
    ensures MemoryOk(h, Publishing(m, b, node, id, stack))
  {
    var m' := Publishing(m, b, node, id, stack);
    forall c: nat, k: nat | c < TAB_SIZE && k < |m'.chains[c]| ensures NodeOk(h, m', c, k) {
      PublishNode(h, m, b, node, id, stack, c, k);
    }
    forall i | i in m'.names ensures NamedOk(h, m', i) {
      if i != id { assert NamedOk(h, m, i); }
    }
    forall c: nat | c < TAB_SIZE ensures Distinct(m', c) {
      PublishDistinct(h, m, b, node, id, stack, c);
    }
  }

  lemma {:induction false} PublishPublished(h: Hash, m: Memory, b: nat, node: nat, id: nat, stack: Stack, c: nat, x: nat)
    requires Shape(m) && b < TAB_SIZE && Ready(h, m, b, node, id, stack) && c < TAB_SIZE && Published(h, m, c, x)
    ensures var m' := Publishing(m, b, node, id, stack);
      Published(h, m', c, x) && Rank(m', x) == Rank(m, x) <= |m.chains[c]|
  {
  }

  lemma {:induction false} PublishAbsent(h: Hash, m: Memory, b: nat, node: nat, id: nat, stack: Stack, c: nat,
      st: Stack, lo: nat, hi: nat)
    requires Shape(m) && b < TAB_SIZE && Ready(h, m, b, node, id, stack) && c < TAB_SIZE && Absent(m, c, st, lo, hi)
    requires hi <= |m.chains[c]|
    ensures Absent(Publishing(m, b, node, id, stack), c, st, lo, hi)
  {
  }

  lemma {:induction false} PublishOther(h: Hash, m: Memory, b: nat, node: nat, id: nat, stack: Stack, q: Pc)
    requires Shape(m) && b < TAB_SIZE && Ready(h, m, b, node, id, stack) && ThreadOk(h, m, q)
    requires Holds(q) ==> Bucket(h, q.stack) != b
    requires HasNode(q) ==> q.node != node
    requires HasId(q) || q.Check? ==> Part(Bucket(h, q.stack)) != Part(b) || Number(q) != id % MAX_ID
    ensures ThreadOk(h, Publishing(m, b, node, id, stack), q)
  {
    if Putting(q) { PublishPut(h, m, b, node, id, stack, q); }
    if q.Scan? { PublishPublished(h, m, b, node, id, stack, ScanBucket(q.id, q.i), q.cur); }
  }

  lemma {:induction false} PublishPut(h: Hash, m: Memory, b: nat, node: nat, id: nat, stack: Stack, q: Pc)
    requires Shape(m) && b < TAB_SIZE && Ready(h, m, b, node, id, stack) && Putting(q) && PutOk(h, m, q)
    requires Holds(q) ==> Bucket(h, q.stack) != b
    ensures PutOk(h, Publishing(m, b, node, id, stack), q)
  {
    var c := Bucket(h, q.stack);
    if q.Search? {
      PublishPublished(h, m, b, node, id, stack, c, q.head);
      PublishPublished(h, m, b, node, id, stack, c, q.cur);
      PublishAbsent(h, m, b, node, id, stack, c, q.stack, Rank(m, q.cur), Rank(m, q.head));
    } else if q.Spin? || q.Cas? {
      PublishPublished(h, m, b, node, id, stack, c, q.head);
      PublishAbsent(h, m, b, node, id, stack, c, q.stack, 0, Rank(m, q.head));
    } else if q.Research? {
      PublishPublished(h, m, b, node, id, stack, c, q.cur);
      PublishAbsent(h, m, b, node, id, stack, c, q.stack, Rank(m, q.cur), |m.chains[c]|);
    } else {
      PublishAbsent(h, m, b, node, id, stack, c, q.stack, 0, |m.chains[c]|);
    }
  }

  // ----- What a step keeps

  /** Every id a call has returned stands for its stack; every stack fetched is the one filed. */
  ghost predicate EventOk(m: Memory, e: Event)
  {
    match e
    case Put(stack, id) =>
      if stack == [] then id == 0
      else 0 < id < SIGN && id in m.names && m.names[id].stack == stack
    case Got(id, known, result) =>
      && (id != 0 ==> forall stack :: stack in known ==> result == Some(stack))
      && (result.Some? ==> id in m.names && m.names[id].stack == result.value)
    case _ => true
  }

  /** Published ids keep their meaning. */
  ghost predicate Grows(m: Memory, m': Memory)
  {
    forall id :: id in m.names ==> id in m'.names && m'.names[id] == m.names[id]
  }

  ghost predicate OtherOk(h: Hash, m: Memory, pc: Pc, m': Memory, pc': Pc, q: Pc)
    requires Shape(m) && Shape(m')
  {
    ThreadOk(h, m, q) && Apart(h, pc, q) ==> ThreadOk(h, m', q) && Apart(h, pc', q)
  }

  /** Only DrawStep touches a counter, and a thread past the limit does not get away. */
  ghost predicate CounterMoves(h: Hash, m: Memory, pc: Pc, m': Memory, pc': Pc)
    requires Shape(m)
  {
    && (pc.Check? && pc.number >= MAX_ID ==> pc' == pc)
    && if pc.Draw? then
         var p := Part(Bucket(h, pc.stack));
         m'.counters == m.counters[p := m.counters[p] + 1] && pc' == Check(pc.stack, pc.top, m.counters[p] + 1)
       else m'.counters == m.counters
  }

  /** The lock bit of a bucket word is set. */
  predicate Bit(word: nat) { word % 2 == 1 }

  /** The step leaves the other buckets' locks as they are, and the bucket that its thread works on locked exactly if
      the thread holds it then. */
  ghost predicate LockMoves(h: Hash, m: Memory, pc: Pc, m': Memory, pc': Pc)
    requires Shape(m) && Shape(m')
  {
    && (forall b: nat :: b < TAB_SIZE && Bit(m'.tab[b]) != Bit(m.tab[b]) ==>
         if Bit(m'.tab[b]) then Holds(pc') && Bucket(h, pc'.stack) == b else Holds(pc) && Bucket(h, pc.stack) == b)
    && (Holds(pc) ==> if Holds(pc') then pc'.stack == pc.stack else !Bit(m'.tab[Bucket(h, pc.stack)]))
  }

  ghost predicate AllOk(h: Hash, m: Memory, pcs: set<Pc>)
    requires Shape(m)
  {
    forall pc :: pc in pcs ==> ThreadOk(h, m, pc)
  }

  ghost predicate Kept(h: Hash, m: Memory, pc: Pc, m': Memory, pc': Pc, e: Event)
    requires Shape(m)
  {
    && MemoryOk(h, m') && AllOk(h, m', {pc'}) && EventOk(m', e) && Grows(m, m')
    && CounterMoves(h, m, pc, m', pc') && LockMoves(h, m, pc, m', pc')
    && forall q: Pc :: OtherOk(h, m, pc, m', pc', q)
  }

  lemma {:induction false} HeadPublished(h: Hash, m: Memory, b: nat)
    requires MemoryOk(h, m) && b < TAB_SIZE
    ensures var s := Pointer(m.tab[b]);
      Published(h, m, b, s) && Rank(m, s) == |m.chains[b]|
  {
    var c := m.chains[b];
    if |c| > 0 { assert NodeOk(h, m, b, |c| - 1); }
  }

  /** Walking down a list. */
  lemma {:induction false} FollowLink(h: Hash, m: Memory, b: nat, a: nat)
    requires MemoryOk(h, m) && b < TAB_SIZE && Published(h, m, b, a) && a != 0
    ensures var n := Deref(m, a);
      && Published(h, m, b, n.link) && 0 < Rank(m, a) <= |m.chains[b]| && Rank(m, n.link) == Rank(m, a) - 1
      && m.chains[b][Rank(m, a) - 1] == a
      && n.id in m.names && m.names[n.id] == Entry(n.stack, Rank(m, a) - 1)
      && n.hash == h(n.stack) && n.stack != [] && Issued(m, Part(b), n.id) && Bucket(h, n.stack) == b
  {
    var k := m.names[m.heap[a].id].index;
    assert NodeOk(h, m, b, k);
    if k > 0 { assert NodeOk(h, m, b, k - 1); }
  }

  lemma {:induction false} IssuedRange(m: Memory, part: nat, id: nat)
    requires Shape(m) && part < PART_COUNT && Issued(m, part, id)
    ensures 0 < id < SIGN
  {
  }

  lemma {:induction false} IdValue(part: nat, number: nat)
    requires part < PART_COUNT && 0 < number < MAX_ID
    ensures MakeId(part, number) == part * MAX_ID + number
    ensures MakeId(part, number) / MAX_ID == part && MakeId(part, number) % MAX_ID == number
  {
    WordSizes();
    OrFields(part, number, PART_SHIFT);
    LshTimes(part, PART_SHIFT);
    DivModUnique(part * MAX_ID + number, MAX_ID, part, number);
  }

  /** The bits of a new id: CHECK_NE(id, 0) and CHECK_EQ(id & (1u << 31), 0) hold, and the part
      can be read back from the high bits. */
  lemma {:induction false} IdBits(part: nat, number: nat)
    requires part < PART_COUNT && 0 < number < MAX_ID
    ensures 0 < MakeId(part, number) < SIGN && And(MakeId(part, number), Pow2(31)) == 0
    ensures Shr(MakeId(part, number), PART_SHIFT) == part
  {
    IdValue(part, number);
    WordSizes();
    OrFields(part, number, PART_SHIFT);
    SplitUnique(part, number, PART_SHIFT);
    DepotWords();
    BitTest(MakeId(part, number), 31);
    SplitSmall(MakeId(part, number), 31);
  }

  lemma {:induction false} DepotWords()
    ensures Pow2(31) == SIGN
  {
    WordSizes();
    assert Pow2(32) == 2 * Pow2(31);
  }

  lemma {:induction false} KeepStartPut(h: Hash, m: Memory, pc: Pc, m': Memory, pc': Pc, e: Event, stack: Stack)
    requires MemoryOk(h, m) && ThreadOk(h, m, pc) && StartPut(h, m, pc, m', pc', e, stack)
    ensures Kept(h, m, pc, m', pc', e)
  {
    HeadPublished(h, m, Bucket(h, stack));
  }

  lemma {:induction false} KeepSearch(h: Hash, m: Memory, pc: Pc, m': Memory, pc': Pc, e: Event)
    requires MemoryOk(h, m) && ThreadOk(h, m, pc) && SearchStep(h, m, pc, m', pc', e)
    ensures Kept(h, m, pc, m', pc', e)
  {
    hide NewOk, GetOk, Distinct, NamedOk, Issued;
    var b := Bucket(h, pc.stack);
    if pc.cur != 0 {
      FollowLink(h, m, b, pc.cur);
      IssuedRange(m, Part(b), Deref(m, pc.cur).id);
    }
  }

  lemma {:induction false} KeepSpin(h: Hash, m: Memory, pc: Pc, m': Memory, pc': Pc, e: Event)
    requires MemoryOk(h, m) && ThreadOk(h, m, pc)
    requires SpinStep(h, m, pc, m', pc', e) || CasFails(h, m, pc, m', pc', e)
    ensures Kept(h, m, pc, m', pc', e)
  {
  }

  /** If the head has not moved since the unlocked search, that search was complete. */
  lemma {:induction false} CasLocks(h: Hash, m: Memory, pc: Pc)
    requires MemoryOk(h, m) && ThreadOk(h, m, pc) && pc.Cas? && pc.seen % 2 == 0 && m.tab[Bucket(h, pc.stack)] == pc.seen
    ensures var m' := m.(tab := m.tab[Bucket(h, pc.stack) := pc.seen + 1]);
      && ThreadOk(h, m', Research(pc.stack, pc.seen, pc.seen))
      && (pc.seen == pc.head ==> ThreadOk(h, m', Draw(pc.stack, pc.seen)))
  {
    HeadPublished(h, m, Bucket(h, pc.stack));
  }

  /** Nobody else holds a bucket whose word is even. */
  lemma {:induction false} CasOther(h: Hash, m: Memory, pc: Pc, q: Pc)
    requires Shape(m) && ThreadOk(h, m, q) && pc.Cas? && pc.seen % 2 == 0 && m.tab[Bucket(h, pc.stack)] == pc.seen
    ensures Holds(q) ==> Bucket(h, q.stack) != Bucket(h, pc.stack)
    ensures Apart(h, Research(pc.stack, pc.seen, pc.seen), q) && Apart(h, Draw(pc.stack, pc.seen), q)
  {
  }

  lemma {:induction false} CasOthers(h: Hash, m: Memory, pc: Pc, pc': Pc, q: Pc)
    requires Shape(m) && pc.Cas? && pc.seen % 2 == 0 && m.tab[Bucket(h, pc.stack)] == pc.seen
    requires pc' == Research(pc.stack, pc.seen, pc.seen) || pc' == Draw(pc.stack, pc.seen)
    ensures OtherOk(h, m, pc, m.(tab := m.tab[Bucket(h, pc.stack) := pc.seen + 1]), pc', q)
  {
    if ThreadOk(h, m, q) {
      CasOther(h, m, pc, q);
      LockOther(h, m, Bucket(h, pc.stack), pc.seen + 1, q);
    }
  }

  lemma {:induction false} CasMemory(h: Hash, m: Memory, b: nat, word: nat)
    requires MemoryOk(h, m) && b < TAB_SIZE && word % 2 == 0 && m.tab[b] == word
    ensures MemoryOk(h, m.(tab := m.tab[b := word + 1]))
  {
    LockMemory(h, m, b, word + 1);
  }

  lemma {:induction false} ShapeKept(h: Hash, m: Memory)
    requires MemoryOk(h, m)
    ensures Shape(m)
  {
  }

  lemma {:induction false} CasTo(h: Hash, m: Memory, pc: Pc, m': Memory, pc': Pc)
    requires MemoryOk(h, m) && ThreadOk(h, m, pc)
    requires pc.Cas? && pc.seen % 2 == 0 && m.tab[Bucket(h, pc.stack)] == pc.seen
    requires m' == m.(tab := m.tab[Bucket(h, pc.stack) := pc.seen + 1])
    requires MemoryOk(h, m') && ThreadOk(h, m', pc')
    requires pc' == Research(pc.stack, pc.seen, pc.seen) || pc' == Draw(pc.stack, pc.seen)
    ensures Kept(h, m, pc, m', pc', Silent)
  {
    hide MemoryOk, ThreadOk, OtherOk;
    ShapeKept(h, m);
    ShapeKept(h, m');
    forall q: Pc ensures OtherOk(h, m, pc, m', pc', q) {
      CasOthers(h, m, pc, pc', q);
    }
  }

  lemma {:induction false} KeepCas(h: Hash, m: Memory, pc: Pc, m': Memory, pc': Pc, e: Event)
    requires MemoryOk(h, m) && ThreadOk(h, m, pc) && CasSucceeds(h, m, pc, m', pc', e)
    ensures Kept(h, m, pc, m', pc', e)
  {
    hide MemoryOk, Kept, Absent, Published;
    CasLocks(h, m, pc);
    CasMemory(h, m, Bucket(h, pc.stack), pc.seen);
    CasTo(h, m, pc, m', pc');
  }

  lemma {:induction false} KeepResearch(h: Hash, m: Memory, pc: Pc, m': Memory, pc': Pc, e: Event)
    requires MemoryOk(h, m) && ThreadOk(h, m, pc) && ResearchStep(h, m, pc, m', pc', e)
    ensures Kept(h, m, pc, m', pc', e)
  {
    if pc.cur != 0 {
      FollowLink(h, m, Bucket(h, pc.stack), pc.cur);
    }
  }

  lemma {:induction false} KeepFinds(h: Hash, m: Memory, pc: Pc, m': Memory, pc': Pc, e: Event)
    requires MemoryOk(h, m) && ThreadOk(h, m, pc) && ResearchFinds(h, m, pc, m', pc', e)
    ensures Kept(h, m, pc, m', pc', e)
  {
    var b := Bucket(h, pc.stack);
    FollowLink(h, m, b, pc.cur);
    IssuedRange(m, Part(b), Deref(m, pc.cur).id);
    LockMemory(h, m, b, pc.top);
    forall q: Pc ensures OtherOk(h, m, pc, m', pc', q) {
      if ThreadOk(h, m, q) && Apart(h, pc, q) {
        LockOther(h, m, b, pc.top, q);
      }
    }
  }

  /** The counter has not wrapped. */
  ghost predicate Roomy(m: Memory)
    requires Shape(m)
  {
    forall p: nat :: p < PART_COUNT ==> m.counters[p] + 1 < WORD
  }

  lemma {:induction false} DrawThread(h: Hash, m: Memory, pc: Pc, number: nat)
    requires MemoryOk(h, m) && ThreadOk(h, m, pc) && pc.Draw?
    requires number == m.counters[Part(Bucket(h, pc.stack))] + 1
    ensures ThreadOk(h, m.(counters := m.counters[Part(Bucket(h, pc.stack)) := number]), Check(pc.stack, pc.top, number))
  {
    if number < MAX_ID { DrawFresh(h, m, Part(Bucket(h, pc.stack)), number); }
  }

  /** The numbers other threads have drawn are smaller. */
  lemma {:induction false} DrawOther(h: Hash, m: Memory, pc: Pc, number: nat, q: Pc)
    requires Shape(m) && ThreadOk(h, m, q) && Apart(h, pc, q) && pc.Draw?
    requires number == m.counters[Part(Bucket(h, pc.stack))] + 1
    ensures ThreadOk(h, m.(counters := m.counters[Part(Bucket(h, pc.stack)) := number]), q)
    ensures Apart(h, Check(pc.stack, pc.top, number), q)
  {
    CountOther(h, m, Part(Bucket(h, pc.stack)), number, q);
  }

  lemma {:induction false} DrawKept(h: Hash, m: Memory, pc: Pc, number: nat)
    requires MemoryOk(h, m) && ThreadOk(h, m, pc) && pc.Draw?
    requires number == m.counters[Part(Bucket(h, pc.stack))] + 1
    ensures var m' := m.(counters := m.counters[Part(Bucket(h, pc.stack)) := number]);
      Kept(h, m, pc, m', Check(pc.stack, pc.top, number), Silent)
  {
    var part := Part(Bucket(h, pc.stack));
    var m' := m.(counters := m.counters[part := number]);
    var pc' := Check(pc.stack, pc.top, number);
    CountMemory(h, m, part, number);
    DrawThread(h, m, pc, number);
    forall q: Pc ensures OtherOk(h, m, pc, m', pc', q) {
      if ThreadOk(h, m, q) && Apart(h, pc, q) {
        DrawOther(h, m, pc, number, q);
      }
    }
  }

  lemma {:induction false} KeepDraw(h: Hash, m: Memory, pc: Pc, m': Memory, pc': Pc, e: Event)
    requires MemoryOk(h, m) && ThreadOk(h, m, pc) && Roomy(m) && DrawStep(h, m, pc, m', pc', e)
    ensures Kept(h, m, pc, m', pc', e)
  {
    DrawKept(h, m, pc, m.counters[Part(Bucket(h, pc.stack))] + 1);
  }

  /** A number the counter has not given out names nothing. */
  lemma {:induction false} DrawFresh(h: Hash, m: Memory, part: nat, number: nat)
    requires MemoryOk(h, m) && part < PART_COUNT && m.counters[part] < number < MAX_ID
    ensures part * MAX_ID + number !in m.names
  {
    var id := part * MAX_ID + number;
    DivModUnique(id, MAX_ID, part, number);
    if id in m.names {
      NamedNode(h, m, id);
    }
  }

  /** A published id leads to its node. */
  lemma {:induction false} NamedNode(h: Hash, m: Memory, id: nat)
    requires MemoryOk(h, m) && id in m.names
    ensures var e := m.names[id];
      var b := Bucket(h, e.stack);
      && Issued(m, Part(b), id) && 0 < id < SIGN && e.stack != []
      && e.index < |m.chains[b]| && Deref(m, m.chains[b][e.index]).id == id
      && Deref(m, m.chains[b][e.index]).stack == e.stack
  {
    assert NamedOk(h, m, id);
    assert NodeOk(h, m, Bucket(h, m.names[id].stack), m.names[id].index);
    IssuedRange(m, Part(Bucket(h, m.names[id].stack)), id);
  }

  lemma {:induction false} KeepCheck(h: Hash, m: Memory, pc: Pc, m': Memory, pc': Pc, e: Event)
    requires MemoryOk(h, m) && ThreadOk(h, m, pc) && CheckStep(h, m, pc, m', pc', e)
    ensures Kept(h, m, pc, m', pc', e)
  {
    if pc.number < MAX_ID {
      IdValue(Part(Bucket(h, pc.stack)), pc.number);
    }
  }

  lemma {:induction false} KeepAlloc(h: Hash, m: Memory, pc: Pc, m': Memory, pc': Pc, e: Event, node: nat, garbage: Node)
    requires MemoryOk(h, m) && ThreadOk(h, m, pc) && AllocStep(h, m, pc, m', pc', e, node, garbage)
    ensures Kept(h, m, pc, m', pc', e)
  {
    FreshPrivate(h, m, node);
    WriteMemory(h, m, node, garbage);
    WriteOther(h, m, node, garbage, pc);
    forall q: Pc ensures OtherOk(h, m, pc, m', pc', q) {
      if ThreadOk(h, m, q) && Apart(h, pc, q) {
        WriteOther(h, m, node, garbage, q);
      }
    }
  }

  lemma {:induction false} FreshPrivate(h: Hash, m: Memory, node: nat)
    requires MemoryOk(h, m) && node !in m.heap
    ensures Private(m, node)
  {
    forall b: nat, k: nat | b < TAB_SIZE && k < |m.chains[b]| ensures m.chains[b][k] != node {
      assert NodeOk(h, m, b, k);
    }
  }

  lemma {:induction false} KeepFill(h: Hash, m: Memory, pc: Pc, m': Memory, pc': Pc, e: Event)
    requires MemoryOk(h, m) && ThreadOk(h, m, pc) && FillStep(h, m, pc, m', pc', e)
    ensures Kept(h, m, pc, m', pc', e)
  {
    var n := Node(pc.top, pc.id, h(pc.stack), pc.stack);
    WriteMemory(h, m, pc.node, n);
    WritePut(h, m, pc.node, n, pc);
    forall q: Pc ensures OtherOk(h, m, pc, m', pc', q) {
      if ThreadOk(h, m, q) && Apart(h, pc, q) {
        WriteOther(h, m, pc.node, n, q);
      }
    }
  }

  lemma {:induction false} KeepPublish(h: Hash, m: Memory, pc: Pc, m': Memory, pc': Pc, e: Event)
    requires MemoryOk(h, m) && ThreadOk(h, m, pc) && PublishStep(h, m, pc, m', pc', e)
    ensures Kept(h, m, pc, m', pc', e)
  {
    var b := Bucket(h, pc.stack);
    assert Ready(h, m, b, pc.node, pc.id, pc.stack);
    IssuedRange(m, Part(b), pc.id);
    PublishMemory(h, m, b, pc.node, pc.id, pc.stack);
    forall q: Pc ensures OtherOk(h, m, pc, m', pc', q) {
      if ThreadOk(h, m, q) && Apart(h, pc, q) {
        PublishOther(h, m, b, pc.node, pc.id, pc.stack, q);
      }
    }
  }

  lemma {:induction false} KeepStartGet(h: Hash, m: Memory, pc: Pc, m': Memory, pc': Pc, e: Event, id: nat,
      puts: set<(Stack, nat)>)
    requires MemoryOk(h, m) && ThreadOk(h, m, pc) && StartGet(m, pc, m', pc', e, id, puts)
    requires forall p :: p in puts ==> EventOk(m, Put(p.0, p.1))
    ensures Kept(h, m, pc, m', pc', e)
  {
    if id in m.names {
      NamedNode(h, m, id);
    }
  }

  lemma {:induction false} KeepLoad(h: Hash, m: Memory, pc: Pc, m': Memory, pc': Pc, e: Event)
    requires MemoryOk(h, m) && ThreadOk(h, m, pc) && LoadStep(m, pc, m', pc', e)
    ensures Kept(h, m, pc, m', pc', e)
  {
    HeadPublished(h, m, ScanBucket(pc.id, pc.i));
  }

  /** At the end of a bucket the stack sought is still ahead, in a later one. */
  lemma {:induction false} ScanOn(h: Hash, m: Memory, pc: Pc)
    requires MemoryOk(h, m) && ThreadOk(h, m, pc) && pc.Scan? && pc.cur == 0
    ensures pc.i + 1 == PART_SIZE ==> pc.known == {}
    ensures pc.i + 1 < PART_SIZE ==> ThreadOk(h, m, Load(pc.id, pc.i + 1, pc.known))
  {
    if pc.id in m.names {
      NamedNode(h, m, pc.id);
    }
  }

  lemma {:induction false} ScanDown(h: Hash, m: Memory, pc: Pc)
    requires MemoryOk(h, m) && ThreadOk(h, m, pc) && pc.Scan? && pc.cur != 0
    ensures var n := Deref(m, pc.cur);
      && n.id in m.names && m.names[n.id].stack == n.stack
      && (n.id != pc.id ==> ThreadOk(h, m, Scan(pc.id, pc.i, n.link, pc.known)))
  {
    FollowLink(h, m, ScanBucket(pc.id, pc.i), pc.cur);
    if pc.id in m.names {
      NamedNode(h, m, pc.id);
    }
  }

  lemma {:induction false} KeepScan(h: Hash, m: Memory, pc: Pc, m': Memory, pc': Pc, e: Event)
    requires MemoryOk(h, m) && ThreadOk(h, m, pc) && ScanStep(m, pc, m', pc', e)
    ensures Kept(h, m, pc, m', pc', e)
  {
    hide MemoryOk;
    if pc.cur == 0 {
      ScanOn(h, m, pc);
    } else {
      ScanDown(h, m, pc);
    }
  }
}
