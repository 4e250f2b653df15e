/** The chunk lists of lib/asan/asan_allocator.cc: free lists, quarantines, and the conservation of
chunks among them.

A list is the sequence of the chunks it links.  Free lists are used at the front only; the quarantines
are queues.  All lists together are one map from places to sequences. */
module AsanChunks {
  import opened AsanSizes
  import opened Partition

  datatype ChunkState = Available | Allocated | Quarantine

  /** ChunkBase, without the thread ids. */
  datatype Chunk = Chunk(state: ChunkState, sizeClass: nat, used: nat, alignLog: nat)

  /** Where a chunk can be.  Transit is the list that a call of AllocateChunks() builds and returns. */
  datatype Place =
    | GlobalFree(sizeClass: nat)
    | ThreadFree(thread: nat, sizeClass: nat)
    | ThreadQuarantine(thread: nat)
    | GlobalQuarantine
    | Transit(call: nat)
    | User

  const BUILT := Transit(0)  // the list of the call that is looked at

  type Chunks = map<nat, Chunk>
  type Lists = map<Place, seq<nat>>
  type Places = map<nat, Place>

  /** The chunk_state, and the list for its size class, that belong to a place. */
  predicate Belongs(c: Chunk, p: Place)
  {
    match p
    case GlobalFree(sizeClass) => c.state.Available? && c.sizeClass == sizeClass
    case ThreadFree(_, sizeClass) => c.state.Available? && c.sizeClass == sizeClass
    case ThreadQuarantine(_) => c.state.Quarantine?
    case GlobalQuarantine => c.state.Quarantine?
    case Transit(_) => c.state.Available?
    case User => c.state.Allocated?
  }

  /** where gives every chunk one place, and the lists agree with it. */
  ghost predicate Conserved(chunks: Chunks, lists: Lists, where: Places)
  {
    && where.Keys == chunks.Keys
    && Partitioned(lists, where, User)
    && (forall a {:trigger where[a]} :: a in chunks ==> Belongs(chunks[a], where[a]))
  }

  /** Every chunk is in exactly one list, or in the user's hands; the chunk_state says which. */
  lemma {:induction false} ExactlyOnePlace(chunks: Chunks, lists: Lists, where: Places, a: nat)
    requires Conserved(chunks, lists, where) && a in chunks
    ensures forall p: Place, q: Place :: a in ListAt(lists, p) && a in ListAt(lists, q) ==> p == q
    ensures chunks[a].state.Allocated? <==> forall p: Place :: a !in ListAt(lists, p)
    ensures forall p: Place :: a in ListAt(lists, p) ==> Belongs(chunks[a], p)
  {
    assert Belongs(chunks[a], where[a]);
    InOneList(lists, where, User, a);
  }

  /** A chunk moves from one place to another, and its state with it. */
  lemma {:induction false} MoveKeeps(chunks: Chunks, lists: Lists, where: Places, a: nat, c: Chunk, from: Place, to: Place,
      rest: Lists, lists': Lists)
    requires Conserved(chunks, lists, where) && a in chunks && where[a] == from && from != to && Belongs(c, to)
    requires Leaves(lists, from, a, rest, User) && Joins(rest, to, a, lists', User)
    ensures Conserved(chunks[a := c], lists', where[a := to])
  {
    MovePartitioned(lists, where, User, a, from, to, rest, lists');
  }

  lemma {:induction false} AppendKeeps(chunks: Chunks, lists: Lists, where: Places, from: Place, to: Place)
    requires Conserved(chunks, lists, where) && from != to && from != User && to != User
    requires forall a :: a in where && where[a] == from ==> Belongs(chunks[a], to)
    ensures Conserved(chunks, Appended(lists, from, to), Relabelled(where, from, to))
  {
    var where' := Relabelled(where, from, to);
    AppendPartitioned(lists, where, User, from, to);
    forall a | a in chunks ensures Belongs(chunks[a], where'[a]) {
      assert Belongs(chunks[a], where[a]);
    }
  }

  function AllAt(chunks: Chunks, p: Place): Places
  {
    map a | a in chunks :: p
  }

  /** New chunks enter through an empty free list. */
  lemma {:induction false} CarveKeeps(chunks: Chunks, lists: Lists, where: Places, carved: Chunks, order: seq<nat>, p: Place)
    requires Conserved(chunks, lists, where) && p != User && ListAt(lists, p) == []
    requires carved.Keys !! chunks.Keys && NoDuplicates(order) && (forall a: nat :: a in order <==> a in carved)
    requires forall a :: a in carved ==> Belongs(carved[a], p)
    ensures Conserved(chunks + carved, lists[p := order], where + AllAt(carved, p))
  {
    var where' := where + AllAt(carved, p);
    FillPartitioned(lists, where, User, AllAt(carved, p), order, p);
    forall a | a in chunks + carved ensures Belongs((chunks + carved)[a], where'[a]) {
      if a !in carved { assert Belongs(chunks[a], where[a]); }
    }
  }

  // ----- The byte counts of the queues

  function ChunkSize(c: Chunk): nat { SizeClassToSize(c.sizeClass) }

  /** AsanChunkFifoList::size(). */
  function Total(chunks: Chunks, s: seq<nat>): nat
    requires forall i :: 0 <= i < |s| ==> s[i] in chunks
  {
    if s == [] then 0 else ChunkSize(chunks[s[0]]) + Total(chunks, s[1..])
  }

  lemma {:induction false} TotalSum(chunks: Chunks, s: seq<nat>, t: seq<nat>)
    requires forall i :: 0 <= i < |s| ==> s[i] in chunks
    requires forall i :: 0 <= i < |t| ==> t[i] in chunks
    ensures Total(chunks, s + t) == Total(chunks, s) + Total(chunks, t)
  {
    if s == [] {
      assert s + t == t;
    } else {
      assert (s + t)[1..] == s[1..] + t;
      TotalSum(chunks, s[1..], t);
    }
  }

  /** Only size classes matter. */
  lemma {:induction false} TotalKept(chunks: Chunks, chunks': Chunks, s: seq<nat>)
    requires forall i :: 0 <= i < |s| ==> s[i] in chunks && s[i] in chunks'
    requires forall i :: 0 <= i < |s| ==> chunks[s[i]].sizeClass == chunks'[s[i]].sizeClass
    ensures Total(chunks, s) == Total(chunks', s)
  {
    if s != [] {
      TotalKept(chunks, chunks', s[1..]);
    }
  }

  /** The size_ field of a queue is right. */
  ghost predicate Counted(chunks: Chunks, s: seq<nat>, size: nat)
  {
    (forall i :: 0 <= i < |s| ==> s[i] in chunks) && Total(chunks, s) == size
  }

  lemma {:induction false} CountedPush(chunks: Chunks, s: seq<nat>, size: nat, a: nat)
    requires Counted(chunks, s, size) && a in chunks
    ensures Counted(chunks, s + [a], size + ChunkSize(chunks[a]))
  {
    assert Total(chunks, [a]) == ChunkSize(chunks[a]) + Total(chunks, [a][1..]);
    TotalSum(chunks, s, [a]);
  }

  lemma {:induction false} CountedAppend(chunks: Chunks, s: seq<nat>, n: nat, t: seq<nat>, k: nat)
    requires Counted(chunks, s, n) && Counted(chunks, t, k)
    ensures Counted(chunks, s + t, n + k)
  {
    TotalSum(chunks, s, t);
  }

  lemma {:induction false} CountedKept(chunks: Chunks, chunks': Chunks, s: seq<nat>, size: nat)
    requires Counted(chunks, s, size)
    requires forall a :: a in chunks ==> a in chunks' && chunks'[a].sizeClass == chunks[a].sizeClass
    ensures Counted(chunks', s, size)
  {
    TotalKept(chunks, chunks', s);
  }

  type Sizes = map<Place, nat>

  function SizeAt(sizes: Sizes, p: Place): nat { if p in sizes then sizes[p] else 0 }

  /** The quarantines know how many bytes they hold. */
  ghost predicate QueuesOk(chunks: Chunks, lists: Lists, sizes: Sizes)
  {
    forall p: Place {:trigger SizeAt(sizes, p)} :: p.ThreadQuarantine? || p.GlobalQuarantine? ==>
      Counted(chunks, ListAt(lists, p), SizeAt(sizes, p))
  }

  /** A change of the chunks and of lists that are not queues. */
  lemma {:induction false} QueuesKept(chunks: Chunks, lists: Lists, sizes: Sizes, chunks': Chunks, lists': Lists)
    requires QueuesOk(chunks, lists, sizes)
    requires forall a :: a in chunks ==> a in chunks' && chunks'[a].sizeClass == chunks[a].sizeClass
    requires forall p: Place :: p.ThreadQuarantine? || p.GlobalQuarantine? ==> ListAt(lists', p) == ListAt(lists, p)
    ensures QueuesOk(chunks', lists', sizes)
  {
    forall p: Place | p.ThreadQuarantine? || p.GlobalQuarantine?
      ensures Counted(chunks', ListAt(lists', p), SizeAt(sizes, p))
    {
      CountedKept(chunks, chunks', ListAt(lists, p), SizeAt(sizes, p));
    }
  }

  /** Push(): at the back. */
  lemma {:induction false} QueuePushed(chunks: Chunks, lists: Lists, sizes: Sizes, p: Place, a: nat)
    requires QueuesOk(chunks, lists, sizes) && a in chunks && (p.ThreadQuarantine? || p.GlobalQuarantine?)
    ensures QueuesOk(chunks, PushedBack(lists, p, a), sizes[p := SizeAt(sizes, p) + ChunkSize(chunks[a])])
  {
    var lists', sizes' := PushedBack(lists, p, a), sizes[p := SizeAt(sizes, p) + ChunkSize(chunks[a])];
    forall q: Place | q.ThreadQuarantine? || q.GlobalQuarantine?
      ensures Counted(chunks, ListAt(lists', q), SizeAt(sizes', q))
    {
      assert Counted(chunks, ListAt(lists, q), SizeAt(sizes, q));
      if q == p { CountedPush(chunks, ListAt(lists, p), SizeAt(sizes, p), a); }
    }
  }

  /** Pop(): from the front; CHECK(size_ >= res->Size()) holds. */
  lemma {:induction false} QueuePopped(chunks: Chunks, lists: Lists, sizes: Sizes, p: Place)
    requires QueuesOk(chunks, lists, sizes) && (p.ThreadQuarantine? || p.GlobalQuarantine?) && ListAt(lists, p) != []
    ensures var a := ListAt(lists, p)[0];
      && a in chunks && SizeAt(sizes, p) >= ChunkSize(chunks[a])
      && QueuesOk(chunks, Popped(lists, p), sizes[p := SizeAt(sizes, p) - ChunkSize(chunks[a])])
  {
    assert Counted(chunks, ListAt(lists, p), SizeAt(sizes, p));
    var a := ListAt(lists, p)[0];
    assert a in chunks;
    var lists', sizes' := Popped(lists, p), sizes[p := SizeAt(sizes, p) - ChunkSize(chunks[a])];
    forall q: Place | q.ThreadQuarantine? || q.GlobalQuarantine?
      ensures Counted(chunks, ListAt(lists', q), SizeAt(sizes', q))
    {
      assert Counted(chunks, ListAt(lists, q), SizeAt(sizes, q));
    }
  }

  /** PushList(): a queue is emptied into another. */
  lemma {:induction false} QueueAppended(chunks: Chunks, lists: Lists, sizes: Sizes, from: Place, to: Place)
    requires QueuesOk(chunks, lists, sizes) && from.ThreadQuarantine? && to.GlobalQuarantine?
    ensures QueuesOk(chunks, Appended(lists, from, to), sizes[to := SizeAt(sizes, to) + SizeAt(sizes, from)][from := 0])
  {
    var lists', sizes' := Appended(lists, from, to), sizes[to := SizeAt(sizes, to) + SizeAt(sizes, from)][from := 0];
    forall q: Place | q.ThreadQuarantine? || q.GlobalQuarantine?
      ensures Counted(chunks, ListAt(lists', q), SizeAt(sizes', q))
    {
      assert Counted(chunks, ListAt(lists, q), SizeAt(sizes, q));
      if q == to {
        assert Counted(chunks, ListAt(lists, from), SizeAt(sizes, from));
        CountedAppend(chunks, ListAt(lists, to), SizeAt(sizes, to), ListAt(lists, from), SizeAt(sizes, from));
      }
    }
  }

  /** What is left of a quarantine after chunks have been popped while it exceeds the limit. */
  function Survivors(chunks: Chunks, q: seq<nat>, limit: nat): seq<nat>
    requires forall i :: 0 <= i < |q| ==> q[i] in chunks
  {
    if q != [] && Total(chunks, q) > limit then Survivors(chunks, q[1..], limit) else q
  }

  /** The oldest go first, and none goes unless the queue from it onward is over the limit. */
  lemma {:induction false} EvictionOrder(chunks: Chunks, q: seq<nat>, limit: nat) returns (k: nat)
    requires forall i :: 0 <= i < |q| ==> q[i] in chunks
    ensures k <= |q| && Survivors(chunks, q, limit) == q[k..]
    ensures Total(chunks, q[k..]) <= limit
    ensures forall j :: 0 <= j < k ==> Total(chunks, q[j..]) > limit
  {
    k := 0;
    if q != [] && Total(chunks, q) > limit {
      var n := EvictionOrder(chunks, q[1..], limit);
      k := n + 1;
      assert q[1..][n..] == q[k..];
      forall j | 0 <= j < k ensures Total(chunks, q[j..]) > limit {
        if j > 0 {
          assert q[1..][j - 1..] == q[j..];
        } else {
          assert q[0..] == q;
        }
      }
    } else {
      assert q[0..] == q;
    }
  }
}
