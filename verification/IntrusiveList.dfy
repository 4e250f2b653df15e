/** The linked lists the allocators are built from, as nodes and pointers: IntrusiveList of
lib/sanitizer_common/sanitizer_list.h and AsanChunkFifoList of lib/asan/asan_allocator.cc.  Elsewhere these
lists are sequences; here each operation is shown to do to the sequence of its nodes what is used there. */
module IntrusiveList {
  class Item {
    var next: Item?
    const weight: nat // AsanChunk::Size()

    constructor (weight: nat)
      ensures this.weight == weight && next == null
    {
      this.weight := weight;
      next := null;
    }
  }

  ghost predicate Distinct(items: seq<Item>) { forall i, j :: 0 <= i < j < |items| ==> items[i] != items[j] }

  ghost predicate Apart(a: seq<Item>, b: seq<Item>) { forall i, j :: 0 <= i < |a| && 0 <= j < |b| ==> a[i] != b[j] }

  ghost predicate Linked(items: seq<Item>, i: nat)
    requires i < |items|
    reads items[i]
  {
    items[i].next == if i + 1 < |items| then items[i + 1] else null
  }

  /** From first, the next pointers go through the items, in order, and end in null. */
  ghost predicate Chain(first: Item?, items: seq<Item>)
    reads items
  {
    && Distinct(items) && first == (if items == [] then null else items[0])
    && forall i: nat {:trigger Linked(items, i)} :: i < |items| ==> Linked(items, i)
  }

  ghost predicate EndsAt(last: Item?, items: seq<Item>) { last == if items == [] then null else items[|items| - 1] }

  function Total(items: seq<Item>): nat { if items == [] then 0 else items[0].weight + Total(items[1..]) }

  lemma {:induction false} TotalJoin(a: seq<Item>, b: seq<Item>)
    ensures Total(a + b) == Total(a) + Total(b)
  {
    if a == [] {
      assert a + b == b;
    } else {
      TotalJoin(a[1..], b);
      assert (a + b)[1..] == a[1..] + b;
    }
  }

  class IntrusiveList {
    var size: nat
    var first: Item?
    var last: Item?
    ghost var items: seq<Item>

    ghost predicate Valid()
      reads this, items
    {
      Consistent(items)
    }

    /** The list is that of s, whatever its items are supposed to be. */
    ghost predicate Consistent(s: seq<Item>)
      reads this, s
    {
      Chain(first, s) && EndsAt(last, s) && size == |s|
    }

    constructor ()
      ensures Valid() && items == []
    {
      size, first, last, items := 0, null, null, [];
    }

    method Clear()
      modifies this
      ensures Valid() && items == []
    {
      size, first, last, items := 0, null, null, [];
    }

    method PushBack(x: Item)
      requires Valid() && x !in items
      modifies this, x, items
      ensures Valid() && items == old(items) + [x]
    {
      if size == 0 {
        x.next := null;
        first, last := x, x;
        size := 1;
      } else {
        x.next := null;
        last.next := x;
        last := x;
        size := size + 1;
      }
      items := items + [x];
      forall i: nat | i < |items| ensures Linked(items, i) {
        if i + 1 < |items| {
          assert old(Linked(items, i));
        }
      }
    }

    method PushFront(x: Item)
      requires Valid() && x !in items
      modifies this, x
      ensures Valid() && items == [x] + old(items)
    {
      if size == 0 {
        x.next := null;
        first, last := x, x;
        size := 1;
      } else {
        x.next := first;
        first := x;
        size := size + 1;
      }
      items := [x] + items;
      forall i: nat | i < |items| ensures Linked(items, i) {
        if i > 0 {
          assert old(Linked(items, i - 1));
        }
      }
    }

    method PopFront()
      requires Valid() && items != []
      modifies this
      ensures Valid() && items == old(items)[1..]
    {
      assert Linked(items, 0);
      first := first.next;
      if first == null {
        last := null;
      }
      size := size - 1;
      items := items[1..];
      forall i: nat | i < |items| ensures Linked(items, i) {
        assert old(Linked(items, i + 1));
      }
    }

    method AppendFront(l: IntrusiveList)
      requires Valid() && l.Valid() && l != this && Apart(items, l.items)
      modifies this, l, items, l.items
      ensures Valid() && l.Valid() && l.items == []
      ensures items == old(l.items) + old(items)
    {
      ghost var all := l.items + items;
      if size == 0 {
        size, first, last := l.size, l.first, l.last;
      } else if l.size != 0 {
        l.last.next := first;
        first := l.first;
        size := size + l.size;
      }
      items := all;
      l.Clear();
      ghost var a, b := old(l.items), old(items);
      forall i: nat | i < |items| ensures Linked(items, i) {
        if i < |a| {
          assert old(Linked(a, i));
        } else {
          assert old(Linked(b, i - |a|));
        }
      }
    }

    /** Works unless an empty list is appended to one that is not: then last is lost. */
    method AppendBack(l: IntrusiveList)
      requires Valid() && l.Valid() && l != this && Apart(items, l.items)
      modifies this, l, items, l.items
      ensures l.Valid() && l.items == []
      ensures items == old(items) + old(l.items) && Chain(first, items) && size == |items|
      ensures Valid() <==> old(items) == [] || old(l.items) != []
      ensures !Valid() ==> last == null
    {
      ghost var all := items + l.items;
      if size == 0 {
        size, first, last := l.size, l.first, l.last;
      } else {
        last.next := l.first;
        last := l.last;
        size := size + l.size;
      }
      items := all;
      l.Clear();
      ghost var a, b := old(items), old(l.items);
      forall i: nat | i < |items| ensures Linked(items, i) {
        if i < |a| {
          assert old(Linked(a, i));
        } else {
          assert old(Linked(b, i - |a|));
        }
      }
    }

    /** Whether all CHECKs hold, for any list object at all; a null pointer that is followed counts as a
        failure.  walk is what the loop visits until it comes to last or to null: if the next pointers run in a
        circle without last, it never ends. */
    method CheckConsistency(ghost walk: seq<Item>) returns (ok: bool, ghost found: seq<Item>)
      requires size != 0 ==> Walks(first, walk) && (Behind(first, walk) == null || Behind(first, walk) == last)
      ensures ok ==> Consistent(found)
      ensures !ok ==> forall s: seq<Item> :: !Consistent(s)
    {
      found := [];
      if size == 0 {
        ok := first == null && last == null;
        return;
      }
      var count, i := 0, first;
      while true
        invariant 0 <= count <= |walk| && i == (if count < |walk| then walk[count] else Behind(first, walk))
        invariant forall k :: 0 <= k < count ==> walk[k] != last
        invariant forall s: seq<Item> {:trigger Consistent(s)} :: Consistent(s) ==> count < |s| && i == s[count]
        decreases |walk| - count
      {
        ghost var c := count;
        count := count + 1;
        if i == last {
          break;
        }
        if i == null {
          return false, [];
        }
        Onward(c, i);
        assert c < |walk|;
        i := i.next;
      }
      ok := size == count && last != null && last.next == null;
      if last != null {
        found := walk[..count - 1] + [last];
        if last.next == null {
          Straight(first, found);
        }
      }
      AtLast(count - 1);
    }

    /** When the walk has come to last, a consistent list ends there. */
    lemma {:induction false} AtLast(c: nat)
      requires forall s: seq<Item> {:trigger Consistent(s)} :: Consistent(s) ==> c < |s| && last == s[c]
      ensures forall s: seq<Item> {:trigger Consistent(s)} :: Consistent(s) ==>
        size == c + 1 && last != null && last.next == null
    {
      forall s: seq<Item> | Consistent(s) ensures size == c + 1 && last != null && last.next == null {
        assert Linked(s, |s| - 1);
      }
    }

    /** A consistent list goes on behind every item but the last. */
    lemma {:induction false} Onward(c: nat, i: Item)
      requires i != last && forall s: seq<Item> {:trigger Consistent(s)} :: Consistent(s) ==> c < |s| && i == s[c]
      ensures forall s: seq<Item> {:trigger Consistent(s)} :: Consistent(s) ==> c + 1 < |s| && i.next == s[c + 1]
    {
      forall s: seq<Item> | Consistent(s) ensures c + 1 < |s| && i.next == s[c + 1] {
        assert Linked(s, c);
      }
    }
  }

  /** The items that the next pointers lead through from first; there may be more behind. */
  ghost predicate Walks(first: Item?, walk: seq<Item>)
    reads walk
  {
    && (walk != [] ==> walk[0] == first)
    && forall i :: 0 <= i < |walk| - 1 ==> walk[i].next == walk[i + 1]
  }

  ghost function Behind(first: Item?, walk: seq<Item>): Item?
    reads walk
  {
    if walk == [] then first else walk[|walk| - 1].next
  }

  /** What leads to null does not run in a circle. */
  lemma {:induction false} Straight(first: Item?, walk: seq<Item>)
    requires Walks(first, walk) && Behind(first, walk) == null
    ensures Chain(first, walk)
  {
    forall i, j | 0 <= i < j < |walk| ensures walk[i] != walk[j] {
      if walk[i] == walk[j] { SameBehind(first, walk, i, j); }
    }
  }

  lemma {:induction false} SameBehind(first: Item?, walk: seq<Item>, i: nat, j: nat)
    requires Walks(first, walk) && i < j < |walk| && walk[i] == walk[j]
    ensures Behind(first, walk) != null
    decreases |walk| - j
  {
    assert walk[i].next == walk[i + 1];
    if j + 1 < |walk| {
      assert walk[j].next == walk[j + 1];
      SameBehind(first, walk, i + 1, j + 1);
    }
  }

  class AsanChunkFifoList {
    var first: Item?
    var last: Item?
    var size: nat
    ghost var items: seq<Item>

    /** size() is the number of bytes, so it is zero exactly for the empty list. */
    ghost predicate Valid()
      reads this, items
    {
      && Chain(first, items) && EndsAt(last, items) && size == Total(items)
      && forall i :: 0 <= i < |items| ==> items[i].weight > 0
    }

    constructor ()
      ensures Valid() && items == []
    {
      size, first, last, items := 0, null, null, [];
    }

    method Clear()
      modifies this
      ensures Valid() && items == []
    {
      size, first, last, items := 0, null, null, [];
    }

    method Push(n: Item)
      requires Valid() && n !in items && n.next == null && n.weight > 0
      modifies this, items
      ensures Valid() && items == old(items) + [n]
    {
      if last != null {
        assert Linked(items, |items| - 1);
        assert first != null && last.next == null;
        last.next := n;
        last := n;
      } else {
        assert first == null;
        last, first := n, n;
      }
      size := size + n.weight;
      TotalJoin(items, [n]);
      assert Total([n][1..]) == 0;
      items := items + [n];
      forall i: nat | i < |items| ensures Linked(items, i) {
        if i + 1 < |items| {
          assert old(Linked(items, i));
        }
      }
    }

    method PushList(q: AsanChunkFifoList)
      requires Valid() && q.Valid() && q != this && Apart(items, q.items) && q.size > 0
      modifies this, q, items
      ensures Valid() && q.Valid() && q.items == []
      ensures items == old(items) + old(q.items) && size == old(size) + old(q.size)
    {
      TotalJoin(items, q.items);
      ghost var all := items + q.items;
      if last != null {
        assert Linked(items, |items| - 1);
        assert first != null && last.next == null;
        last.next := q.first;
        last := q.last;
      } else {
        assert first == null;
        last := q.last;
        first := q.first;
        assert first != null;
      }
      assert old(Linked(q.items, |q.items| - 1));
      assert last != null && last.next == null;
      size := size + q.size;
      items := all;
      q.Clear();
      ghost var a, b := old(items), old(q.items);
      forall i: nat | i < |items| ensures Linked(items, i) {
        if i < |a| {
          assert old(Linked(a, i));
        } else {
          assert old(Linked(b, i - |a|));
        }
      }
    }

    method Pop() returns (res: Item)
      requires Valid() && items != []
      modifies this
      ensures Valid() && [res] + items == old(items) && size == old(size) - res.weight
    {
      assert Linked(items, 0) && Linked(items, |items| - 1);
      res := first;
      first := first.next;
      if first == null {
        last := null;
      }
      assert size >= res.weight;
      size := size - res.weight;
      assert last != null ==> last.next == null;
      items := items[1..];
      forall i: nat | i < |items| ensures Linked(items, i) {
        assert old(Linked(items, i + 1));
      }
    }
  }
}
