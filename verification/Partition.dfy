/** Objects shared out among lists: every object is in one place, and each list holds the objects of its
place, once.  A list is the sequence of the objects it links; the lists are a map from places. */
module Partition {
  import opened Bits

  ghost predicate NoDuplicates(s: seq<nat>)
  {
    forall i, j :: 0 <= i < j < |s| ==> s[i] != s[j]
  }

  function ListAt<P(==)>(lists: map<P, seq<nat>>, p: P): seq<nat>
  {
    if p in lists then lists[p] else []
  }

  /** s holds the objects of place p, each once. */
  ghost predicate Holds<P>(s: seq<nat>, where: map<nat, P>, p: P)
  {
    NoDuplicates(s) && forall a: nat :: a in s <==> a in where && where[a] == p
  }

  /** Objects at the place called outside are in no list. */
  ghost predicate Partitioned<P(!new)>(lists: map<P, seq<nat>>, where: map<nat, P>, outside: P)
  {
    && ListAt(lists, outside) == []
    && (forall p: P {:trigger ListAt(lists, p)} :: p != outside ==> Holds(ListAt(lists, p), where, p))
  }

  /** An object is in one list at most, and in none exactly when it is outside. */
  lemma {:induction false} InOneList<P(!new)>(lists: map<P, seq<nat>>, where: map<nat, P>, outside: P, a: nat)
    requires Partitioned(lists, where, outside) && a in where
    ensures forall p: P :: a in ListAt(lists, p) <==> p != outside && where[a] == p
    ensures where[a] == outside <==> forall p: P :: a !in ListAt(lists, p)
  {
    forall p: P ensures a in ListAt(lists, p) <==> p != outside && where[a] == p {
      if p != outside { assert Holds(ListAt(lists, p), where, p); }
    }
    if where[a] != outside { assert a in ListAt(lists, where[a]); }
  }

  // ----- Sequences without duplicates

  lemma {:induction false} RestOf(s: seq<nat>)
    requires NoDuplicates(s) && s != []
    ensures NoDuplicates(s[1..]) && forall a: nat :: a in s[1..] <==> a in s && a != s[0]
  {
    assert s == [s[0]] + s[1..];
  }

  lemma {:induction false} Joined(s: seq<nat>, t: seq<nat>)
    requires NoDuplicates(s) && NoDuplicates(t) && forall a: nat :: a in s ==> a !in t
    ensures NoDuplicates(s + t) && forall a: nat :: a in s + t <==> a in s || a in t
  {
    forall i, j | 0 <= i < j < |s + t| ensures (s + t)[i] != (s + t)[j] {
      if i < |s| <= j {
        assert s[i] in s && t[j - |s|] in t;
      }
    }
  }

  // ----- Moving objects

  /** lists with the front of one list taken off. */
  function Popped<P(==)>(lists: map<P, seq<nat>>, p: P): map<P, seq<nat>>
    requires ListAt(lists, p) != []
  {
    lists[p := ListAt(lists, p)[1..]]
  }

  function PushedFront<P(==)>(lists: map<P, seq<nat>>, p: P, a: nat): map<P, seq<nat>>
  {
    lists[p := [a] + ListAt(lists, p)]
  }

  function PushedBack<P(==)>(lists: map<P, seq<nat>>, p: P, a: nat): map<P, seq<nat>>
  {
    lists[p := ListAt(lists, p) + [a]]
  }

  lemma {:induction false} PoppedHolds<P>(s: seq<nat>, where: map<nat, P>, p: P, to: P)
    requires Holds(s, where, p) && s != [] && to != p
    ensures s[0] in where && Holds(s[1..], where[s[0] := to], p)
  {
    RestOf(s);
    assert s[0] in s;
  }

  lemma {:induction false} PushedHolds<P>(s: seq<nat>, where: map<nat, P>, p: P, a: nat)
    requires Holds(s, where, p) && (a in where ==> where[a] != p)
    ensures Holds([a] + s, where[a := p], p) && Holds(s + [a], where[a := p], p)
  {
    Joined([a], s);
    Joined(s, [a]);
  }

  /** An object leaves the front of its list. */
  ghost predicate Leaves<P>(lists: map<P, seq<nat>>, from: P, a: nat, lists': map<P, seq<nat>>, outside: P)
  {
    if from == outside then lists' == lists
    else ListAt(lists, from) != [] && ListAt(lists, from)[0] == a && lists' == Popped(lists, from)
  }

  /** An object joins a list at one of its ends. */
  ghost predicate Joins<P>(lists: map<P, seq<nat>>, to: P, a: nat, lists': map<P, seq<nat>>, outside: P)
  {
    if to == outside then lists' == lists else lists' == PushedFront(lists, to, a) || lists' == PushedBack(lists, to, a)
  }

  lemma {:induction false} MovePartitioned<P(!new)>(lists: map<P, seq<nat>>, where: map<nat, P>, outside: P, a: nat,
      from: P, to: P, rest: map<P, seq<nat>>, lists': map<P, seq<nat>>)
    requires Partitioned(lists, where, outside) && a in where && where[a] == from && from != to
    requires Leaves(lists, from, a, rest, outside) && Joins(rest, to, a, lists', outside)
    ensures Partitioned(lists', where[a := to], outside)
  {
    forall p: P | p != outside ensures Holds(ListAt(lists', p), where[a := to], p) {
      assert Holds(ListAt(lists, p), where, p);
      if p == from {
        PoppedHolds(ListAt(lists, p), where, p, to);
      } else if p == to {
        PushedHolds(ListAt(lists, p), where, p, a);
      }
    }
  }

  /** A whole list is appended to another. */
  function Appended<P(==)>(lists: map<P, seq<nat>>, from: P, to: P): map<P, seq<nat>>
  {
    lists[to := ListAt(lists, to) + ListAt(lists, from)][from := []]
  }

  function Relabelled<P(==)>(where: map<nat, P>, from: P, to: P): map<nat, P>
  {
    map a | a in where :: if where[a] == from then to else where[a]
  }

  lemma {:induction false} AppendPartitioned<P(!new)>(lists: map<P, seq<nat>>, where: map<nat, P>, outside: P, from: P, to: P)
    requires Partitioned(lists, where, outside) && from != to && from != outside && to != outside
    ensures Partitioned(Appended(lists, from, to), Relabelled(where, from, to), outside)
  {
    var lists', where' := Appended(lists, from, to), Relabelled(where, from, to);
    assert Holds(ListAt(lists, from), where, from) && Holds(ListAt(lists, to), where, to);
    forall p: P | p != outside ensures Holds(ListAt(lists', p), where', p) {
      assert Holds(ListAt(lists, p), where, p);
      if p == to {
        Joined(ListAt(lists, to), ListAt(lists, from));
      }
    }
  }

  /** The same, the arriving objects in front. */
  function Prefixed<P(==)>(lists: map<P, seq<nat>>, from: P, to: P): map<P, seq<nat>>
  {
    lists[to := ListAt(lists, from) + ListAt(lists, to)][from := []]
  }

  lemma {:induction false} PrefixPartitioned<P(!new)>(lists: map<P, seq<nat>>, where: map<nat, P>, outside: P, from: P, to: P)
    requires Partitioned(lists, where, outside) && from != to && from != outside && to != outside
    ensures Partitioned(Prefixed(lists, from, to), Relabelled(where, from, to), outside)
  {
    var lists', where' := Prefixed(lists, from, to), Relabelled(where, from, to);
    assert Holds(ListAt(lists, from), where, from) && Holds(ListAt(lists, to), where, to);
    forall p: P | p != outside ensures Holds(ListAt(lists', p), where', p) {
      assert Holds(ListAt(lists, p), where, p);
      if p == to {
        Joined(ListAt(lists, from), ListAt(lists, to));
      }
    }
  }

  /** The list that is left when one after the other is moved from the front of s to the front of another. */
  function Reversed(s: seq<nat>): (r: seq<nat>)
    ensures |r| == |s|
  {
    if s == [] then [] else Reversed(s[1..]) + [s[0]]
  }

  /** What is at one end of s is at the other end of its reversal. */
  lemma {:induction false} ReversedAt(s: seq<nat>, k: nat)
    requires k < |s|
    ensures Reversed(s)[k] == s[|s| - 1 - k]
  {
    if k < |s| - 1 { ReversedAt(s[1..], k); }
  }

  /** One more element of s moved to the front. */
  lemma {:induction false} ReversedMore(s: seq<nat>, k: nat)
    requires k < |s|
    ensures Reversed(s[..k + 1]) == [s[k]] + Reversed(s[..k])
  {
    forall j: nat | j < k + 1 ensures Reversed(s[..k + 1])[j] == ([s[k]] + Reversed(s[..k]))[j] {
      ReversedAt(s[..k + 1], j);
      if j > 0 { ReversedAt(s[..k], j - 1); }
    }
  }

  lemma {:induction false} ReversedStep(s: seq<nat>, t: seq<nat>)
    requires s != []
    ensures Reversed(s[1..]) + ([s[0]] + t) == Reversed(s) + t
  {
  }

  /** New objects fill an empty list. */
  lemma {:induction false} FillPartitioned<P(!new)>(lists: map<P, seq<nat>>, where: map<nat, P>, outside: P,
      made: map<nat, P>, order: seq<nat>, p: P)
    requires Partitioned(lists, where, outside) && p != outside && ListAt(lists, p) == []
    requires made.Keys !! where.Keys && NoDuplicates(order) && (forall a: nat :: a in order <==> a in made)
    requires forall a :: a in made ==> made[a] == p
    ensures Partitioned(lists[p := order], where + made, outside)
  {
    var lists', where' := lists[p := order], where + made;
    forall q: P | q != outside ensures Holds(ListAt(lists', q), where', q) {
      assert Holds(ListAt(lists, q), where, q);
    }
  }

  // ----- Objects side by side

  lemma {:induction false} NotNegative(n: nat, size: nat)
    ensures n * size >= 0
  {
    if size > 0 { MulSign(n, size); } else { MulComm(size, n); }
  }

  function Times(n: nat, size: nat): nat { NotNegative(n, size); n * size }

  /** n objects side by side from mem on, the last one first. */
  function Row(mem: nat, size: nat, n: nat): seq<nat>
  {
    seq(n, j requires 0 <= j < n => mem + Times(n - 1 - j, size))
  }

  lemma {:induction false} RowAt(mem: nat, size: nat, n: nat, j: nat)
    requires j < n
    ensures Row(mem, size, n)[j] == mem + (n - 1 - j) * size
  {
    assert Times(n - 1 - j, size) == (n - 1 - j) * size;
  }

  /** One more heads the list. */
  lemma {:induction false} RowMore(mem: nat, size: nat, n: nat)
    ensures Row(mem, size, n + 1) == [mem + n * size] + Row(mem, size, n)
  {
    RowAt(mem, size, n + 1, 0);
  }

  lemma {:induction false} RowApart(mem: nat, size: nat, n: nat)
    requires size > 0
    ensures NoDuplicates(Row(mem, size, n))
    ensures forall a, b :: a in Row(mem, size, n) && b in Row(mem, size, n) && a < b ==> a + size <= b
    ensures forall a :: a in Row(mem, size, n) ==> mem <= a && a + size <= mem + n * size
  {
    var r := Row(mem, size, n);
    forall j, k | 0 <= j < k < n ensures r[k] + size <= r[j] {
      RowAt(mem, size, n, j);
      RowAt(mem, size, n, k);
      MulLe(n - k, n - 1 - j, size);
      Distrib(n - 1 - k, 1, size);
    }
    forall j | 0 <= j < n ensures mem <= r[j] && r[j] + size <= mem + n * size {
      RowAt(mem, size, n, j);
      MulSign(n - 1 - j, size);
      Distrib(n - 1 - j, 1, size);
      MulLe(n - j, n, size);
    }
  }

  lemma {:induction false} RowFront(mem: nat, size: nat, n: nat)
    ensures |Row(mem, size, n)| == n
    ensures n > 0 ==> Row(mem, size, n)[0] == mem + (n - 1) * size
  {
    if n > 0 { RowAt(mem, size, n, 0); }
  }
}
