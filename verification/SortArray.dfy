/** SortArray() of lib/sanitizer_common/sanitizer_common.cc: an in-place heapsort. */
module SortArray {
  function Parent(k: nat): nat
    requires k > 0
  {
    (k - 1) / 2
  }

  lemma {:induction false} Children(j: nat, k: nat)
    requires k > 0
    ensures Parent(k) == j <==> k == 2 * j + 1 || k == 2 * j + 2
    ensures Parent(k) < k
  {
  }

  /** The first n elements are a heap with the largest on top. */
  ghost predicate Heap(s: seq<nat>, n: nat)
    requires n <= |s|
  {
    forall k {:trigger s[k]} :: 0 < k < n ==> s[Parent(k)] >= s[k]
  }

  /** A heap, except that element j may be larger than its parent. */
  ghost predicate HeapButUp(s: seq<nat>, n: nat, j: nat)
    requires n <= |s| && j < n
  {
    && (forall k {:trigger s[k]} :: 0 < k < n && k != j ==> s[Parent(k)] >= s[k])
    && (forall k {:trigger s[k]} :: 0 < k < n && Parent(k) == j && j > 0 ==> s[Parent(j)] >= s[k])
  }

  /** A heap, except that element j may be smaller than its children. */
  ghost predicate HeapButDown(s: seq<nat>, n: nat, j: nat)
    requires n <= |s|
  {
    && (forall k {:trigger s[k]} :: 0 < k < n && Parent(k) != j ==> s[Parent(k)] >= s[k])
    && (forall k {:trigger s[k]} :: 0 < k < n && Parent(k) == j && j > 0 ==> s[Parent(j)] >= s[k])
  }

  function Swapped(s: seq<nat>, i: nat, j: nat): seq<nat>
    requires i < |s| && j < |s|
  {
    s[i := s[j]][j := s[i]]
  }

  /** The elements of t are those of s, each as often. */
  ghost predicate Permutation(s: seq<nat>, t: seq<nat>) { |s| == |t| && multiset(s) == multiset(t) }

  lemma {:induction false} SwapPermutes(s: seq<nat>, i: nat, j: nat)
    requires i < |s| && j < |s|
    ensures Permutation(s, Swapped(s, i, j))
  {
  }

  lemma {:induction false} PermutesTwice(s: seq<nat>, t: seq<nat>, u: seq<nat>)
    requires Permutation(s, t) && Permutation(t, u)
    ensures Permutation(s, u)
  {
  }

  // ----- Sifting

  lemma {:induction false} SiftUp(s: seq<nat>, n: nat, j: nat)
    requires 0 < j < n <= |s| && HeapButUp(s, n, j) && s[j] > s[Parent(j)]
    ensures HeapButUp(Swapped(s, j, Parent(j)), n, Parent(j))
  {
    var p := Parent(j);
    var t := Swapped(s, j, p);
    forall k | 0 < k < n
      ensures k != p ==> t[Parent(k)] >= t[k]
      ensures Parent(k) == p && p > 0 ==> t[Parent(p)] >= t[k]
    {
      assert s[k] == s[k];
      assert p > 0 ==> s[Parent(p)] >= s[p];
    }
  }

  lemma {:induction false} SiftUpDone(s: seq<nat>, n: nat, j: nat)
    requires j < n <= |s| && HeapButUp(s, n, j) && (j > 0 ==> s[j] <= s[Parent(j)])
    ensures Heap(s, n)
  {
  }

  /** The larger child, or j itself. */
  ghost predicate IsLargest(s: seq<nat>, n: nat, j: nat, m: nat)
    requires j < n <= |s|
  {
    && (m == j || (m < n && m > j && Parent(m) == j && s[m] > s[j]))
    && (2 * j + 1 < n ==> s[m] >= s[2 * j + 1])
    && (2 * j + 2 < n ==> s[m] >= s[2 * j + 2])
  }

  lemma {:induction false} SiftDown(s: seq<nat>, n: nat, j: nat, m: nat)
    requires j < n <= |s| && HeapButDown(s, n, j) && IsLargest(s, n, j, m) && m != j
    ensures HeapButDown(Swapped(s, j, m), n, m)
  {
    var t := Swapped(s, j, m);
    forall k | 0 < k < n
      ensures Parent(k) != m ==> t[Parent(k)] >= t[k]
      ensures Parent(k) == m && m > 0 ==> t[Parent(m)] >= t[k]
    {
      Children(j, k);
      assert s[k] == s[k];
      assert s[m] == s[m];
    }
  }

  lemma {:induction false} SiftDownDone(s: seq<nat>, n: nat, j: nat)
    requires j < n <= |s| && HeapButDown(s, n, j) && IsLargest(s, n, j, j)
    ensures Heap(s, n)
  {
    forall k | 0 < k < n ensures s[Parent(k)] >= s[k] {
      Children(j, k);
    }
  }

  lemma {:induction false} TopIsLargest(s: seq<nat>, n: nat, k: nat)
    requires k < n <= |s| && Heap(s, n)
    ensures s[0] >= s[k]
  {
    if k > 0 {
      Children(0, k);
      TopIsLargest(s, n, Parent(k));
    }
  }

  // ----- Stage 2

  ghost predicate Sorted(s: seq<nat>, lo: nat, hi: nat)
    requires hi <= |s|
  {
    forall x, y :: lo <= x < y < hi ==> s[x] <= s[y]
  }

  /** The elements from i up to n are in place. */
  ghost predicate InPlace(s: seq<nat>, i: nat, n: nat)
    requires i <= n <= |s|
  {
    Sorted(s, i, n) && forall x, y :: 0 <= x < i <= y < n ==> s[x] <= s[y]
  }

  lemma {:induction false} Extract(s: seq<nat>, i: nat, n: nat)
    requires 0 < i < n <= |s| && Heap(s, i + 1) && InPlace(s, i + 1, n)
    ensures HeapButDown(Swapped(s, 0, i), i, 0) && InPlace(Swapped(s, 0, i), i, n)
  {
    var t := Swapped(s, 0, i);
    forall x | 0 <= x < i ensures t[x] <= t[i] {
      TopIsLargest(s, i + 1, x);
      TopIsLargest(s, i + 1, i);
    }
    forall k | 0 < k < i && Parent(k) != 0 ensures t[Parent(k)] >= t[k] {
      assert s[k] == s[k];
    }
  }

  /** Sifting among the first i elements leaves the rest in place. */
  lemma {:induction false} InPlaceKept(s: seq<nat>, t: seq<nat>, i: nat, n: nat, p: nat, q: nat)
    requires p < i <= n <= |s| && q < i && InPlace(s, i, n) && t == Swapped(s, p, q)
    ensures InPlace(t, i, n)
  {
  }

  // ----- The method

  method Swap(a: array<nat>, i: nat, j: nat)
    requires i < a.Length && j < a.Length
    modifies a
    ensures a[..] == Swapped(old(a[..]), i, j)
  {
    a[i], a[j] := a[j], a[i];
  }

  /** The first size elements are sorted, the rest untouched, and nothing is lost or added. */
  method SortArray(a: array<nat>, size: nat)
    requires size <= a.Length
    modifies a
    ensures Sorted(a[..], 0, size) && Permutation(old(a[..]), a[..])
    ensures a[size..] == old(a[size..])
  {
    if size < 2 {
      return;
    }
    BuildHeap(a, size);
    ghost var s := a[..];
    Drain(a, size);
    PermutesTwice(old(a[..]), s, a[..]);
  }

  /** The second stage: the heap is taken apart from the top, and the tail grows sorted. */
  method Drain(a: array<nat>, size: nat)
    requires 2 <= size <= a.Length && Heap(a[..], size)
    modifies a
    ensures Sorted(a[..], 0, size) && Permutation(old(a[..]), a[..])
    ensures a[size..] == old(a[size..])
  {
    hide Heap, HeapButDown, InPlace, Permutation, Swapped, Sorted;
    Whole(a[..], size);
    PermutesSelf(a[..]);
    var i := size - 1;
    while i > 0
      invariant 0 <= i < size && Heap(a[..], i + 1) && InPlace(a[..], i + 1, size)
      invariant Permutation(old(a[..]), a[..]) && a[size..] == old(a[size..])
    {
      DrainOne(a, i, size, old(a[..]));
      i := i - 1;
    }
    Whole(a[..], size);
  }

  method DrainOne(a: array<nat>, i: nat, size: nat, ghost before: seq<nat>)
    requires 0 < i < size <= a.Length && Heap(a[..], i + 1) && InPlace(a[..], i + 1, size) && Permutation(before, a[..])
    modifies a
    ensures Heap(a[..], i) && InPlace(a[..], i, size) && Permutation(before, a[..]) && a[size..] == old(a[size..])
  {
    hide Heap, HeapButDown, InPlace, Permutation, Swapped, Sorted;
    ghost var s := a[..];
    Extract(s, i, size);
    SwapPermutes(s, 0, i);
    SwapTail(s, 0, i, size);
    Swap(a, 0, i);
    ghost var t := a[..];
    Sink(a, i, size);
    TailKept(t, a[..], i, size);
    PermutesTwice(before, s, t);
    PermutesTwice(before, t, a[..]);
  }

  lemma {:induction false} Whole(s: seq<nat>, n: nat)
    requires n <= |s|
    ensures InPlace(s, n, n) && (n > 0 && InPlace(s, 1, n) ==> Sorted(s, 0, n))
  {
  }

  lemma {:induction false} PermutesSelf(s: seq<nat>)
    ensures Permutation(s, s)
  {
  }

  lemma {:induction false} SwapTail(s: seq<nat>, i: nat, j: nat, n: nat)
    requires i < n <= |s| && j < n
    ensures Swapped(s, i, j)[n..] == s[n..]
  {
  }

  lemma {:induction false} TailKept(s: seq<nat>, t: seq<nat>, i: nat, n: nat)
    requires i <= n <= |s| == |t| && s[i..] == t[i..]
    ensures s[n..] == t[n..]
  {
    assert s[n..] == s[i..][n - i..] && t[n..] == t[i..][n - i..];
  }

  /** The first stage: a prefix grows into a heap. */
  method BuildHeap(a: array<nat>, size: nat)
    requires 2 <= size <= a.Length
    modifies a
    ensures Heap(a[..], size) && Permutation(old(a[..]), a[..]) && a[size..] == old(a[size..])
  {
    var i := 1;
    while i < size
      invariant 1 <= i <= size && Heap(a[..], i)
      invariant Permutation(old(a[..]), a[..]) && a[size..] == old(a[size..])
    {
      ghost var s := a[..];
      Rise(a, i);
      PermutesTwice(old(a[..]), s, a[..]);
      i := i + 1;
    }
  }

  lemma {:induction false} RiseStart(s: seq<nat>, i: nat)
    requires 1 <= i < |s| && Heap(s, i)
    ensures HeapButUp(s, i + 1, i)
  {
  }

  /** The inner loop of stage 1. */
  method Rise(a: array<nat>, i: nat)
    requires 1 <= i < a.Length && Heap(a[..], i)
    modifies a
    ensures Heap(a[..], i + 1) && Permutation(old(a[..]), a[..]) && a[i + 1..] == old(a[i + 1..])
  {
    RiseStart(a[..], i);
    PermutesSelf(a[..]);
    hide Heap, HeapButUp, Permutation, Swapped;
    var j := i;
    while j > 0
      invariant 0 <= j <= i && HeapButUp(a[..], i + 1, j)
      invariant Permutation(old(a[..]), a[..]) && a[i + 1..] == old(a[i + 1..])
    {
      var p := Parent(j);
      if a[j] > a[p] {
        RiseOnce(a, i, j, old(a[..]));
      } else {
        SiftUpDone(a[..], i + 1, j);
        return;
      }
      j := p;
    }
    SiftUpDone(a[..], i + 1, 0);
  }

  method RiseOnce(a: array<nat>, i: nat, j: nat, ghost before: seq<nat>)
    requires 0 < j <= i < a.Length && HeapButUp(a[..], i + 1, j) && a[j] > a[Parent(j)]
    requires Permutation(before, a[..])
    modifies a
    ensures HeapButUp(a[..], i + 1, Parent(j)) && Permutation(before, a[..]) && a[i + 1..] == old(a[i + 1..])
  {
    hide HeapButUp, Permutation, Swapped;
    ghost var s := a[..];
    SiftUp(s, i + 1, j);
    SwapPermutes(s, j, Parent(j));
    SwapTail(s, j, Parent(j), i + 1);
    Swap(a, j, Parent(j));
    PermutesTwice(before, s, a[..]);
  }

  /** The inner loop of stage 2. */
  method Sink(a: array<nat>, i: nat, ghost size: nat)
    requires 0 < i < size <= a.Length && HeapButDown(a[..], i, 0) && InPlace(a[..], i, size)
    modifies a
    ensures Heap(a[..], i) && InPlace(a[..], i, size)
    ensures Permutation(old(a[..]), a[..]) && a[i..] == old(a[i..])
  {
    hide Heap, HeapButDown, InPlace, Permutation, IsLargest, Swapped;
    PermutesSelf(a[..]);
    var j := 0;
    while j < i
      invariant 0 <= j < i && HeapButDown(a[..], i, j) && InPlace(a[..], i, size)
      invariant Permutation(old(a[..]), a[..]) && a[i..] == old(a[i..])
      decreases i - j
    {
      var max_ind := Largest(a, i, j);
      ghost var s := a[..];
      if max_ind != j {
        SiftDown(s, i, j, max_ind);
        SwapPermutes(s, j, max_ind);
        SwapTail(s, j, max_ind, i);
        InPlaceKept(s, Swapped(s, j, max_ind), i, size, j, max_ind);
        Swap(a, j, max_ind);
        PermutesTwice(old(a[..]), s, a[..]);
      } else {
        SiftDownDone(s, i, j);
        return;
      }
      j := max_ind;
    }
  }

  method Largest(a: array<nat>, i: nat, j: nat) returns (max_ind: nat)
    requires j < i <= a.Length
    ensures max_ind < i && max_ind >= j && IsLargest(a[..], i, j, max_ind)
  {
    var left, right := 2 * j + 1, 2 * j + 2;
    max_ind := j;
    if left < i && a[left] > a[max_ind] {
      max_ind := left;
    }
    if right < i && a[right] > a[max_ind] {
      max_ind := right;
    }
    Children(j, left);
    Children(j, right);
  }
}
