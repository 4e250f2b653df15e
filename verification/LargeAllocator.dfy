/** LargeMmapAllocator of lib/sanitizer_common/sanitizer_allocator64.h: one mapping for each block.

The header of a block is a page below it.  The doubly linked list of headers is a sequence, newest
first.  mmap is a function from the mappings there are, and a size, to a page-aligned address, or to
nothing when the process would die. */
module LargeAllocator {
  import opened Bits
  import opened AsanSizes
  import opened Options
  import opened SizeClassMap

  /** user is where the block starts: GetUser(h). */
  datatype Header = Header(user: nat, map_beg: nat, map_size: nat, size: nat)

  type Os = (seq<Header>, nat) -> Option<nat>

  predicate Apart(h: Header, map_beg: nat, map_size: nat)
  {
    h.map_beg + h.map_size <= map_beg || map_beg + map_size <= h.map_beg
  }

  ghost predicate GoodOs(os: Os)
  {
    forall list: seq<Header>, size: nat {:trigger os(list, size)} :: os(list, size).Some? ==>
      var beg := os(list, size).value;
      IsAligned(beg, 12) && beg + size < WORD && forall i :: 0 <= i < |list| ==> Apart(list[i], beg, size)
  }

  /** The request for memory is refused. */
  predicate Fails(os: Os, list: seq<Header>, size: nat) { os(list, size).None? }

  // ----- Sizes, in 64-bit arithmetic

  /** RoundUpMapSize(): `RoundUpTo(size, kPageSize) + kPageSize`. */
  function RoundUpMapSize(size: nat): nat
  {
    (Lsh(Shr((size + PAGE - 1) % WORD, 12), 12) + PAGE) % WORD
  }

  /** The map_size of Allocate(). */
  function MapSize(size: nat, al: nat): nat
  {
    if al > 12 then (RoundUpMapSize(size) + Pow2(al)) % WORD else RoundUpMapSize(size)
  }

  /** The size without wrap-around. */
  function TrueMapSize(size: nat, al: nat): nat
  {
    RoundUp(size, 12) + PAGE + (if al > 12 then Pow2(al) else 0)
  }

  /** `if (map_size < size) return 0;  // Overflow.` tells exactly. */
  lemma {:induction false} OverflowTest(size: nat, al: nat)
    requires size < WORD && al < 64
    ensures MapSize(size, al) < size <==> TrueMapSize(size, al) >= WORD
    ensures TrueMapSize(size, al) < WORD ==> MapSize(size, al) == TrueMapSize(size, al)
  {
    hide RoundUp, RoundUpMapSize, Pow2;
    AlignmentRange(al);
    RoundedSize(size);
    WrapOnce(RoundUp(size, 12) + PAGE);
    WrapOnce(RoundUpMapSize(size) + Pow2(al));
  }

  lemma {:induction false} WrapOnce(x: nat)
    requires x < 2 * WORD
    ensures x % WORD == if x < WORD then x else x - WORD
  {
  }

  lemma {:induction false} AlignmentRange(al: nat)
    requires al < 64
    ensures 2 * Pow2(al) <= WORD
  {
    WordSizes();
    Pow2Mono(al, 64);
  }

  /** Rounding up either stays below 2^64 or comes to nothing. */
  lemma {:induction false} RoundedSize(size: nat)
    requires size < WORD
    ensures size <= RoundUp(size, 12) < size + PAGE
    ensures size + PAGE - 1 < WORD ==> RoundUpMapSize(size) == (RoundUp(size, 12) + PAGE) % WORD
    ensures size + PAGE - 1 >= WORD ==> RoundUpMapSize(size) == PAGE && RoundUp(size, 12) >= WORD
  {
    Constants();
    RoundUpLeast(size, 12);
    if size + PAGE - 1 >= WORD {
      // what is left rounds down to nothing
      WrapOnce(size + PAGE - 1);
      SplitSmall((size + PAGE - 1) % WORD, 12);
      LshZero(12);
      WordAligned(RoundUp(size, 12));
    } else {
      WrapOnce(size + PAGE - 1);
    }
  }

  lemma {:induction false} WordAligned(x: nat)
    requires IsAligned(x, 12) && WORD - PAGE < x
    ensures x >= WORD
  {
    Constants();
    WordSizes();
    AlignedPower(64, 12);
    if x < WORD {
      AlignedSum(WORD, x, 12);
      SplitSmall(WORD - x, 12);
    }
  }

  // ----- The allocator

  ghost predicate HeaderOk(h: Header)
  {
    h.map_beg + PAGE <= h.user && h.user + h.size <= h.map_beg + h.map_size && IsAligned(h.user, 12)
  }

  ghost predicate ListOk(list: seq<Header>)
  {
    && (forall i :: 0 <= i < |list| ==> HeaderOk(list[i]))
    && (forall i, j :: 0 <= i < j < |list| ==> Apart(list[i], list[j].map_beg, list[j].map_size))
  }

  /** Where the block lies in its mapping: both CHECKs of Allocate() hold. */
  lemma {:induction false} Placement(map_beg: nat, size: nat, al: nat)
    requires IsAligned(map_beg, 12)
    ensures var res := if al > 12 then RoundUp(map_beg + PAGE, al) else map_beg + PAGE;
      && IsAligned(res, al) && IsAligned(res, 12)
      && map_beg + PAGE <= res && res + size <= map_beg + TrueMapSize(size, al)
  {
    Constants();
    AlignedPower(12, 12);
    AlignedSum(map_beg, PAGE, 12);
    RoundUpLeast(size, 12);
    if al > 12 {
      RoundUpLeast(map_beg + PAGE, al);
      AlignedCoarser(RoundUp(map_beg + PAGE, al), 12, al - 12);
    } else {
      AlignedCoarser(map_beg + PAGE, al, 12 - al);
    }
  }

  /** `if (res & (alignment - 1)) res += alignment - (res & (alignment - 1));` */
  lemma {:induction false} AlignUp(x: nat, al: nat)
    ensures (if Low(x, al) != 0 then x + Pow2(al) - Low(x, al) else x) == RoundUp(x, al)
    ensures x + Pow2(al) >= Low(x, al)
  {
    Split(x, al);
    RoundUpLeast(x, al);
    if Low(x, al) == 0 {
      AlignedRounds(x, al);
    } else {
      var low := x - Low(x, al);
      SplitUnique(Shr(x, al), 0, al);
      AlignedPower(al, al);
      AlignedSum(low, Pow2(al), al);
      AlignedSum(low + Pow2(al), RoundUp(x, al), al);
      SplitSmall(low + Pow2(al) - RoundUp(x, al), al);
    }
  }

  class LargeMmapAllocator {
    var list: seq<Header>

    ghost predicate Valid()
      reads this
    {
      ListOk(list)
    }

    constructor ()
      ensures Valid() && list == []
    {
      list := [];
    }

    /** Nothing is returned when the size overflows; otherwise, unless the process dies (ok is false),
        a block of its own, aligned, with room for its header below. */
    method Allocate(size: nat, al: nat, os: Os) returns (ok: bool, r: Option<nat>)
      requires Valid() && GoodOs(os) && size < WORD && al < 64
      modifies this
      ensures ok ==> Valid() && (r == None <==> TrueMapSize(size, al) >= WORD)
      ensures !ok <==> TrueMapSize(size, al) < WORD && Fails(os, old(list), TrueMapSize(size, al))
      ensures ok && r.None? ==> list == old(list)
      ensures ok && r.Some? ==> |list| == |old(list)| + 1 && list[1..] == old(list)
      ensures ok && r.Some? ==> list[0].user == r.value && list[0].size == size && IsAligned(r.value, al)
      ensures ok && r.Some? ==> os(old(list), TrueMapSize(size, al)) == Some(list[0].map_beg)
      ensures ok && r.Some? ==> list[0].map_size == TrueMapSize(size, al) && r.value == RoundUp(list[0].map_beg + PAGE, al)
    {
      hide RoundUp, RoundUpMapSize, IsAligned, HeaderOk;
      OverflowTest(size, al);
      var map_size := MapSize(size, al);
      if map_size < size {
        return true, None;  // Overflow.
      }
      var mem := os(list, map_size);
      if mem.None? {
        return false, None;
      }
      var map_beg := mem.value;
      var res := map_beg + PAGE;
      Placement(map_beg, size, al);
      AlignUp(res, al);
      RoundedSame(res, al, map_beg);
      if Low(res, al) != 0 {
        res := res + Pow2(al) - Low(res, al);
      }
      HeaderMade(res, map_beg, map_size, size);
      list := [Header(res, map_beg, map_size, size)] + list;
      return true, Some(res);
    }

    /** A block that is mine is given back: its header leaves the list. */
    method Deallocate(p: nat, ghost k: nat)
      requires Valid() && k < |list| && list[k].user == p
      modifies this
      ensures Valid() && list == old(list[..k] + list[k + 1..])
    {
      var i := 0;
      while list[i].user != p
        invariant 0 <= i <= k && list == old(list)
        invariant forall j :: 0 <= j < i ==> list[j].user != p
        decreases k - i
      {
        i := i + 1;
      }
      UserUnique(list, i, k);
      list := list[..i] + list[i + 1..];
    }

    /** PointerIsMine(): the test for a page boundary is only a short cut. */
    method PointerIsMine(p: nat) returns (mine: bool)
      requires Valid()
      ensures mine <==> exists i :: 0 <= i < |list| && list[i].user == p
    {
      Constants();
      ShiftMeaning(p, 12);
      if p % PAGE != 0 {
        return false;
      }
      var i := 0;
      while i < |list|
        invariant 0 <= i <= |list|
        invariant forall j :: 0 <= j < i ==> list[j].user != p
      {
        if list[i].user == p {
          return true;
        }
        i := i + 1;
      }
      return false;
    }

    /** GetBlockBegin(): the block around p, which is the only one. */
    method GetBlockBegin(p: nat) returns (b: Option<nat>)
      requires Valid()
      ensures b == None <==> forall i :: 0 <= i < |list| ==> !(list[i].user <= p < list[i].user + list[i].size)
      ensures forall i :: 0 <= i < |list| && list[i].user <= p < list[i].user + list[i].size ==> b == Some(list[i].user)
    {
      var i := 0;
      while i < |list|
        invariant 0 <= i <= |list|
        invariant forall j :: 0 <= j < i ==> !(list[j].user <= p < list[j].user + list[j].size)
      {
        if list[i].user <= p < list[i].user + list[i].size {
          forall j | 0 <= j < |list| && list[j].user <= p < list[j].user + list[j].size ensures j == i {
            BlocksApart(list, i, j, p);
          }
          return Some(list[i].user);
        }
        i := i + 1;
      }
      return None;
    }
  }

  lemma {:induction false} HeaderMade(user: nat, map_beg: nat, map_size: nat, size: nat)
    requires map_beg + PAGE <= user && user + size <= map_beg + map_size && IsAligned(user, 12)
    ensures HeaderOk(Header(user, map_beg, map_size, size))
  {
  }

  /** With an alignment up to a page, the page boundary will do. */
  lemma {:induction false} RoundedSame(res: nat, al: nat, map_beg: nat)
    requires IsAligned(map_beg, 12) && res == map_beg + PAGE
    ensures al <= 12 ==> RoundUp(res, al) == res
  {
    if al <= 12 {
      Constants();
      AlignedPower(12, 12);
      AlignedSum(map_beg, PAGE, 12);
      AlignedCoarser(res, al, 12 - al);
      AlignedRounds(res, al);
    }
  }

  lemma {:induction false} BlocksApart(list: seq<Header>, i: nat, j: nat, p: nat)
    requires ListOk(list) && i < |list| && j < |list|
    requires list[i].user <= p < list[i].user + list[i].size && list[j].user <= p < list[j].user + list[j].size
    ensures i == j
  {
    assert HeaderOk(list[i]) && HeaderOk(list[j]);
  }

  lemma {:induction false} UserUnique(list: seq<Header>, i: nat, j: nat)
    requires ListOk(list) && i < |list| && j < |list| && list[i].user == list[j].user
    ensures i == j
  {
    assert HeaderOk(list[i]) && HeaderOk(list[j]);
  }
}
