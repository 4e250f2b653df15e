/** lib/asan/asan_mapping.h and lib/asan/asan_poisoning.cc: the shadow memory.

Eight bytes of memory, a granule, have one signed byte of shadow: 0 when all eight may be used, k > 0
when the first k may, negative when none may.  The shadow of a stretch of memory is an array indexed
by granule; where the array lies in the address space is not part of this model. */
module Shadow {
  const GRANULARITY := 8

  /** s8: the shadow bytes are written as u8 and compared as s8. */
  type Byte = x: int | -128 <= x < 128

  const HEAP_LEFT_REDZONE: Byte := 0xfa - 256
  const HEAP_RIGHT_REDZONE: Byte := 0xfb - 256
  const HEAP_FREE: Byte := 0xfd - 256
  const USER_POISONED: Byte := 0xf7 - 256

  /** The address has shadow. */
  predicate InMem(s: seq<Byte>, a: nat) { a / GRANULARITY < |s| }

  /** AddressIsPoisoned(), for the shadow byte v of the granule. */
  predicate Forbidden(v: Byte, a: nat) { v != 0 && a % GRANULARITY >= v }

  predicate Poisoned(s: seq<Byte>, a: nat)
    requires InMem(s, a)
  {
    Forbidden(s[a / GRANULARITY], a)
  }

  predicate Aligned(a: nat) { a % GRANULARITY == 0 }
  function AlignDown(a: nat): nat { a / GRANULARITY * GRANULARITY }

  /** memset over the granules from lo up to hi. */
  method Memset(shadow: array<Byte>, lo: nat, hi: nat, value: Byte)
    requires lo <= hi <= shadow.Length
    modifies shadow
    ensures forall i :: 0 <= i < shadow.Length ==> shadow[i] == if lo <= i < hi then value else old(shadow[i])
  {
    forall i | lo <= i < hi {
      shadow[i] := value;
    }
  }

  /** A byte of [addr, addr + size) is poisoned as value says; the other bytes are as before. */
  ghost predicate Painted(s: seq<Byte>, s': seq<Byte>, addr: nat, size: nat, value: Byte)
  {
    && |s'| == |s|
    && forall a: nat :: InMem(s, a) ==>
         (Poisoned(s', a) <==> if addr <= a < addr + size then Forbidden(value, a) else Poisoned(s, a))
  }

  /** The shadow that PoisonShadow() leaves. */
  function Filled(s: seq<Byte>, addr: nat, size: nat, value: Byte): seq<Byte>
  {
    seq(|s|, k requires 0 <= k < |s| => if addr / GRANULARITY <= k < (addr + size) / GRANULARITY then value else s[k])
  }

  lemma {:induction false} FilledPaints(s: seq<Byte>, addr: nat, size: nat, value: Byte)
    requires Aligned(addr) && Aligned(addr + size) && addr + size <= GRANULARITY * |s|
    ensures Painted(s, Filled(s, addr, size, value), addr, size, value)
  {
  }

  /** lib/asan/asan_poisoning.cc:22-29. */
  method PoisonShadow(shadow: array<Byte>, addr: nat, size: nat, value: Byte)
    requires Aligned(addr) && Aligned(addr + size) && addr + size <= GRANULARITY * shadow.Length
    modifies shadow
    ensures shadow[..] == Filled(old(shadow[..]), addr, size, value)
    ensures Painted(old(shadow[..]), shadow[..], addr, size, value)
  {
    Memset(shadow, addr / GRANULARITY, (addr + size) / GRANULARITY, value);
  }

  /** What the loop writes for the granule at offset i. */
  function PartialByte(i: nat, size: nat, value: Byte): Byte
  {
    if i + GRANULARITY <= size then 0 else if i >= size then value else size - i
  }

  lemma {:induction false} PartialMeaning(addr: nat, size: nat, value: Byte, a: nat)
    requires Aligned(addr) && addr <= a && value < 0
    ensures Forbidden(PartialByte(AlignDown(a) - addr, size, value), a) <==> a >= addr + size
  {
  }

  /** The first size bytes of [addr, addr + redzone) are usable, the rest are not. */
  ghost predicate RedzonePainted(s: seq<Byte>, s': seq<Byte>, addr: nat, size: nat, redzone: nat)
  {
    && |s'| == |s|
    && forall a: nat :: InMem(s, a) ==>
         (Poisoned(s', a) <==> if addr <= a < addr + redzone then a >= addr + size else Poisoned(s, a))
  }

  lemma {:induction false} GranulesPaint(s: seq<Byte>, s': seq<Byte>, addr: nat, size: nat, redzone: nat, value: Byte)
    requires Aligned(addr) && Aligned(redzone) && value < 0 && |s'| == |s|
    requires forall k: nat :: k < |s| ==> (s'[k] ==
      if addr / GRANULARITY <= k < (addr + redzone) / GRANULARITY then PartialByte(k * GRANULARITY - addr, size, value)
      else s[k])
    ensures RedzonePainted(s, s', addr, size, redzone)
  {
    forall a: nat | InMem(s, a)
      ensures Poisoned(s', a) <==> if addr <= a < addr + redzone then a >= addr + size else Poisoned(s, a)
    {
      if addr <= a { PartialMeaning(addr, size, value, a); }
    }
  }

  /** The shadow that PoisonShadowPartialRightRedzone() leaves. */
  function RedzoneFilled(s: seq<Byte>, addr: nat, size: nat, redzone: nat, value: Byte): seq<Byte>
  {
    seq(|s|, k requires 0 <= k < |s| =>
      if addr <= k * GRANULARITY < addr + redzone then PartialByte(k * GRANULARITY - addr, size, value) else s[k])
  }

  lemma {:induction false} RedzoneFilledPaints(s: seq<Byte>, addr: nat, size: nat, redzone: nat, value: Byte)
    requires Aligned(addr) && Aligned(redzone) && addr + redzone <= GRANULARITY * |s| && value < 0
    ensures RedzonePainted(s, RedzoneFilled(s, addr, size, redzone, value), addr, size, redzone)
  {
    GranulesPaint(s, RedzoneFilled(s, addr, size, redzone, value), addr, size, redzone, value);
  }

  /** lib/asan/asan_poisoning.cc:31-47. */
  method PoisonShadowPartialRightRedzone(shadow: array<Byte>, addr: nat, size: nat, redzone: nat, value: Byte)
    requires Aligned(addr) && Aligned(redzone) && addr + redzone <= GRANULARITY * shadow.Length && value < 0
    modifies shadow
    ensures shadow[..] == RedzoneFilled(old(shadow[..]), addr, size, redzone, value)
    ensures RedzonePainted(old(shadow[..]), shadow[..], addr, size, redzone)
  {
    hide RedzonePainted, Forbidden;
    var i, p := 0, addr / GRANULARITY;
    while i < redzone
      invariant 0 <= i <= redzone && Aligned(i) && p == (addr + i) / GRANULARITY
      invariant forall k :: 0 <= k < shadow.Length ==> (shadow[k] ==
        if addr / GRANULARITY <= k < p then PartialByte(k * GRANULARITY - addr, size, value) else old(shadow[k]))
    {
      if i + GRANULARITY <= size {
        shadow[p] := 0;
      } else if i >= size {
        shadow[p] := value;
      } else {
        shadow[p] := size - i;
      }
      i := i + GRANULARITY;
      p := p + 1;
    }
    RedzoneFilledPaints(old(shadow[..]), addr, size, redzone, value);
  }

  // ----- Poisoning by the user

  function Min(x: Byte, y: Byte): Byte { if x < y then x else y }
  function Max(x: Byte, y: Byte): Byte { if x > y then x else y }

  /** Newly poisoned are the bytes of [l, r), the last partial granule only if the byte at r, which
      shares it, is poisoned too. */
  ghost predicate UserPoisons(s: seq<Byte>, s': seq<Byte>, l: nat, r: nat)
    requires InMem(s, r)
  {
    && |s'| == |s|
    && forall a: nat :: InMem(s, a) ==>
         (Poisoned(s', a) <==> Poisoned(s, a) || (l <= a < r && (a < AlignDown(r) || Poisoned(s, r))))
  }

  /** The shadow bytes that tell so: USER_POISONED for granules inside [l, r), and for a granule that has no usable byte
      left; otherwise the number of bytes that still are usable.  Where nothing has changed the byte is the old one. */
  ghost predicate UserPoisonBytes(s: seq<Byte>, s': seq<Byte>, l: nat, r: nat)
  {
    && |s'| == |s|
    && forall k: nat :: k < |s| ==>
         if l <= GRANULARITY * k && GRANULARITY * k + GRANULARITY <= r then s'[k] == USER_POISONED
         else s'[k] == s[k] || (s[k] >= 0 && s'[k] == if Usable(s'[k]) == 0 then USER_POISONED else Usable(s'[k]))
  }

  /** How many bytes of a granule with the shadow byte v may be used: always the first ones. */
  function Usable(v: Byte): Byte { if v < 0 then 0 else if v == 0 || v > GRANULARITY then GRANULARITY else v }

  /** 0 for granules inside [AlignDown(l), r), and the number of usable bytes for the last one. */
  ghost predicate UserUnpoisonBytes(s: seq<Byte>, s': seq<Byte>, l: nat, r: nat)
  {
    && |s'| == |s|
    && forall k: nat :: k < |s| ==>
         if AlignDown(l) <= GRANULARITY * k && GRANULARITY * k + GRANULARITY <= r then s'[k] == 0
         else s'[k] == s[k] || (GRANULARITY * k <= r && 0 < s'[k] == Usable(s'[k]) < GRANULARITY)
  }

  /** Unpoisoned are the bytes up to r from the start of the granule of l. */
  ghost predicate UserUnpoisons(s: seq<Byte>, s': seq<Byte>, l: nat, r: nat)
  {
    && |s'| == |s|
    && forall a: nat :: InMem(s, a) ==>
         (Poisoned(s', a) <==> Poisoned(s, a) && !(AlignDown(l) <= a < r))
  }

  /** The two promises of the interface, for every earlier state of the shadow: at least
      [l, AlignDown(r)) is poisoned and nothing outside [l, r); at most [AlignDown(l), r) is
      unpoisoned and at least [l, r). */
  lemma {:induction false} InterfacePromises(s: seq<Byte>, p: seq<Byte>, u: seq<Byte>, l: nat, r: nat, a: nat)
    requires InMem(s, r) && InMem(s, a) && l < r && UserPoisons(s, p, l, r) && UserUnpoisons(s, u, l, r)
    ensures Poisoned(s, a) ==> Poisoned(p, a)
    ensures l <= a < AlignDown(r) ==> Poisoned(p, a)
    ensures Poisoned(p, a) && !Poisoned(s, a) ==> l <= a < r
    ensures l <= a < r ==> !Poisoned(u, a)
    ensures Poisoned(s, a) && !Poisoned(u, a) ==> AlignDown(l) <= a < r
    ensures Poisoned(u, a) ==> Poisoned(s, a)
  {
  }

  /** Poisoning and unpoisoning the same region leaves everything else as it was. */
  lemma {:induction false} PoisonThenUnpoison(s: seq<Byte>, p: seq<Byte>, u: seq<Byte>, l: nat, r: nat, a: nat)
    requires InMem(s, r) && InMem(s, a) && l < r && UserPoisons(s, p, l, r) && UserUnpoisons(p, u, l, r)
    ensures Poisoned(u, a) <==> Poisoned(s, a) && !(AlignDown(l) <= a < r)
  {
  }

  /** What the branches of __asan_poison_memory_region() write for granule k, of which the old byte is v. */
  function PoisonByte(v: Byte, l: nat, r: nat, k: nat): Byte
  {
    if l / GRANULARITY == r / GRANULARITY == k then
      if 0 < v <= r % GRANULARITY then if l % GRANULARITY > 0 then Min(v, l % GRANULARITY) else USER_POISONED else v
    else if k == l / GRANULARITY && l % GRANULARITY > 0 then
      if v == 0 then l % GRANULARITY else Min(v, l % GRANULARITY)
    else if l / GRANULARITY <= k < r / GRANULARITY then USER_POISONED
    else if k == r / GRANULARITY && l / GRANULARITY < k && 0 < v <= r % GRANULARITY then USER_POISONED
    else v
  }

  lemma {:induction false} PoisonByteMeaning(v: Byte, l: nat, r: nat, k: nat, a: nat)
    requires l < r && a / GRANULARITY == k
    ensures Forbidden(PoisonByte(v, l, r, k), a) <==>
      Forbidden(v, a) || (l <= a < r && (k < r / GRANULARITY || Forbidden(v, r)))
  {
    Offset(a, l);
    Offset(a, r);
  }

  /** Within a granule the order of addresses is that of their offsets. */
  lemma {:induction false} Offset(a: nat, b: nat)
    ensures a / GRANULARITY == b / GRANULARITY ==> (a < b <==> a % GRANULARITY < b % GRANULARITY)
    ensures a / GRANULARITY < b / GRANULARITY ==> a < b
    ensures a < AlignDown(b) <==> a / GRANULARITY < b / GRANULARITY
  {
  }

  lemma {:induction false} PoisonByteShape(v: Byte, l: nat, r: nat, k: nat)
    requires l < r
    ensures var v' := PoisonByte(v, l, r, k);
      if l <= GRANULARITY * k && GRANULARITY * k + GRANULARITY <= r then v' == USER_POISONED
      else v' == v || (v >= 0 && v' == if Usable(v') == 0 then USER_POISONED else Usable(v'))
  {
  }

  lemma {:induction false} PoisonMeaning(s: seq<Byte>, s': seq<Byte>, l: nat, r: nat)
    requires InMem(s, r) && l < r && |s'| == |s|
    requires forall k: nat :: k < |s| ==> s'[k] == PoisonByte(s[k], l, r, k)
    ensures UserPoisons(s, s', l, r) && UserPoisonBytes(s, s', l, r)
  {
    hide PoisonByte, Forbidden, AlignDown, Usable;
    forall a: nat | InMem(s, a)
      ensures Poisoned(s', a) <==> Poisoned(s, a) || (l <= a < r && (a < AlignDown(r) || Poisoned(s, r)))
    {
      Offset(a, r);
      PoisonByteMeaning(s[a / GRANULARITY], l, r, a / GRANULARITY, a);
      if l <= a < r && a / GRANULARITY >= r / GRANULARITY { SameGranule(a, r); }
    }
    forall k: nat | k < |s| { PoisonByteShape(s[k], l, r, k); }
  }

  lemma {:induction false} SameGranule(a: nat, r: nat)
    requires a < r && a / GRANULARITY >= r / GRANULARITY
    ensures a / GRANULARITY == r / GRANULARITY
  {
  }

  /** What the branches of __asan_unpoison_memory_region() write. */
  function UnpoisonByte(v: Byte, l: nat, r: nat, k: nat): Byte
  {
    if l / GRANULARITY == r / GRANULARITY == k then if v != 0 then Max(v, r % GRANULARITY) else v
    else if l / GRANULARITY <= k < r / GRANULARITY then 0
    else if k == r / GRANULARITY && l / GRANULARITY < k && r % GRANULARITY > 0 && v != 0 then Max(v, r % GRANULARITY)
    else v
  }

  lemma {:induction false} UnpoisonByteMeaning(v: Byte, l: nat, r: nat, k: nat, a: nat)
    requires l < r && a / GRANULARITY == k
    ensures Forbidden(UnpoisonByte(v, l, r, k), a) <==> Forbidden(v, a) && !(AlignDown(l) <= a < r)
  {
    Offset(a, l);
    Offset(a, r);
  }

  lemma {:induction false} UnpoisonByteShape(v: Byte, l: nat, r: nat, k: nat)
    requires l < r
    ensures var v' := UnpoisonByte(v, l, r, k);
      if AlignDown(l) <= GRANULARITY * k && GRANULARITY * k + GRANULARITY <= r then v' == 0
      else v' == v || (GRANULARITY * k <= r && 0 < v' == Usable(v') < GRANULARITY)
  {
  }

  lemma {:induction false} UnpoisonMeaning(s: seq<Byte>, s': seq<Byte>, l: nat, r: nat)
    requires InMem(s, r) && l < r && |s'| == |s|
    requires forall k: nat :: k < |s| ==> s'[k] == UnpoisonByte(s[k], l, r, k)
    ensures UserUnpoisons(s, s', l, r) && UserUnpoisonBytes(s, s', l, r)
  {
    hide UnpoisonByte, Forbidden, AlignDown, Usable;
    forall a: nat | InMem(s, a) ensures Poisoned(s', a) <==> Poisoned(s, a) && !(AlignDown(l) <= a < r) {
      UnpoisonByteMeaning(s[a / GRANULARITY], l, r, a / GRANULARITY, a);
    }
    forall k: nat | k < |s| { UnpoisonByteShape(s[k], l, r, k); }
  }

  /** lib/asan/asan_poisoning.cc:77-117. */
  method PoisonMemoryRegion(shadow: array<Byte>, addr: nat, size: nat, allowed: bool)
    requires InMem(shadow[..], addr + size)
    modifies shadow
    ensures if allowed && size > 0 then
        UserPoisons(old(shadow[..]), shadow[..], addr, addr + size) && UserPoisonBytes(old(shadow[..]), shadow[..], addr, addr + size)
      else shadow[..] == old(shadow[..])
  {
    hide UserPoisons, UserPoisonBytes;
    if !allowed || size == 0 {
      return;
    }
    var end := addr + size;
    var beg_chunk, beg_offset := addr / GRANULARITY, addr % GRANULARITY;
    var end_chunk, end_offset := end / GRANULARITY, end % GRANULARITY;
    var beg_value, end_value := shadow[beg_chunk], shadow[end_chunk];
    if beg_chunk == end_chunk {
      assert beg_offset < end_offset;
      // nothing addressable may follow in the granule
      if beg_value > 0 && beg_value <= end_offset {
        shadow[beg_chunk] := if beg_offset > 0 then Min(beg_value, beg_offset) else USER_POISONED;
      }
      PoisonMeaning(old(shadow[..]), shadow[..], addr, end);
      return;
    }
    if beg_offset > 0 {
      shadow[beg_chunk] := if beg_value == 0 then beg_offset else Min(beg_value, beg_offset);
      beg_chunk := beg_chunk + 1;
    }
    Memset(shadow, beg_chunk, end_chunk, USER_POISONED);
    // the last granule only goes whole
    if end_value > 0 && end_value <= end_offset {
      shadow[end_chunk] := USER_POISONED;
    }
    PoisonMeaning(old(shadow[..]), shadow[..], addr, end);
  }

  /** lib/asan/asan_poisoning.cc:119-149. */
  method UnpoisonMemoryRegion(shadow: array<Byte>, addr: nat, size: nat, allowed: bool)
    requires InMem(shadow[..], addr + size)
    modifies shadow
    ensures if allowed && size > 0 then
        UserUnpoisons(old(shadow[..]), shadow[..], addr, addr + size) && UserUnpoisonBytes(old(shadow[..]), shadow[..], addr, addr + size)
      else shadow[..] == old(shadow[..])
  {
    hide UserUnpoisons, UserUnpoisonBytes;
    if !allowed || size == 0 {
      return;
    }
    var end := addr + size;
    var beg_chunk, beg_offset := addr / GRANULARITY, addr % GRANULARITY;
    var end_chunk, end_offset := end / GRANULARITY, end % GRANULARITY;
    var beg_value, end_value := shadow[beg_chunk], shadow[end_chunk];
    if beg_chunk == end_chunk {
      assert beg_offset < end_offset;
      // never shrinks what is addressable
      if beg_value != 0 {
        shadow[beg_chunk] := Max(beg_value, end_offset);
      }
      UnpoisonMeaning(old(shadow[..]), shadow[..], addr, end);
      return;
    }
    if beg_offset > 0 {
      shadow[beg_chunk] := 0;
      beg_chunk := beg_chunk + 1;
    }
    Memset(shadow, beg_chunk, end_chunk, 0);
    if end_offset > 0 && end_value != 0 {
      shadow[end_chunk] := Max(end_value, end_offset);
    }
    UnpoisonMeaning(old(shadow[..]), shadow[..], addr, end);
  }
}
