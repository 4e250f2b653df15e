/** CompressStack() and UncompressStack() of lib/sanitizer_common/sanitizer_stacktrace.cc, for 64-bit words. */
module StackTrace {
  const STACK_TRACE_MAX := 256

  // ----- One frame

  /** `pc && (s64)pc >= 0`. */
  predicate Storable(pc: bv64) { pc != 0 && pc & 0x8000_0000_0000_0000 == 0 }

  // Sums and differences wrap around.
  function Plus(a: bv64, b: bv64): bv64 { a + b }

  function Minus(a: bv64, b: bv64): bv64 { a - b }

  predicate Small(offset: bv64) { offset < 0x3FFF_FFFF }

  predicate Near(prev_pc: bv64, pc: bv64) { Small(Minus(prev_pc, pc)) || Small(Minus(pc, prev_pc)) }

  predicate IsOffset(x: bv32) { x & 0x8000_0000 != 0 }

  /** The low half of `offset | (1U << 31)`. */
  function OffsetWord(offset: bv64): bv32 { ((offset | 0x8000_0000) & 0xFFFF_FFFF) as bv32 }

  function HighWord(pc: bv64): bv32 { (pc >> 32) as bv32 }

  function LowWord(pc: bv64): bv32 { ((pc << 32) >> 32) as bv32 }

  /** `(offset << 1) >> 1` on a signed word, then sign-extended. */
  function WordOffset(x: bv32): bv64 {
    if (x << 1) & 0x8000_0000 != 0 then (((x << 1 >> 1) | 0x8000_0000) as bv64) | 0xFFFF_FFFF_0000_0000
    else (x << 1 >> 1) as bv64
  }

  function Halves(hi: bv32, lo: bv32): bv64 { ((hi as bv64) << 32) | (lo as bv64) }

  lemma {:induction false} UpwardOffset(offset: bv64)
    requires offset & 0xFFFF_FFFF_C000_0000 == 0
    ensures IsOffset(OffsetWord(offset)) && WordOffset(OffsetWord(offset)) == offset
  {
  }

  lemma {:induction false} DownwardOffset(offset: bv64)
    requires offset & 0xFFFF_FFFF_C000_0000 == 0xFFFF_FFFF_C000_0000
    ensures IsOffset(OffsetWord(offset)) && WordOffset(OffsetWord(offset)) == offset
  {
  }

  lemma {:induction false} Upward(offset: bv64)
    requires Small(offset)
    ensures offset & 0xFFFF_FFFF_C000_0000 == 0
  {
  }

  lemma {:induction false} Downward(offset: bv64)
    requires Small(Minus(0, offset)) && !Small(offset)
    ensures offset & 0xFFFF_FFFF_C000_0000 == 0xFFFF_FFFF_C000_0000
  {
  }

  lemma {:induction false} Differences(prev_pc: bv64, pc: bv64)
    ensures Minus(prev_pc, pc) == Minus(0, Minus(pc, prev_pc)) && Plus(prev_pc, Minus(pc, prev_pc)) == pc
  {
  }

  /** An offset word is told apart from a high word, and gives the frame back. */
  lemma {:induction false} OffsetRecovered(prev_pc: bv64, pc: bv64)
    requires Near(prev_pc, pc)
    ensures IsOffset(OffsetWord(Minus(pc, prev_pc)))
    ensures Plus(prev_pc, WordOffset(OffsetWord(Minus(pc, prev_pc)))) == pc
  {
    hide OffsetWord, WordOffset, IsOffset, Plus, Minus, Small;
    Differences(prev_pc, pc);
    var offset := Minus(pc, prev_pc);
    if Small(offset) {
      Upward(offset);
      UpwardOffset(offset);
    } else {
      Downward(offset);
      DownwardOffset(offset);
    }
  }

  lemma {:induction false} HalvesRecovered(pc: bv64)
    requires Storable(pc)
    ensures !IsOffset(HighWord(pc)) && Halves(HighWord(pc), LowWord(pc)) == pc
  {
  }

  predicate AtMost(a: bv64, b: bv64) { a <= b }

  /** How far two addresses are apart. */
  function Distance(a: bv64, b: bv64): bv64 { if AtMost(a, b) then Minus(b, a) else Minus(a, b) }

  /** The sign bit is clear: so it is in frames, and in the zero that the first one is compared with. */
  predicate LowHalf(pc: bv64) { pc & 0x8000_0000_0000_0000 == 0 }

  /** A frame takes one word exactly if it is less than 2^30 - 1 from the one before: no wrapped difference is taken for a
      small one. */
  lemma {:induction false} OneWordExactly(prev_pc: bv64, pc: bv64)
    requires Storable(pc) && (prev_pc == 0 || Storable(prev_pc))
    ensures |Words(prev_pc, pc)| == if Distance(prev_pc, pc) < 0x3FFF_FFFF then 1 else 2
  {
    hide OffsetWord, HighWord, LowWord, Minus, Small, Storable, AtMost, LowHalf;
    InLowHalf(pc);
    InLowHalf(prev_pc);
    SmallIs(Distance(prev_pc, pc));
    EitherWay(prev_pc, pc);
    if AtMost(prev_pc, pc) { NoWrap(prev_pc, pc); } else { NoWrap(pc, prev_pc); }
  }

  lemma {:induction false} InLowHalf(pc: bv64)
    requires pc == 0 || Storable(pc)
    ensures LowHalf(pc)
  {
  }

  lemma {:induction false} EitherWay(a: bv64, b: bv64)
    ensures AtMost(a, b) || AtMost(b, a)
  {
  }

  lemma {:induction false} SmallIs(d: bv64)
    ensures Small(d) <==> d < 0x3FFF_FFFF
  {
  }

  lemma {:induction false} NoWrap(a: bv64, b: bv64)
    requires AtMost(a, b) && LowHalf(b)
    ensures Small(Minus(a, b)) ==> Small(Minus(b, a))
  {
    hide Small, Minus, AtMost, LowHalf;
    Differences(a, b);
    BelowMinuend(a, b);
    if Minus(b, a) != 0 { NegativeLarge(Minus(b, a)); } else { ZeroMinus(); }
  }

  lemma {:induction false} ZeroMinus()
    ensures Minus(0, 0) == 0
  {
  }

  lemma {:induction false} BelowMinuend(a: bv64, b: bv64)
    requires AtMost(a, b) && LowHalf(b)
    ensures LowHalf(Minus(b, a))
  {
  }

  lemma {:induction false} NegativeLarge(d: bv64)
    requires d != 0 && LowHalf(d)
    ensures !Small(Minus(0, d))
  {
  }

  // ----- A whole trace

  function Words(prev_pc: bv64, pc: bv64): (r: seq<bv32>)
    ensures |r| == if Near(prev_pc, pc) then 1 else 2
  {
    if Near(prev_pc, pc) then [OffsetWord(Minus(pc, prev_pc))] else [HighWord(pc), LowWord(pc)]
  }

  function Packed(prev_pc: bv64, frames: seq<bv64>): seq<bv32>
    decreases |frames|
  {
    if frames == [] then [] else Words(prev_pc, frames[0]) + Packed(frames[0], frames[1..])
  }

  function LastOf(prev_pc: bv64, frames: seq<bv64>): bv64 { if frames == [] then prev_pc else frames[|frames| - 1] }

  lemma {:induction false} PackedMore(prev_pc: bv64, frames: seq<bv64>, pc: bv64)
    ensures Packed(prev_pc, frames + [pc]) == Packed(prev_pc, frames) + Words(LastOf(prev_pc, frames), pc)
    decreases |frames|
  {
    hide Words, Near, Packed, LastOf;
    if frames == [] {
      PackedOne(prev_pc, pc);
    } else {
      PackedMore(frames[0], frames[1..], pc);
      PackedFirst(prev_pc, frames);
      PackedFirst(prev_pc, frames + [pc]);
      assert (frames + [pc])[1..] == frames[1..] + [pc];
      assert LastOf(prev_pc, frames) == LastOf(frames[0], frames[1..]) by { LastFirst(prev_pc, frames); }
    }
  }

  lemma {:induction false} PackedOne(prev_pc: bv64, pc: bv64)
    ensures Packed(prev_pc, [] + [pc]) == Packed(prev_pc, []) + Words(LastOf(prev_pc, []), pc)
  {
    hide Words;
    assert [pc][1..] == [] && Packed(pc, []) == [];
    assert [] + [pc] == [pc];
  }

  lemma {:induction false} PackedFirst(prev_pc: bv64, frames: seq<bv64>)
    requires frames != []
    ensures Packed(prev_pc, frames) == Words(prev_pc, frames[0]) + Packed(frames[0], frames[1..])
  {
  }

  lemma {:induction false} LastFirst(prev_pc: bv64, frames: seq<bv64>)
    requires frames != []
    ensures LastOf(prev_pc, frames) == LastOf(frames[0], frames[1..])
  {
  }

  /** What UncompressStack() makes of any words: the frames, and whether no CHECK(pc) has failed. */
  datatype Unpacked = Unpacked(frames: seq<bv64>, ok: bool)

  function Unpack(words: seq<bv32>, prev_pc: bv64, room: nat): (r: Unpacked)
    ensures |r.frames| <= room
    decreases |words|
  {
    if words == [] || room == 0 then Unpacked([], true)
    else if IsOffset(words[0]) then
      var pc := Plus(prev_pc, WordOffset(words[0]));
      if pc == 0 then Unpacked([], false)
      else var rest := Unpack(words[1..], pc, room - 1); Unpacked([pc] + rest.frames, rest.ok)
    else if |words| == 1 then Unpacked([], true)
    else
      var pc := Halves(words[0], words[1]);
      if pc == 0 then Unpacked([], true)
      else var rest := Unpack(words[2..], pc, room - 1); Unpacked([pc] + rest.frames, rest.ok)
  }

  /** Two zero words, or as many as there is room for. */
  predicate Terminated(tail: seq<bv32>) { (|tail| > 0 ==> tail[0] == 0) && (|tail| > 1 ==> tail[1] == 0) }

  predicate AllStorable(frames: seq<bv64>) { forall i :: 0 <= i < |frames| ==> Storable(frames[i]) }

  lemma {:induction false} TailIsEmpty(tail: seq<bv32>, prev_pc: bv64, room: nat)
    requires Terminated(tail)
    ensures Unpack(tail, prev_pc, room) == Unpacked([], true)
  {
    assert !IsOffset(0) && Halves(0, 0) == 0;
  }

  /** The words of a trace give the trace back, whatever follows the terminator. */
  lemma {:induction false} Recovered(prev_pc: bv64, frames: seq<bv64>, tail: seq<bv32>, room: nat)
    requires AllStorable(frames) && Terminated(tail) && |frames| <= room
    ensures Unpack(Packed(prev_pc, frames) + tail, prev_pc, room) == Unpacked(frames, true)
    decreases |frames|
  {
    hide OffsetWord, WordOffset, Halves, HighWord, LowWord, IsOffset, Near, Storable, Plus, Minus;
    hide Words, Unpack, Terminated;
    if frames == [] {
      assert Packed(prev_pc, frames) + tail == tail;
      TailIsEmpty(tail, prev_pc, room);
    } else {
      var pc := frames[0];
      Recovered(pc, frames[1..], tail, room - 1);
      OneRecovered(prev_pc, pc, Packed(pc, frames[1..]) + tail, room);
      assert Packed(prev_pc, frames) + tail == Words(prev_pc, pc) + (Packed(pc, frames[1..]) + tail);
    }
  }

  lemma {:induction false} OneRecovered(prev_pc: bv64, pc: bv64, more: seq<bv32>, room: nat)
    requires Storable(pc) && room > 0
    ensures var rest := Unpack(more, pc, room - 1);
      Unpack(Words(prev_pc, pc) + more, prev_pc, room) == Unpacked([pc] + rest.frames, rest.ok)
  {
    NotNull(pc);
    hide OffsetWord, WordOffset, Halves, HighWord, LowWord, IsOffset, Near, Storable, Plus, Minus;
    var words := Words(prev_pc, pc) + more;
    if Near(prev_pc, pc) {
      OffsetRecovered(prev_pc, pc);
      assert words[1..] == more;
    } else {
      HalvesRecovered(pc);
      assert words[2..] == more;
    }
  }

  lemma {:induction false} NotNull(pc: bv64)
    requires Storable(pc)
    ensures pc != 0
  {
  }

  /** The first k frames can be stored, and their words fit. */
  predicate Fits(trace: seq<bv64>, k: nat, size: nat)
    requires k <= |trace|
  {
    AllStorable(trace[..k]) && |Packed(0, trace[..k])| <= size
  }

  lemma {:induction false} FewerFit(trace: seq<bv64>, k: nat, more: nat, size: nat)
    requires k <= more <= |trace| && Fits(trace, more, size)
    ensures Fits(trace, k, size)
    decreases more - k
  {
    hide Storable, Words;
    if k < more {
      PackedMore(0, trace[..more - 1], trace[more - 1]);
      assert trace[..more - 1] + [trace[more - 1]] == trace[..more];
      assert forall i :: 0 <= i < more - 1 ==> trace[..more - 1][i] == trace[..more][i];
      FewerFit(trace, k, more - 1, size);
    }
  }

  /** Enough words for the frames there are: nothing is lost. */
  lemma {:induction false} TwoEach(prev_pc: bv64, frames: seq<bv64>)
    ensures |frames| <= |Packed(prev_pc, frames)| <= 2 * |frames|
    decreases |frames|
  {
    hide OffsetWord, HighWord, LowWord, Near;
    if frames != [] {
      TwoEach(frames[0], frames[1..]);
    }
  }

  /** One more frame does not fit. */
  predicate Full(trace: seq<bv64>, k: nat, size: nat)
    requires k <= |trace|
  {
    k < |trace| ==> !Fits(trace, k + 1, size)
  }

  lemma {:induction false} Stuck(trace: seq<bv64>, k: nat, size: nat)
    requires k < |trace|
    requires !Storable(trace[k]) || |Packed(0, trace[..k + 1])| > size
    ensures Full(trace, k, size)
  {
    hide Storable, Packed;
    assert trace[..k + 1][k] == trace[k];
  }

  lemma {:induction false} Best(trace: seq<bv64>, res: nat, size: nat)
    requires res <= |trace| && Fits(trace, res, size) && Full(trace, res, size)
    ensures forall k: nat :: k <= |trace| ==> (Fits(trace, k, size) <==> k <= res)
  {
    hide Fits;
    forall k: nat | k <= |trace| ensures Fits(trace, k, size) <==> k <= res {
      if k <= res {
        FewerFit(trace, k, res, size);
      } else if Fits(trace, k, size) {
        FewerFit(trace, res + 1, k, size);
      }
    }
  }

  /** lib/sanitizer_common/sanitizer_stacktrace.cc:145-205.  As many frames are stored as can be, and
      they can be read back whatever the buffer held before. */
  method Compress(trace: seq<bv64>, compressed: array<bv32>, size: nat) returns (res: nat)
    requires |trace| <= STACK_TRACE_MAX && size <= compressed.Length
    modifies compressed
    ensures res <= |trace| && forall k: nat :: k <= |trace| ==> (Fits(trace, k, size) <==> k <= res)
    ensures Unpack(compressed[..size], 0, STACK_TRACE_MAX) == Unpacked(trace[..res], true)
    ensures Packed(0, trace[..res]) <= compressed[..size] && compressed[size..] == old(compressed[size..])
  {
    hide Storable, Words, Unpack, Full;
    var c_index;
    res, c_index := Store(trace, compressed, size);
    if c_index < size {
      compressed[c_index] := 0;
    }
    if c_index + 1 < size {
      compressed[c_index + 1] := 0;
    }
    Best(trace, res, size);
    ghost var tail := compressed[c_index..size];
    Recovered(0, trace[..res], tail, STACK_TRACE_MAX);
    assert compressed[..size] == Packed(0, trace[..res]) + tail;
  }

  /** The loop of CompressStack(). */
  method Store(trace: seq<bv64>, compressed: array<bv32>, size: nat) returns (res: nat, c_index: nat)
    requires size <= compressed.Length
    modifies compressed
    ensures res <= |trace| && c_index <= size && AllStorable(trace[..res]) && Full(trace, res, size)
    ensures compressed[..c_index] == Packed(0, trace[..res]) && compressed[size..] == old(compressed[size..])
  {
    hide Storable, Near, OffsetWord, HighWord, LowWord, Halves, Minus, IsOffset, Full, Packed;
    var prev_pc: bv64 := 0;
    res, c_index := 0, 0;
    NoWords();
    var i := 0;
    while i < |trace|
      invariant res == i <= |trace| && c_index <= size
      invariant prev_pc == LastOf(0, trace[..i]) && AllStorable(trace[..i])
      invariant compressed[..c_index] == Packed(0, trace[..i])
      invariant compressed[size..] == old(compressed[size..])
    {
      var pc := trace[i];
      PackedMore(0, trace[..i], pc);
      assert trace[..i + 1] == trace[..i] + [pc];
      if !Storable(pc) {
        Stuck(trace, i, size);
        return;
      }
      if Near(prev_pc, pc) {
        if c_index >= size {
          Stuck(trace, i, size);
          return;
        }
        compressed[c_index] := OffsetWord(Minus(pc, prev_pc));
        c_index := c_index + 1;
      } else {
        HalvesRecovered(pc);
        assert !IsOffset(HighWord(pc)); // CHECK_EQ((hi & (1 << 31)), 0)
        if c_index + 1 >= size {
          Stuck(trace, i, size);
          return;
        }
        compressed[c_index] := HighWord(pc);
        c_index := c_index + 1;
        compressed[c_index] := LowWord(pc);
        c_index := c_index + 1;
      }
      res := res + 1;
      prev_pc := pc;
      i := i + 1;
    }
    NoMore(trace, size);
  }

  lemma {:induction false} NoWords()
    ensures Packed(0, []) == []
  {
  }

  lemma {:induction false} NoMore(trace: seq<bv64>, size: nat)
    ensures Full(trace, |trace|, size)
  {
  }

  function After(got: seq<bv64>, rest: Unpacked): Unpacked { Unpacked(got + rest.frames, rest.ok) }

  lemma {:induction false} ReadOffset(got: seq<bv64>, words: seq<bv32>, prev_pc: bv64, room: nat)
    requires words != [] && room > 0 && IsOffset(words[0])
    ensures var pc := Plus(prev_pc, WordOffset(words[0]));
      After(got, Unpack(words, prev_pc, room))
      == if pc == 0 then Unpacked(got, false) else After(got + [pc], Unpack(words[1..], pc, room - 1))
  {
    hide IsOffset, Plus, WordOffset, Halves;
    var pc := Plus(prev_pc, WordOffset(words[0]));
    if pc != 0 {
      Assoc(got, pc, Unpack(words[1..], pc, room - 1).frames);
    }
  }

  lemma {:induction false} ReadHalves(got: seq<bv64>, words: seq<bv32>, prev_pc: bv64, room: nat)
    requires |words| > 1 && room > 0 && !IsOffset(words[0])
    ensures var pc := Halves(words[0], words[1]);
      After(got, Unpack(words, prev_pc, room))
      == if pc == 0 then Unpacked(got, true) else After(got + [pc], Unpack(words[2..], pc, room - 1))
  {
    hide IsOffset, Plus, WordOffset, Halves;
    var pc := Halves(words[0], words[1]);
    if pc != 0 {
      Assoc(got, pc, Unpack(words[2..], pc, room - 1).frames);
    }
  }

  lemma {:induction false} ReadNone(got: seq<bv64>, words: seq<bv32>, prev_pc: bv64, room: nat)
    requires words == [] || room == 0 || (|words| == 1 && !IsOffset(words[0]))
    ensures After(got, Unpack(words, prev_pc, room)) == Unpacked(got, true)
  {
  }

  lemma {:induction false} Assoc(a: seq<bv64>, x: bv64, b: seq<bv64>)
    ensures a + ([x] + b) == a + [x] + b
  {
  }

  /** lib/sanitizer_common/sanitizer_stacktrace.cc:208-248; ok when no CHECK fails. */
  method Uncompress(compressed: array<bv32>, size: nat, trace: array<bv64>) returns (ok: bool, stack_size: nat)
    requires size <= compressed.Length && trace.Length == STACK_TRACE_MAX
    modifies trace
    ensures stack_size <= STACK_TRACE_MAX
    ensures Unpacked(trace[..stack_size], ok) == Unpack(compressed[..size], 0, STACK_TRACE_MAX)
    ensures forall k :: stack_size <= k < trace.Length ==> trace[k] == old(trace[k])
  {
    hide WordOffset, Halves, IsOffset, Plus, Unpack, After;
    var prev_pc: bv64 := 0;
    stack_size := 0;
    var i := 0;
    ghost var all := Unpack(compressed[..size], 0, STACK_TRACE_MAX);
    assert compressed[0..size] == compressed[..size];
    AfterNone(all);
    while i < size && stack_size < STACK_TRACE_MAX
      invariant i <= size && stack_size <= STACK_TRACE_MAX
      invariant forall k :: stack_size <= k < trace.Length ==> trace[k] == old(trace[k])
      invariant all == After(trace[..stack_size], Unpack(compressed[i..size], prev_pc, STACK_TRACE_MAX - stack_size))
    {
      var x := compressed[i];
      var pc: bv64 := 0;
      ghost var words, got := compressed[i..size], trace[..stack_size];
      if IsOffset(x) {
        pc := Plus(prev_pc, WordOffset(x));
        ReadOffset(got, words, prev_pc, STACK_TRACE_MAX - stack_size);
        if pc == 0 {
          return false, stack_size;
        }
        assert words[1..] == compressed[i + 1..size];
      } else {
        if i + 1 >= size {
          break;
        }
        pc := Halves(x, compressed[i + 1]);
        ReadHalves(got, words, prev_pc, STACK_TRACE_MAX - stack_size);
        i := i + 1;
        if pc == 0 {
          return true, stack_size;
        }
        assert words[2..] == compressed[i + 1..size];
      }
      trace[stack_size] := pc;
      stack_size := stack_size + 1;
      assert trace[..stack_size] == got + [pc];
      prev_pc := pc;
      i := i + 1;
    }
    ReadNone(trace[..stack_size], compressed[i..size], prev_pc, STACK_TRACE_MAX - stack_size);
    ok := true;
  }

  lemma {:induction false} AfterNone(all: Unpacked)
    ensures all == After([], all)
  {
  }
}
