# Verification of the runtime library

A Dafny model of the parts of this repository whose correctness is hardest to see from the code: the
soft-float and multiword integer routines, the allocators with their shadow memory, and the concurrent and
encoding routines of the sanitizer runtime and of BlocksRuntime. `dafny verify dfyconfig.toml` checks it; add
`--resource-limit 2000000 --verification-time-limit 0` for a bound on the effort per proof that does not depend
on the machine.

**Arithmetic.** `Bits` defines words as natural numbers with their shifts and bitwise operations. `Floats` and
`Ieee` say what a correctly rounded result is: values are counted in units of the smallest subnormal number,
and `Nearest` is roundTiesToEven over exact ratios of integers (IEEE 754-2008, section 4.3.1). `Rounding` proves
once that a sticky bit keeps every rounding decision. `SoftAdd`, `WideWords`, `SoftMul`, `Newton`, `Quotient`,
`SoftDiv`, `Convert`, `Widen` and `IntToFloat` follow the C functions step by step, for any format, and are then
applied to 32 and 64 bits. `ShiftSubtract`, `UdivMod` and `WordDivide` are the integer divisions. Where a C shift
by the word width or more has no defined result, the model takes an arbitrary one.

**Allocators.** `Shadow` is the shadow memory and its poisoning; `AsanSizes`, `AsanChunks`, `AsanLayout`, `AsanPages`
and `AsanState` hold the pieces of the heap's invariant. `AsanRuns` has the runs of the heap, as moves of any number
of calls that may alternate, and what holds in every state of every run; `AsanBytes` says which shadow byte every
granule has; `AsanCases` builds runs that end in a free the allocator does not see for what it is; the class of
`AsanHeap` is the heap, each method being a sequence of moves. `SortArray` and `PageGroups` are the index of page
groups. `SizeClassMap`, `SizeClassState`, `SizeClassRuns`, `SizeClassAllocator`, `LargeAllocator` and
`CombinedAllocator` are the size-class allocator, with runs in the same way. `Partition` says what it means that a
chunk is in one list only, and `IntrusiveList` ties those lists to nodes and pointers.

**Concurrency and encodings.** `StackDepot`, `StackDepotRuns` and `StackDepotProgress`, `BumpAllocator`, `BumpLayouts`
and `BumpProgress`, and `BlockRefs` are machines in which each step is one atomic access by one thread, under
sequential consistency, for any number of threads. `BlockGraph` follows references from block to block: its runs
alternate the pieces of copies and disposals, and its methods are whole calls. `StackTrace`, `Printf` and `Strtoll`
are the trace compressor, the formatter and the number reader.

## What does not hold

Seven things the code or its comments suggest are false; each has a concrete case and the exact condition.

- Division of floats rounds subnormal results wrongly for some operands: exactly those of `Quotient.Misrounds`
  (`SoftDiv.Divsf3`, `SoftDiv.Divdf3`; the case is `SoftDiv.MisroundedHalf`). In terms of the operands alone the true
  quotient is then at a rounding boundary, and when the division of the significands is exact, that is enough
  (`SoftDiv.WrongAtBoundary`).
- `__truncdfsf2` does not turn 2^128 into infinity: the strict comparison at lib/truncdfsf2.c:133 leaves exactly that
  magnitude to the branch for subnormal results, whose shift count is then negative (`Convert.NegativeShift`).
- The lock-free allocator of the stack depot can hand out memory twice, or beyond a superblock. In any run the first
  unsafe step is exactly a compare-and-swap beyond the current region_end (`BumpAllocator.SafeExactly`,
  `BumpAllocator.FirstFailure`). All runs are safe if and only if mmap never puts a superblock right below an older
  one, nor right above an older one while it ends below one mapped in between (`BumpLayouts.SafeExactlyForLayouts`;
  the case is `BumpLayouts.StalePointerReused`).
- Regions of more than 2^32 bytes, which the size-class allocator admits, break `GetBlockBegin` and metadata: the
  metadata of a class is sound if and only if the offset of its last chunk fits 32 bits
  (`SizeClassState.SlotsExactly`, `SizeClassState.BlockBeginExact`); 2049 allocations of two megabytes lead to two
  chunks with one metadata slot (`SizeClassRuns.CollisionReached`).
- A second `free` of a pointer in the ASan heap is not always reported as a double free: `free` writes its stack over the
  CHUNK_MEMALIGN header exactly if the user's memory starts two redzones behind the chunk (`AsanRuns.RepeatedFree`).
  With redzones of up to 1024 bytes that is exactly memalign to twice the redzone, whatever the size and the chunk
  (`AsanRuns.SecondFree`); a run from the start of the process leads there for every such size
  (`AsanCases.SecondFreeReached`; in numbers, `AsanCases.SecondFreeMissed`).
- A pointer that memalign returned long ago can be accepted by `free` when its chunk is in use again: exactly if its
  header is not in the new user's memory (`AsanRuns.StaleHeader`). A run leads there for every quarantine_size that fits
  an int (`AsanCases.StaleReached`; in numbers, `AsanCases.StaleFree`). The shadow is right after a free if and only if
  the pointer is the user's own (`AsanRuns.FreeExactly`).
- `append_back` of an empty list to one that is not empty loses its last pointer, and it is the only case that
  does (`IntrusiveList.IntrusiveList.AppendBack`).

`__extendsfdf2` copies the quiet bit of a NaN as it is, so a signalling NaN stays one. `FindPageGroup` finds a group
only for addresses not above its record, which lies behind its last chunk (`PageGroups.ScanMeaning` states it).

## Model

| member | source | states |
|---|---|---|
| `SoftAdd.Addsf3` | lib/addsf3.c:45-174 | for all 32-bit words: the roundTiesToEven encoding of the exact sum (IEEE 754-2008, sections 4.3.1 and 5.4.1), subnormals and overflow included; a zero sum has the sign of section 6.3; inf + -inf and NaN operands give a quiet NaN |
| `SoftAdd.Adddf3` | lib/adddf3.c:49-178 | the same for 64-bit words |
| `SoftAdd.Add` | lib/addsf3.c:45-174 | the same for every format, in the order of steps of the source: special cases, swap, align, add or subtract, renormalise, round |
| `SoftAdd.AddSpecial` | lib/addsf3.c:51-77 | when an operand is zero, infinite or NaN the early return is the sum the standard asks for, signs of zero included |
| `SoftAdd.AddOrdered` | lib/addsf3.c:80-173 | for finite non-zero operands, the larger first: nearest magnitude, sign of the larger, +0 for exact cancellation |
| `SoftAdd.Align` | lib/addsf3.c:87-118 | both significands with three guard bits stand for the exact operands, up to one sticky bit that appears only when the alignment is large enough |
| `SoftAdd.AddSignificands` | lib/addsf3.c:135-145 | after the carry has been shifted out with sticky, packing still gives the nearest encoding of the exact sum |
| `SoftAdd.SubtractSignificands` | lib/addsf3.c:120-133 | three guard bits and sticky are enough under cancellation: after renormalisation packing gives the nearest encoding of the exact difference |
| `SoftAdd.PackRound` | lib/addsf3.c:148-173 | overflow, the subnormal shift with sticky and the final increments give the sign asked for and the rounded magnitude |
| `SoftAdd.SumUnique` | lib/fp_lib.h:92-107 | the specification of a sum is met by one word only, so the contracts above leave no choice for non-NaN operands |
| `SoftAdd.SumCommutes` | lib/addsf3.c:80-84 | the specification is symmetric: swapping the operands changes nothing |
| `Rounding.RoundSticky` | lib/addsf3.c:160-172 | a significand that is exact up to its sticky bit rounds, with the ties-to-even test on the discarded bits, to the nearest encoding of the exact value; used by add, multiply, narrowing and conversion |
| `Rounding.StickyShift` | lib/addsf3.c:113-114 | one more right shift with sticky keeps what the sticky bit says about the exact value |
| `Rounding.StickySub` | lib/addsf3.c:121 | subtracting an operand with a sticky bit leaves a sticky difference |
| `Floats.NearestUnique` | lib/fp_lib.h:92-107 | at most one encoding is the roundTiesToEven encoding of a given ratio of integers |
| `Floats.NearestInf` | lib/fp_lib.h:102 | infinity is the nearest encoding of every magnitude of 2^(emax+1) and more |
| `Floats.ValMono` | lib/fp_lib.h:92-107 | the order of encodings is the order of the values they stand for |
| `SoftFloat.Normalize` | lib/fp_lib.h:117-121 | the subnormal significand is shifted up to the implicit bit, and the exponent returned undoes the shift |
| `SoftFloat.Extract` | lib/addsf3.c:87-94 | significand and exponent of any finite non-zero number stand for its value, subnormals included |
| `SoftFloat.RightShiftSticky` | lib/addsf3.c:113-114 | the shift with sticky is right for counts within the word; for other counts, where C leaves the shift open, so does the contract |
| `SoftFloat.QuietNaN` | lib/addsf3.c:54-56 | or-ing the quiet bit into a NaN gives a quiet NaN |
| `WideWords.WideMultiply` | lib/fp_lib.h:43-86 | the two words are the exact product, for both implementations |
| `WideWords.WideMultiplyHalves` | lib/fp_lib.h:74-86 | the four partial products and their carries add up to the exact double-width product |
| `WideWords.WideLeftShift` | lib/fp_lib.h:123-126 | the pair of words is shifted left, when nothing is lost at the top |
| `WideWords.WideRightShiftWithSticky` | lib/fp_lib.h:128-143 | the pair of words is shifted right with sticky for every count but the full word width, where C leaves one shift open and both outcomes are allowed |
| `SoftMul.Mulsf3` | lib/mulsf3.c:46-135 | for all 32-bit words: the roundTiesToEven encoding of the exact product, subnormal results, carry into the exponent and overflow included, with the sign the standard asks for; 0 * inf and NaN operands give a quiet NaN |
| `SoftMul.Muldf3` | lib/muldf3.c:48-147 | the same for 64-bit words, with the early return for results that underflow to zero |
| `SoftMul.Mul` | lib/mulsf3.c:46-135 | the same for every format of even width, with and without the early return |
| `SoftMul.MulSpecial` | lib/mulsf3.c:55-83 | the early returns for NaN, infinity and zero are the products the standard asks for, and otherwise both operands are finite and not zero |
| `SoftMul.Multiply` | lib/mulsf3.c:102-110 | after the product has been normalised its two words and its exponent stand for the exact product of the operands' values |
| `SoftMul.RoundProduct` | lib/mulsf3.c:113-134 | infinity, the subnormal shift, the insertion of the exponent and the rounding give the packed product, whatever the open shift yields when the count is the word width |
| `SoftMul.ProductUnique` | lib/mulsf3.c:46-135 | the specification of a product is met by one word only, and does not depend on the order of the operands |
| `Newton.Step` | lib/divsf3.c:112-113 | one truncated Newton-Raphson step squares the error bound and never lifts the product of reciprocal and b more than one unit above one |
| `Newton.Reciprocal32` | lib/divsf3.c:101-117 | after three steps, for every b, reciprocal times b is within proved bounds of one; the word wraps to zero exactly for b = 1, and the bounds follow it through |
| `Newton.WideStep` | lib/divdf3.c:131-134 | the 64-bit step from the 32-bit reciprocal, its partial products truncated one by one, is within proved bounds of 1/b |
| `SoftDiv.Reciprocal64` | lib/divdf3.c:103-141 | the reciprocal is strictly below 1/b and within the bound, for every significand |
| `SoftDiv.QuotientSingle` | lib/divsf3.c:101-161 | quotient and residual satisfy a * 2^k == quotient * b + residual with 0 < residual < 1.5 b, computed in words that wrap around: the truncated quotient is at most one unit low |
| `SoftDiv.QuotientDouble` | lib/divdf3.c:103-178 | the same with one 64-bit step and the wide product |
| `Quotient.NormalQuotient` | lib/divsf3.c:195-201 | with such a quotient and residual, the residual test gives the nearest encoding of the exact quotient (a tie cannot happen) |
| `Quotient.OverflowQuotient` | lib/divsf3.c:165-168 | and infinity is nearest when the exponent is too large |
| `Quotient.SubnormalQuotient` | lib/divsf3.c:170-192 | the rounded quotient a subnormal result should have |
| `Quotient.MisroundsExactly` | lib/divsf3.c:182-188 | the code, which shifts the quotient and rounds by the word of bits shifted out, gives that quotient if and only if not Misrounds: the truncated quotient was one too low (residual at least b), its discarded bits are one short of one half, and the residual is above b or the shifted quotient is odd |
| `Quotient.MisroundsAtBoundary` | lib/divsf3.c:182-188 | a quotient is misrounded exactly when it was computed one too small and the true quotient of the operands is at a rounding boundary: its discarded bits are one half, and it is not a tie that goes down anyway |
| `Quotient.ExactQuotients` | lib/divsf3.c:182-188 | an exact quotient is always computed one too small, so there the operands alone decide |
| `SoftDiv.DivSpecial` | lib/divsf3.c:54-81 | the early returns for NaN, infinity and zero are the quotients the standard asks for |
| `SoftDiv.DivTail` | lib/divsf3.c:163-204 | what the three branches by written exponent return, for any quotient at most one unit low |
| `SoftDiv.Divsf3` | lib/divsf3.c:45-204 | for all 32-bit words: special operands as the standard asks; otherwise the returned word is the roundTiesToEven quotient if and only if it is not a subnormal result that Misrounds describes, where Misrounds speaks of the quotient the routine computes, given as a function of the operands |
| `SoftDiv.Divdf3` | lib/divdf3.c:49-222 | the same for 64-bit words |
| `SoftDiv.WrongAtBoundary` | lib/divsf3.c:163-192 | a wrong result is subnormal and its true quotient at a rounding boundary, both told from the significands and exponents of the operands; if the division is exact, the result is wrong if and only if so |
| `SoftDiv.MisroundedHalf` | lib/divsf3.c:170-192 | a concrete case: 0x00800003 / 2 comes out as 0x00400001, one unit too low |
| `Convert.Truncdfsf2` | lib/truncdfsf2.c:70-167 | the roundTiesToEven float of every non-NaN double but +-2^128, subnormal results and overflow included; NaN gives a quiet NaN; the result at +-2^128 is left open |
| `Convert.Truncate` | lib/truncdfsf2.c:101-166 | the same between any two formats with room between them; one unsigned comparison decides the range |
| `Convert.NegativeShift` | lib/truncdfsf2.c:133-146 | the last branch gets a negative shift count for exactly one magnitude, the least power of two that overflows (2^128 for floats), whose nearest encoding is infinity |
| `Convert.TruncateSubnormal` | lib/truncdfsf2.c:138-161 | the subnormal branch rounds to nearest from the significand shifted with sticky |
| `Widen.Extendsfdf2` | lib/extendsfdf2.c:71-136 | the double has exactly the value of the float, subnormals normalised; infinities and NaN stay what they are |
| `Widen.Extend` | lib/extendsfdf2.c:95-136 | the same between any two formats |
| `Widen.WidenThenNarrow` | lib/truncdfsf2.c:70-167 | narrowing what has been widened gives the word back |
| `Widen.RoundTrip` | lib/extendsfdf2.c:71-136 | the two functions run one after the other: identity on every non-NaN float; +-2^128 never arises |
| `IntToFloat.Floatdisf` | lib/floatdisf.c:28-80 | the roundTiesToEven float of every signed 64-bit integer |
| `IntToFloat.Floatundisf` | lib/floatundisf.c:28-77 | the same for every unsigned 64-bit integer |
| `IntToFloat.RoundInteger` | lib/floatdisf.c:35-74 | the P/Q/R trick: or P into R, add one, drop two bits and shift once more on carry gives the nearest significand and exponent |
| `IntToFloat.ConversionMonotone` | lib/floatdisf.c:28-80 | a larger integer never converts to a smaller encoding |
| `UdivMod.Udivmoddi4` | lib/udivmoddi4.c:24-251 | quotient and remainder of every 64-bit dividend by every non-zero divisor |
| `UdivMod.Udivmodti4` | lib/udivmodti4.c:29-256 | the same for 128 bits |
| `UdivMod.UdivMod` | lib/udivmoddi4.c:24-251 | the same for words of any width, every special case included |
| `UdivMod.SetUpMasked` | lib/udivmoddi4.c:169-182 | the branch-free masks leave q = n << (2w - sr) and r = n >> sr, whatever the shifts by too large a count yield |
| `UdivMod.SetUpHigh` | lib/udivmoddi4.c:201-219 | the same for the branch with a two-word divisor |
| `UdivMod.SetUpLow` | lib/udivmoddi4.c:113-117 | the same for a divisor whose low word is zero |
| `UdivMod.Loop` | lib/udivmoddi4.c:228-250 | from that set-up the shift-subtract loop gives quotient and remainder |
| `UdivMod.HighPowerDivisor` | lib/udivmoddi4.c:88-97 | a power of two in the high word: the shift and the mask are the quotient and the remainder |
| `ShiftSubtract.Subtract` | lib/udivmoddi4.c:243-245 | the sign of d - r - 1 decides r >= d in every turn although the difference wraps around |
| `ShiftSubtract.Start` | lib/udivmoddi4.c:222-227 | the invariant of the loop holds when it starts |
| `ShiftSubtract.Turn` | lib/udivmoddi4.c:229-246 | one turn keeps the invariant: r stays below 2d and within the word before the subtraction |
| `WordDivide.Udivsi3` | lib/udivsi3.c:25-66 | n / d for every n and d, 0 for d = 0 |
| `WordDivide.PatmosUdivsi3` | lib/patmos/udivsi3.c:26-57 | the bit-serial loop gives n / d for every n and d > 0, so it agrees with the normalised loop; all ones for d = 0 |
| `WordDivide.Udivmodsi4` | lib/patmos/udivmodsi4.c:22-58 | and the remainder; n for d = 0 |
| `WordDivide.SerialStep` | lib/patmos/udivmodsi4.c:30-39 | one turn of the bit-serial loop: doubling the remainder loses no bit, and the next bit of the quotient is set exactly when the remainder reaches d |
| `StackDepotRuns.PutsAgree` | lib/sanitizer_common/sanitizer_stackdepot.cc:137-171 | in every state of every interleaving, two completed Puts returned the same id if and only if they were given the same stack; only the empty stack gets 0; bit 31 is clear |
| `StackDepotRuns.GetsAgree` | lib/sanitizer_common/sanitizer_stackdepot.cc:173-194 | a Get that began after a Put returned its id finds exactly that stack, and a Get never returns another stack than the one its id was given for |
| `StackDepotRuns.MutualExclusion` | lib/sanitizer_common/sanitizer_stackdepot.cc:117-135 | in every state of every run the low bit of a bucket's word is set if and only if some thread is between lock() and unlock() of that bucket, and then it is one thread only |
| `StackDepotProgress.CallsEnd` | lib/sanitizer_common/sanitizer_stackdepot.cc:117-194 | from every state of every run: a thread in the middle of a Put or Get, left alone while no other thread has its bucket locked, returns from that call, or dies exactly because the part has given out all its ids |
| `StackDepotRuns.ReadsPublished` | lib/sanitizer_common/sanitizer_stackdepot.cc:101-115 | the searches and scans that hold no lock only ever look at nodes that are completely written and in the right list |
| `StackDepotRuns.CountersBounded` | lib/sanitizer_common/sanitizer_stackdepot.cc:157-159 | the id counter of a part is ahead of CHECK_LT by less than the number of its buckets, so it does not wrap around |
| `StackDepotRuns.NextInv` | lib/sanitizer_common/sanitizer_stackdepot.cc:137-194 | every step of every thread keeps the invariant of the table, the threads, the counters and the log |
| `StackDepotRuns.InitInv` | lib/sanitizer_common/sanitizer_stackdepot.cc:37-43 | the zeroed table satisfies it |
| `StackDepot.KeepPublish` | lib/sanitizer_common/sanitizer_stackdepot.cc:164-170 | the store that unlocks the bucket, and it does unlock it, makes the filled node visible at the head of its list, and breaks nothing for any other thread |
| `StackDepot.KeepCas` | lib/sanitizer_common/sanitizer_stackdepot.cc:117-130 | winning the compare-and-swap: if the head has not moved since the first search, the stack is still absent |
| `StackDepot.DrawFresh` | lib/sanitizer_common/sanitizer_stackdepot.cc:157-162 | a number drawn from the counter of a part makes an id that no stack has |
| `StackDepot.IdBits` | lib/sanitizer_common/sanitizer_stackdepot.cc:160-162 | the CHECKs on a new id hold, and the part can be read back from its high bits |
| `BumpLayouts.SafeExactlyForLayouts` | lib/sanitizer_common/sanitizer_stackdepot.cc:65-99 | for superblocks mapped anywhere in any order: every interleaving of lock-free and locked allocation, through any part of the layout, returns pairwise disjoint ranges inside one superblock if and only if no superblock lies right below an older one, nor right above an older one while ending below one mapped in between |
| `BumpAllocator.SafeExactly` | lib/sanitizer_common/sanitizer_stackdepot.cc:72-75 | from a sound state the compare-and-swap returns a sound range if and only if the new position is not beyond the current region_end |
| `BumpAllocator.FirstFailure` | lib/sanitizer_common/sanitizer_stackdepot.cc:65-99 | in every run, for every layout of superblocks, the first step that breaks safety is exactly a compare-and-swap beyond region_end |
| `BumpLayouts.BelowReused` | lib/sanitizer_common/sanitizer_stackdepot.cc:65-99 | a run for every layout of the first kind: a stale pair of reads hands out the start of the older superblock again |
| `BumpLayouts.ShortOverrun` | lib/sanitizer_common/sanitizer_stackdepot.cc:65-99 | a run for every layout of the second kind: an old pointer checked against a newer end hands out memory beyond the newest superblock |
| `BumpLayouts.StalePointerReused` | lib/sanitizer_common/sanitizer_stackdepot.cc:65-99 | the first kind with two superblocks of 64 KB |
| `BumpLayouts.SafeRuns` | lib/sanitizer_common/sanitizer_stackdepot.cc:65-99 | with a safe layout every state of every run satisfies the invariant: whatever a thread has loaded, its pointer was loaded no later than its end, and passed the check against that |
| `BumpLayouts.GappedIsSafe` | lib/sanitizer_common/sanitizer_stackdepot.cc:90 | layouts with a gap between any two superblocks are safe |
| `BumpAllocator.StepInv` | lib/sanitizer_common/sanitizer_stackdepot.cc:65-99 | every step keeps the invariant, unless it is that compare-and-swap |
| `BumpProgress.NothingWasted` | lib/sanitizer_common/sanitizer_stackdepot.cc:65-99 | in every state of every run, safe or not, every range given out starts at a superblock or at the end of an earlier range, and so does what is left; region_end is the end of a superblock |
| `BumpProgress.CallEnds` | lib/sanitizer_common/sanitizer_stackdepot.cc:65-99 | from any state: a call that no other thread keeps from the mutex, left alone, ends within 17 steps with a range of exactly the size asked for, and the mutex free |
| `AsanRuns.ByteExact` | lib/asan/asan_allocator.cc:592-733 | in every state of every run a byte of a mapped heap page is poisoned if and only if it is outside [Beg, Beg + used_size) of every allocated chunk, memalign chunks included; no byte is in two |
| `AsanBytes.ExactBytes` | lib/asan/asan_allocator.cc:505-733 | in every state of every run, the shadow byte of every granule of the heap's pages: HEAP_FREE in the rounded memory of a quarantined chunk, zero and used % 8 in the user's memory of an allocated one, HEAP_RIGHT_REDZONE behind it up to the rounded size, HEAP_LEFT_REDZONE everywhere else, available chunks and unused pages included |
| `AsanBytes.FreedTold` | lib/asan/asan_allocator.cc:713 | a byte has the shadow HEAP_FREE if and only if it is in memory that was given back and is still in quarantine |
| `AsanRuns.OnePlaceEach` | lib/asan/asan_allocator.cc:316-580 | in every state of every run every chunk ever carved is in at most one of the lists, and once, in none exactly when it is allocated, and its state matches the list |
| `AsanRuns.PointerRoundTrip` | lib/asan/asan_allocator.cc:247-253 | in every state of every run PtrToChunk finds the chunk from the pointer the user was given, through a CHUNK_MEMALIGN header if there is one, and Deallocate accepts it |
| `AsanRuns.StateSound` | lib/asan/asan_allocator.cc:316-733 | every state that any sequence of moves from the empty heap leads to satisfies the invariant of lists, queues, chunks, page groups, headers and shadow |
| `AsanRuns.FirstInFirstOut` | lib/asan/asan_allocator.cc:255-303 | over every run each quarantine is a queue: what has left it, followed by what is in it, is what has joined it, in order |
| `AsanRuns.EvictedFirst` | lib/asan/asan_allocator.cc:339-349 | between a free and any other use of the chunk there is a moment when it is the oldest in the global quarantine and that holds more than quarantine_size bytes |
| `AsanRuns.HeldUntilFreed` | lib/asan/asan_allocator.cc:592-733 | what the user holds is not handed out, moved or changed before he frees it |
| `AsanRuns.GroupFound` | lib/asan/asan_allocator.cc:423-451 | in every state of every run, for every byte of every chunk the scan of the page groups finds the group the chunk was carved from, and no other chunk has the byte |
| `AsanRuns.RepeatedFree` | lib/asan/asan_allocator.cc:683-704 | in every state of every run a second free of a quarantined chunk is surely reported as a double free if and only if the user's memory did not start two redzones behind the chunk |
| `AsanRuns.SecondFree` | lib/asan/asan_allocator.cc:646-713 | the same in terms of the request: not if the alignment is larger than the redzone and the address two redzones behind the chunk has it; with redzones of up to 1024 bytes the address does not matter: not exactly if the alignment is twice the redzone |
| `AsanCases.SecondFreeReached` | lib/asan/asan_allocator.cc:592-733 | for every redzone from 32 to 1024 bytes, every size and every address that mmap may return: a run from the start of the process (pages, memalign to twice the redzone, free) after which freeing the pointer again is taken for a free of memory never allocated, if the free stack reads so |
| `AsanCases.SecondFreeMissed` | lib/asan/asan_allocator.cc:712-713 | the case in numbers: memalign(64, 64) with redzones of 32 gets 4197952 in the chunk of 256 bytes at 4197888 |
| `AsanRuns.StaleHeader` | lib/asan/asan_allocator.cc:654-680 | when a chunk is handed out again, a header of an earlier memalign in it still leads to it exactly if it is not in the new user's memory |
| `AsanRuns.StaleAccepted` | lib/asan/asan_allocator.cc:692-704 | and then the old pointer is taken for that of the new user |
| `AsanCases.StaleReached` | lib/asan/asan_allocator.cc:592-733 | for any two requests for chunks of one class of less than two gigabytes, the second of which leaves the header of the first alone, and every quarantine_size that fits an int: a run (pages, memalign, two gigabytes more, both freed and flushed out of the quarantines, memalign again) from the first user to the second, after which the first pointer is accepted for the second user's chunk |
| `AsanCases.StaleFree` | lib/asan/asan_allocator.cc:692-704 | the case in numbers: memalign(128, 128), and later memalign(256, 128), in the chunk of 512 bytes at 4197376 |
| `AsanRuns.FreeExactly` | lib/asan/asan_allocator.cc:714-715 | after a free through a pointer that leads to a chunk in use the shadow is right if and only if it is the user's own pointer |
| `AsanHeap.Heap.constructor` | lib/asan/asan_allocator.cc:316-318 | the empty heap is the start of a run |
| `AsanHeap.Heap.Allocate` | lib/asan/asan_allocator.cc:592-681 | leads from states of runs to states of runs; fails as too big exactly by the size test, out of memory only when the lists the request is served from have run out and mmap refuses the next mapping, and dies exactly if the address has to be moved for an alignment of 2^31 or more; otherwise an available chunk of the least sufficient class becomes the user's at the place that alignment and redzone call for, and no other chunk changes. A known thread's request for a small chunk takes the front of the thread's list; if that is empty it gets kMaxSizeForThreadLocalFreeList / size chunks from the front of the global list first, the last one in front; all others take the front of the global list; new mappings are made only when the global list has run out; no other list changes (`Served`) |
| `AsanHeap.Heap.HandOut` | lib/asan/asan_allocator.cc:646-680 | the front chunk of a list becomes allocated, the shadow becomes exactly what the painting of the memory and its partial redzone makes of it, and the memalign header is written where PtrToChunk looks, those in the user's memory being lost |
| `AsanHeap.Heap.GetNewChunks` | lib/asan/asan_allocator.cc:530-571 | fresh pages are poisoned and filled with available chunks: which chunks, in which order, and the PageGroup follow from the address that mmap returns and the class; the chunks there were stay as they are; fails exactly if mmap does, and then nothing has changed |
| `AsanHeap.Heap.AllocateChunks` | lib/asan/asan_allocator.cc:320-337 | as many chunks of the class as asked for, from the front of the global list, last one first; new pages are carved each time that list has run out, and only then; no other list changes |
| `AsanHeap.Heap.Restock` | lib/asan/asan_allocator.cc:637-642 | an empty thread list gets chunks of its class in the same way |
| `AsanHeap.Heap.Deallocate` | lib/asan/asan_allocator.cc:683-733 | for every pointer: classifies null, double, stray and misplaced frees by the headers that are known to be intact, and null, double and stray ones change nothing; keeps to runs unless the free is misplaced; the user's own pointer sends exactly that chunk to the end of the quarantine of its thread, or of the global one if there is no thread; if the thread's is over a megabyte all of it goes behind the global one, whose oldest chunks are then evicted; no other list or chunk changes, and only headers under its free stack are forgotten (`Filed`) |
| `AsanHeap.Heap.Retire` | lib/asan/asan_allocator.cc:712-725 | the shadow of the chunk's rounded memory becomes HEAP_FREE and no other byte changes, the chunk is queued last, and headers under its free stack are forgotten |
| `AsanHeap.Heap.QuarantinePop` | lib/asan/asan_allocator.cc:505-519 | the whole of the oldest chunk of the global quarantine gets the shadow HEAP_LEFT_REDZONE and no other byte changes; the chunk goes to the front of the global free list of its class, and no other list changes; done while the quarantine is over its limit this is a move of a run |
| `AsanHeap.Heap.Shrink` | lib/asan/asan_allocator.cc:346-348 | what remains of the queue is its longest suffix within quarantine_size bytes; what has left it is available, and lies in front of the global free lists of its classes, the last one first; nothing else changes |
| `AsanHeap.Heap.SwallowQuarantine` | lib/asan/asan_allocator.cc:339-349 | the thread's queue goes behind the global one, which is then shrunk as above; if the thread has none nothing changes |
| `AsanHeap.Heap.SwallowFreeLists` | lib/asan/asan_allocator.cc:350-362 | the thread's free lists end up empty, their chunks in front of the global lists of their classes, last chunk first; no other list changes |
| `AsanHeap.Heap.CommitBack` | lib/asan/asan_allocator.cc:584-586 | a thread that ends leaves nothing in its lists: its quarantine goes first, as above, and then its free lists; nothing of another thread changes |
| `AsanChunks.EvictionOrder` | lib/asan/asan_allocator.cc:339-348 | a chunk leaves quarantine only as the oldest, while the queue from it onward exceeds the limit, and the queue ends within it |
| `AsanState.HandoutSound` | lib/asan/asan_allocator.cc:646-680 | handing out a chunk leads from sound states to sound states |
| `AsanState.FreeSound` | lib/asan/asan_allocator.cc:695-725 | so does freeing one, with the header under the free stack gone |
| `AsanState.EvictSound` | lib/asan/asan_allocator.cc:505-519 | so does popping the quarantine, whose CHECKs hold |
| `AsanState.CarveSound` | lib/asan/asan_allocator.cc:530-571 | so does carving fresh pages, wherever mmap may put them |
| `AsanPages.PagesCarved` | lib/asan/asan_allocator.cc:553-567 | the chunks lie side by side below the record, each once in the list, aligned to the redzone and to their size as far as pages are |
| `AsanPages.MapNumbers` | lib/asan/asan_allocator.cc:531-544 | a whole number of chunks and the spare room, which the record fits in, fill a whole number of pages, for every size class |
| `AsanState.HeaderOfLive` | lib/asan/asan_allocator.cc:665-667 | CHECK(m == PtrToChunk(addr)) and CHECK(m->Beg() == addr) hold for every allocated chunk |
| `AsanLayout.AllocatePaints` | lib/asan/asan_allocator.cc:672-676 | the two calls that set the shadow leave exactly the user's bytes unpoisoned |
| `AsanSizes.LeastClass` | lib/asan/asan_allocator.cc:108-120 | SizeToSizeClass gives the least class that is large enough |
| `AsanSizes.PowerLeast` | lib/asan/asan_allocator.cc:82-97 | RoundUpToPowerOfTwo gives the least power of two that is large enough |
| `AsanSizes.BegIsPlaced` | lib/asan/asan_allocator.cc:654-667 | Beg() finds the address that Allocate() computed, from the alignment it recorded |
| `AsanSizes.ClassAligned` | lib/asan/asan_allocator.cc:613-615 | chunk sizes are multiples of the redzone |
| `AsanHeap.MmapSize` | lib/asan/asan_allocator.cc:531-544 | the number of chunks and of bytes, for every size class; the CHECKs on them hold |
| `Shadow.PoisonShadow` | lib/asan/asan_poisoning.cc:22-29 | exactly the bytes of the range become poisoned as the value says |
| `Shadow.PoisonShadowPartialRightRedzone` | lib/asan/asan_poisoning.cc:31-47 | of the redzone exactly the first size bytes stay addressable; nothing outside it changes |
| `Shadow.PoisonMemoryRegion` | lib/asan/asan_poisoning.cc:77-117 | byte by byte, for every prior shadow, exactly which bytes are poisoned afterwards; and granule by granule the value that is written |
| `Shadow.UnpoisonMemoryRegion` | lib/asan/asan_poisoning.cc:119-149 | byte by byte, for every prior shadow, exactly which bytes are unpoisoned afterwards; and granule by granule the value that is written |
| `Shadow.InterfacePromises` | lib/asan/asan_poisoning.cc:67-76 | poisoning covers [l, AlignDown(r)), never unpoisons and touches only [l, r); unpoisoning clears all of [l, r) and changes only bytes of [AlignDown(l), r) |
| `Shadow.PoisonThenUnpoison` | lib/asan/asan_poisoning.cc:77-149 | poisoning a region and unpoisoning it leaves it unpoisoned from AlignDown(l) on, and every other byte as it was |
| `PageGroups.PageGroupIndex.FindPageGroup` | lib/asan/asan_allocator.cc:423-451 | after any sequence of appends, sorting on demand and binary search return what a linear scan returns |
| `PageGroups.PageGroupIndex.Add` | lib/asan/asan_allocator.cc:561-570 | the record is appended behind the sorted part, for any group whose pages meet no earlier ones |
| `PageGroups.ScanMeaning` | lib/asan/asan_allocator.cc:311-313 | the scan finds a group if and only if one has the address in range and its record not below the address |
| `PageGroups.ScanUnique` | lib/asan/asan_allocator.cc:423-451 | and it is the only such group |
| `PageGroups.SearchFinds` | lib/asan/asan_allocator.cc:431-450 | the first sorted record not below the address belongs to the only group that can contain it |
| `PageGroups.HeapGroups` | lib/asan/asan_allocator.cc:552-563 | the page groups of a sound heap meet the requirements of the index: every record in its own pages, no two at one address |
| `SortArray.SortArray` | lib/sanitizer_common/sanitizer_common.cc:115-148 | the first size elements are sorted in place, a permutation of what they were, and the rest is unchanged |
| `SortArray.BuildHeap` | lib/sanitizer_common/sanitizer_common.cc:119-128 | stage one leaves a heap |
| `SortArray.Rise` | lib/sanitizer_common/sanitizer_common.cc:120-127 | one element more rises to its place in the heap |
| `SortArray.Sink` | lib/sanitizer_common/sanitizer_common.cc:133-146 | the new top sinks to its place, and the sorted tail stays |
| `SortArray.Extract` | lib/sanitizer_common/sanitizer_common.cc:132 | swapping the top behind the heap extends the sorted tail |
| `SizeClassMap.ClassOfSize` | lib/sanitizer_common/sanitizer_allocator64.h:75-90 | ClassID(Size(c)) == c, one byte more is the next class, and sizes grow with classes |
| `SizeClassMap.LeastClass` | lib/sanitizer_common/sanitizer_allocator64.h:75-90 | Size(ClassID(s)) is the least class size that is at least s |
| `SizeClassMap.AlignmentKept` | lib/sanitizer_common/sanitizer_allocator64.h:83-90 | the class of a size that is a multiple of a power of two has a size that is one too |
| `SizeClassMap.CachesHold` | lib/sanitizer_common/sanitizer_allocator64.h:92-99 | a cache may hold at least one chunk, and at most kMaxSize bytes go over at once |
| `SizeClassRuns.OneOwner` | lib/sanitizer_common/sanitizer_allocator64.h:123-301 | in every state of every run a chunk is in use, or in one free list, once, region lists and all caches taken together; lists hold nothing but chunks, of their class |
| `SizeClassRuns.ChunksApart` | lib/sanitizer_common/sanitizer_allocator64.h:109-120 | in every state of every run chunks are pairwise disjoint, across regions too, and the metadata of a class is exactly as sound as its last offset is short |
| `SizeClassRuns.CachesBounded` | lib/sanitizer_common/sanitizer_allocator64.h:324-330 | in every state of every run a cache list holds less than 2 * MaxCached chunks, and at most that many while DrainHalf is at work on it, which takes it down to MaxCached; deallocation itself tests nothing before it adds to the list |
| `SizeClassRuns.DrainGoesOn` | lib/sanitizer_common/sanitizer_allocator64.h:343-354 | a drain that has begun can always take its next step, whatever other threads have done |
| `SizeClassRuns.HeldUntilGiven` | lib/sanitizer_common/sanitizer_allocator64.h:135-143 | a chunk in use is not handed out again before it is given back |
| `SizeClassRuns.StateSound` | lib/sanitizer_common/sanitizer_allocator64.h:123-355 | every state that any sequence of moves leads to satisfies the ownership invariant |
| `SizeClassRuns.CollisionReached` | lib/sanitizer_common/sanitizer_allocator64.h:256-281 | a run of 2049 allocations, for every region of more than 2^32 bytes and metadata of at most a megabyte, after which two chunks in use have one metadata slot and GetBlockBegin takes one for the other |
| `SizeClassState.RegionDisjoint` | lib/sanitizer_common/sanitizer_allocator64.h:109-120 | chunks of a region, and their metadata slots, are pairwise disjoint, and the slots lie above all chunks, for offsets of less than 2^32 |
| `SizeClassState.BlockBeginExact` | lib/sanitizer_common/sanitizer_allocator64.h:183-190 | GetBlockBegin gives the start of the chunk around any interior pointer if and only if the offset is less than 2^32; always when regions have 2^32 bytes |
| `SizeClassState.SlotsExactly` | lib/sanitizer_common/sanitizer_allocator64.h:256-262 | in every state of the regions no two chunks of a class share metadata if and only if the last offset is below 2^32 |
| `SizeClassState.TakenForAnother` | lib/sanitizer_common/sanitizer_allocator64.h:183-190 | every chunk at an offset of 2^32 or more has the metadata slot of a chunk below it, and GetBlockBegin returns that one |
| `SizeClassState.SlotsCollide` | lib/sanitizer_common/sanitizer_allocator64.h:256-262 | a state of the regions in which that happens: 2049 chunks of two megabytes |
| `SizeClassState.PopulateOwned` | lib/sanitizer_common/sanitizer_allocator64.h:264-281 | the chunks of fresh memory join the free list, and ownership stays sound |
| `SizeClassAllocator.Primary.PopulateFreeList` | lib/sanitizer_common/sanitizer_allocator64.h:264-281 | an empty list becomes exactly the chunks of the next 256 KB of the region, one at least, the last one first, and the region's counters move by as much; nothing in use has changed; the process dies exactly if the region would run into its metadata |
| `SizeClassAllocator.Primary.BulkAllocate` | lib/sanitizer_common/sanitizer_allocator64.h:146-165 | the cache list gets MaxCached chunks from the front of the region list, last one first, or all of it as it is if it is short, the region being filled first exactly if it was empty; chunks in use and all other lists are the same; fails exactly if the region is dry |
| `SizeClassAllocator.Primary.BulkDeallocate` | lib/sanitizer_common/sanitizer_allocator64.h:168-173 | the list goes back in front of the region's, whole |
| `SizeClassAllocator.Primary.Allocate` | lib/sanitizer_common/sanitizer_allocator64.h:135-138 | hands out the front chunk of the list of the size's class, filled first if it was empty; nothing else comes into use and no other list changes; fails exactly if the region is dry |
| `SizeClassAllocator.Primary.Deallocate` | lib/sanitizer_common/sanitizer_allocator64.h:140-143 | the chunk, and only it, goes to the front of the list of the class its address tells |
| `SizeClassAllocator.Primary.CacheAllocate` | lib/sanitizer_common/sanitizer_allocator64.h:313-322 | hands out the front of the thread's list of the class, refilled from the region exactly if it was empty; no list but these changes; all cache lists stay below 2 * MaxCached; fails exactly if cache and region are dry |
| `SizeClassAllocator.Primary.CacheDeallocate` | lib/sanitizer_common/sanitizer_allocator64.h:324-330 | the chunk, and only it, goes out of use and to the front of the thread's list of its class; if that then has 2 * MaxCached chunks its first half goes to the region, last chunk first; no other list changes, and all cache lists stay below 2 * MaxCached |
| `SizeClassAllocator.Primary.Drain` | lib/sanitizer_common/sanitizer_allocator64.h:332-337 | all lists of the thread's cache end up empty, in front of the regions' lists, and no other list changes; what is in use is the same |
| `SizeClassAllocator.Primary.DrainHalf` | lib/sanitizer_common/sanitizer_allocator64.h:343-354 | the first half of the list, rounded down, goes back in front of the region's, last chunk first; the rest stays |
| `SizeClassAllocator.SameChunkBack` | lib/sanitizer_common/sanitizer_allocator64.h:313-330 | allocating right after giving back yields the same chunk if and only if the list was not full, and then every list is as it was |
| `LargeAllocator.LargeMmapAllocator.Allocate` | lib/sanitizer_common/sanitizer_allocator64.h:365-392 | no block exactly when the size overflows; otherwise a new block in front of the list, in the mapping that mmap returns for the true size, at the first aligned address a page above its start; the process dies exactly if mmap refuses that size |
| `LargeAllocator.LargeMmapAllocator.Deallocate` | lib/sanitizer_common/sanitizer_allocator64.h:394-408 | exactly that block leaves the list |
| `LargeAllocator.LargeMmapAllocator.PointerIsMine` | lib/sanitizer_common/sanitizer_allocator64.h:419-427 | true exactly for the start of a live block, the page test being only a shortcut |
| `LargeAllocator.LargeMmapAllocator.GetBlockBegin` | lib/sanitizer_common/sanitizer_allocator64.h:438-446 | the block around an address, none exactly if there is none |
| `LargeAllocator.OverflowTest` | lib/sanitizer_common/sanitizer_allocator64.h:367-370 | the test after the wrapped additions fails exactly when the true size does not fit a word |
| `LargeAllocator.Placement` | lib/sanitizer_common/sanitizer_allocator64.h:373-378 | both CHECKs hold: the block is aligned and ends within the mapping |
| `LargeAllocator.BlocksApart` | lib/sanitizer_common/sanitizer_allocator64.h:438-446 | no address is in two blocks |
| `CombinedAllocator.Combined.Allocate` | lib/sanitizer_common/sanitizer_allocator64.h:487-506 | nothing exactly when a size overflows; otherwise an aligned block of at least the size asked for: from the least class that is big enough if size and alignment allow, taken from the thread's cache as above, else from a mapping of its own; the other allocator does not change; the process dies only if the region is dry or mmap fails |
| `CombinedAllocator.Combined.Deallocate` | lib/sanitizer_common/sanitizer_allocator64.h:508-514 | the block goes back to the allocator it came from, a small one to the front of the thread's cache as above, and nothing else changes |
| `CombinedAllocator.SmallBlock` | lib/sanitizer_common/sanitizer_allocator64.h:494-502 | the CHECK on the alignment of a small block never fires |
| `CombinedAllocator.SmallAlignment` | lib/sanitizer_common/sanitizer_allocator64.h:130-133 | alignments up to 2^21 are for the size classes |
| `IntrusiveList.IntrusiveList.PushBack` | lib/sanitizer_common/sanitizer_list.h:36-48 | on nodes and pointers: the sequence of items gets one at the end |
| `IntrusiveList.IntrusiveList.PushFront` | lib/sanitizer_common/sanitizer_list.h:50-60 | one in front |
| `IntrusiveList.IntrusiveList.PopFront` | lib/sanitizer_common/sanitizer_list.h:62-68 | the first one goes |
| `IntrusiveList.IntrusiveList.AppendFront` | lib/sanitizer_common/sanitizer_list.h:73-83 | the other list goes in front, whole, and ends up empty |
| `IntrusiveList.IntrusiveList.AppendBack` | lib/sanitizer_common/sanitizer_list.h:85-95 | the other list goes behind; the list stays consistent if and only if it was empty or the other one was not |
| `IntrusiveList.IntrusiveList.CheckConsistency` | lib/sanitizer_common/sanitizer_list.h:97-110 | for any list object whose next pointers do not run in a circle without last: finds out exactly whether first, last and size agree with some chain of distinct items |
| `IntrusiveList.AsanChunkFifoList.Push` | lib/asan/asan_allocator.cc:274-286 | one chunk more at the end, its bytes counted; the CHECKs hold |
| `IntrusiveList.AsanChunkFifoList.PushList` | lib/asan/asan_allocator.cc:255-272 | the other queue goes behind, whole; the CHECKs hold |
| `IntrusiveList.AsanChunkFifoList.Pop` | lib/asan/asan_allocator.cc:291-303 | the first chunk goes, its bytes no longer counted; the CHECKs hold |
| `BlockRefs.CountsReferences` | BlocksRuntime/runtime.c:116-158 | in every state of every interleaving the low 16 bits are the number of references, or 0xffff if there once were as many as that; while there is a reference the object is alive; it is disposed of and freed at most once, and only without references |
| `BlockRefs.LastReleaseFrees` | BlocksRuntime/runtime.c:459-482 | once all references are gone and all calls are over, the object has been disposed of and freed if and only if it never had 0xffff references |
| `BlockRefs.LatchedExactly` | BlocksRuntime/runtime.c:116-158 | the count is latched if and only if there once were 0xffff references |
| `BlockRefs.LatchedForever` | BlocksRuntime/runtime.c:116-158 | a count of 0xffff never changes again, and the object is never freed |
| `BlockRefs.FlagsKept` | BlocksRuntime/runtime.c:116-158 | in every state of every run the flags above the count are those the object started with |
| `BlockRefs.FirstCounts` | BlocksRuntime/runtime.c:312-318 | a copied block starts with one reference, a byref moved to the heap with two; of the other flags only BLOCK_NEEDS_FREE changes |
| `BlockRefs.StepKeeps` | BlocksRuntime/runtime.c:116-158 | every step of every thread keeps the invariant |
| `BlockRefs.CopyAdds` | BlocksRuntime/runtime.c:116-125 | a copy returns only with exactly one reference more, its own |
| `BlockRefs.ReleaseDrops` | BlocksRuntime/runtime.c:145-158 | a release drops exactly the reference it was called with, and goes on to dispose of the object exactly if the count is then zero |
| `BlockRefs.RetriesOnlyIfChanged` | BlocksRuntime/runtime.c:116-158 | a compare-and-swap fails only if another thread has changed the word |
| `BlockGraph.ByrefCount` | BlocksRuntime/runtime.c:376-378 | in every state of every run the count of a heap byref is the number of pointers to it in heap blocks, plus one while the frame of its variable lasts, plus those that calls in progress hold, or 0xffff if there once were as many as that |
| `BlockGraph.BlockCount` | BlocksRuntime/runtime.c:285-326 | in every state of every run the count of a heap block is the number of pointers to it in heap blocks, plus the references of the program, or 0xffff if there once were as many as that |
| `BlockGraph.LatchedExactly` | BlocksRuntime/runtime.c:116-158 | over every run a count is latched if and only if there once were 0xffff references to the object, and its object then stays |
| `BlockGraph.NothingLeaks` | BlocksRuntime/runtime.c:459-482 | after any run, when the program has released its references and left its frames, the heap is empty if and only if no object ever had 0xffff references |
| `BlockGraph.StateSound` | BlocksRuntime/runtime.c:285-607 | every state of every run, the pieces of any calls alternating, has the counts right and no cycle of blocks |
| `BlockGraph.Runtime.BlockCopy` | BlocksRuntime/runtime.c:453-455 | a stack block becomes a new heap block that holds copies of what it captured, recursively; a heap block is retained; afterwards every count is the number of references, or 0xffff if it was before or there are as many now; only captured variables move, and no cycle of blocks arises; the call leads from states of runs to states of runs |
| `BlockGraph.Runtime.CopyInternal` | BlocksRuntime/runtime.c:285-326 | the same in the middle of other copies; only a count that has as many references as it cannot tell latches |
| `BlockGraph.Runtime.ObjectAssign` | BlocksRuntime/runtime.c:560-587 | a captured block is copied, a captured variable or byref shared |
| `BlockGraph.Runtime.ByrefAssignCopy` | BlocksRuntime/runtime.c:368-410 | the first capture moves the variable to the heap, later ones find it there |
| `BlockGraph.Runtime.BlockRelease` | BlocksRuntime/runtime.c:459-482 | the object goes exactly if this was its only reference, and then so does, recursively, what only it held; nothing that is referenced goes, no count latches, and every count that had not latched is the number of references |
| `BlockGraph.Runtime.Release` | BlocksRuntime/runtime.c:414-439 | the same for blocks and byrefs, in the middle of a disposal |
| `BlockGraph.Runtime.LeaveScope` | BlocksRuntime/runtime.c:593-607 | the frame gives up its reference to a variable that has moved; the program's references stay, and every count that had not latched is the number of references |
| `StackTrace.Compress` | lib/sanitizer_common/sanitizer_stacktrace.cc:145-205 | as many frames are stored as can be: the first k fit if and only if k <= the result; reading the buffer back gives exactly those, whatever it held before |
| `StackTrace.Uncompress` | lib/sanitizer_common/sanitizer_stacktrace.cc:208-248 | reads any buffer as the reference decoder does, and fails exactly when CHECK(pc) does |
| `StackTrace.Recovered` | lib/sanitizer_common/sanitizer_stacktrace.cc:145-248 | decoding is the inverse of encoding, for all frames that can be stored, any previous frame and any terminated tail |
| `StackTrace.OffsetRecovered` | lib/sanitizer_common/sanitizer_stacktrace.cc:165-171 | an offset word is never taken for a high word, and gives the frame back although difference and sum wrap around |
| `StackTrace.HalvesRecovered` | lib/sanitizer_common/sanitizer_stacktrace.cc:173-180 | a high word is never taken for an offset, and the two halves give the frame back |
| `StackTrace.TwoEach` | lib/sanitizer_common/sanitizer_stacktrace.cc:165-181 | one or two words for each frame |
| `StackTrace.OneWordExactly` | lib/sanitizer_common/sanitizer_stacktrace.cc:163-181 | one exactly for frames that are less than 2^30 - 1 from the one before |
| `Printf.VSNPrintf` | lib/sanitizer_common/sanitizer_printf.cc:86-148 | the length of the whole text is returned, the buffer holds the part that fits and a NUL, and nothing behind it changes; the process dies exactly on an unknown directive or an empty buffer |
| `Printf.DirectivePrints` | lib/sanitizer_common/sanitizer_printf.cc:98-143 | what each directive prints of its argument: decimal, hexadecimal, pointer, string or <null>, character; an unknown one dies |
| `Printf.AppendUnsigned` | lib/sanitizer_common/sanitizer_printf.cc:36-56 | appends the padded digits of any 64-bit number as far as there is room, and returns how many there are |
| `Printf.Digits` | lib/sanitizer_common/sanitizer_printf.cc:41-48 | the digit buffer never overflows |
| `Printf.AppendSignedDecimal` | lib/sanitizer_common/sanitizer_printf.cc:58-66 | appends the decimal text of any signed 64-bit number |
| `Printf.AppendString` | lib/sanitizer_common/sanitizer_printf.cc:68-76 | appends the characters, or <null> |
| `Printf.AppendPointer` | lib/sanitizer_common/sanitizer_printf.cc:78-84 | appends 0x and at least twelve digits |
| `Printf.TextValue` | lib/sanitizer_common/sanitizer_printf.cc:36-56 | the text of a number is worth the number, in digits of the base, without superfluous zeros |
| `Printf.TruncatedExactly` | lib/sanitizer_common/sanitizer_printf.cc:168-171 | the buffer holds a prefix of the text, and the whole text if and only if the returned length is less than the size of the buffer |
| `Strtoll.InternalSimpleStrtoll` | lib/sanitizer_common/sanitizer_libc.cc:177-206 | value and end pointer for every text, in 64-bit words that saturate; dies exactly for a base other than 10 |
| `Strtoll.ReadParts` | lib/sanitizer_common/sanitizer_libc.cc:177-206 | spaces, a sign, digits and anything else: the number is the signed value clamped to 64 bits, and reading stops behind the digits |
| `Strtoll.PrintThenRead` | lib/sanitizer_common/sanitizer_libc.cc:177-206 | what %zd prints of any 64-bit number is read back as that number |
| `Strtoll.ReadNothing` | lib/sanitizer_common/sanitizer_libc.cc:182-199 | without digits the value is 0 and the end pointer is behind the spaces, not at the start of the text |

## Left out

- SoftDiv.Divsf3: subnormal results are not claimed to be rounded correctly where `Misrounds` holds, because they are not.
- SoftDiv.Divdf3: the same, for 64-bit words.
- Convert.Truncdfsf2: the result at exactly +-2^128 is not stated, because the C code shifts by a negative count there.
- Convert.Truncate: the same, at the least power of two that overflows the narrower format.
- WideWords.WideRightShiftWithSticky: at a count of the full word width the low word is one of two, because C leaves one of its shifts undefined; the callers' results do not depend on it.
- IntToFloat.Floatdisf: the negation of the least 64-bit integer, a signed overflow in C, is taken to wrap around.
- Printf.AppendSignedDecimal: the same for its negation.
- UdivMod.Udivmoddi4: division by zero, which the C code leaves to the machine's own division.
- AsanHeap.Heap.Deallocate: nothing is said of the heap after a misplaced free, which the code does not detect (`AsanRuns.FreeExactly` says what becomes of the shadow); a byte read as a chunk state where no header is known to be is arbitrary.
- AsanHeap.Heap.Allocate: redzones below 32 bytes, for which the free stack and the next pointer overlap user memory.
- Printf.VSNPrintf: arguments that do not match the format are undefined, and the returned length does not wrap at 2^31.
- NaN payloads, exception flags and the sign of NaN results.
- The memory-mapped floating-point unit and the inline assembly of the Patmos port: the portable branches are modelled.
- Weak memory orders: every atomic access is taken as sequentially consistent.
- The hash of the stack depot is any function; its static initialisation is one step; addresses in the bump allocator do not wrap around; that new nodes of the depot are disjoint is taken from the bump allocator, under its condition on layouts.
- In the ASan heap thread ids, statistics, the contents of stack traces in chunks and user poisoning of heap memory are left out, and so are FindChunkByAddr, ChooseChunk, Reallocate and FakeStack. A report of a double or stray free ends the process. The methods of the class run one after the other; in the runs their moves alternate, painting and list operation being one move.
- In the size-class allocator a move is what happens under the region's lock, one node at a time; Init, TotalMemoryUsed and Reallocate are left out. Nothing is said of the state in which a process dies. The list of large blocks is a sequence, not linked headers.
- Garbage collection in BlocksRuntime, retained objects of other kinds than blocks and __block variables, and two threads making the first copy of the same stack variable.
- In the trace compressor the 32-bit branch, a plain copy; FastUnwindStack.
- mmap either fails or returns fresh page-aligned memory; malloc in BlocksRuntime succeeds.
- Shifts, comparisons, negations, counts of bits and thin wrappers around the divisions: they would only add easy members.
