# Konoha: a verified model of its hardest parts

A Dafny model of five components of the Konoha language runtime, each proved against what it is for.

- **The mark-sweep collector and arena allocator** (`module/msgc/msgc.c`; `ObjectHeap`, `HeapSteps`,
  `HeapRuns`, `MarkStacks`, `Msgc`, with `Powers`). Slots of three sizes in arenas of pages, free lists threaded through
  the empty slots, an explicit mark stack that doubles when full, sweeping, expansion, allocation that
  triggers collection. The object graph is arbitrary: cycles and sharing included. `Msgc.Collector` changes
  the memory in place as the source does; `HeapSteps` and `HeapRuns` say what the steps are, and prove what
  every step and every run keeps.
- **Rope strings** (`package/konoha.rope/rope_glue.c`; `Rope`). Concatenation shares its two parts; reading
  a rope overwrites that node in place while other ropes still have it as a part.
- **The 64-bit Mersenne Twister** (`package/konoha/mt19937ar.h`, second half; `Mt64`). The in-place
  regeneration in three segments against the recurrence of T. Nishimura, "Tables of 64-bit Mersenne
  Twisters", ACM TOMACS 10 (2000), with both ways of seeding and the output transform. `Mt64Vectors` and
  `Mt64KeyVector` derive the first published outputs for the default seed and for a key.
- **The classic virtual machine's code generation** (`module/classicvm/classicvm.h`; `VmCode`, `VmPeephole`,
  `VmLookahead`, `VmCompile`, `VmAccess`, `VmBranch`, `VmChain`, `VmMachine`). The integer expression compiler, with
  the one place where an operand is compiled twice, the peephole pass over basic blocks, and the fusion of integer
  and floating-point comparisons with conditional jumps.
- **UTF-8 character operations** (`package/konoha.string/string_glue.h` with the lead-byte table of
  `include/konoha2/klib.h`; `Utf8`, `StringGlue`). Character indices computed from byte searches and lead-byte
  hops, on the encoding of section 3 of RFC 3629 with the five- and six-byte forms of section 2 of RFC 2279,
  of which the table is proved to be the one.

`Options` has the one option type they share.

Where the code changes things step by step, the model does too: classes with `modifies` clauses, loops over
arrays, recursion that writes into a buffer. Each such method is proved equal to a specification function or
relation, and the lemmas are about those.

## What is assumed

- The root set and the references that tracing an object yields (`KRUNTIME_reftraceAll`,
  `KONOHA_reftraceObject`) are values of the heap, `roots` and `fields`; an empty slot is never traced.
  Setting the class word of a new slot is one step with taking it, and the new object is held by the caller.
  The running program may store references it can reach in objects it can reach, and change its roots.
- `malloc` succeeds and returns zeroed memory, as `do_malloc` and `do_realloc` see to.
- A fresh String object carries exactly the inline flag among the top three flag bits (`String_init` sets it,
  and `new_StringBase` clears it by exclusive or). A text passed with SPOL_TEXT is not written afterwards.
- The instructions do what `src/vm/vm.h` says. `VmCode.Machine` leaves open how words are computed and what
  instructions do that the passes never look at; `Lawful`, `Comparing` and `Separates` say what is needed of it,
  and `VmMachine` proves that of 64-bit words, and what these compute: sums, differences and products wrap around,
  division truncates, with no value for a divisor of zero and for the least word divided by -1, truth values are in
  the low byte only, and floating-point numbers are compared as in the binary64 format of IEEE 754.
- Strings given to the UTF-8 operations are well-formed and free of NUL, and flagged ASCII only if they are. Memory
  past the terminator, which hops beyond the end read, can be read and holds anything.

## Findings

- The free list is spliced at the first slot of the last page of a new arena (`ref4_tail`), so every arena but
  the first strands all but one slot of a page for good, and `freeObjectListSize` counts them as free.
  `HeapRuns.Conservation` gives the exact numbers. Allocation still never fails after a collection, because the
  excess stays below a tenth of all slots whatever their number (`HeapSteps.StrandedBelowTenth`).
- The peephole pass reads up to two instructions past the end of its block, and overwrites them if they carry on a
  run of sets at the end of the block whose length is 2 or 3 above a multiple of four
  (`VmLookahead.SwallowedExactly`: the number overwritten, read off the instructions before the pass). From any
  state the block is then kept exactly if it traps, or each register set by an instruction taken in has that number
  at the end of the block anyway (`VmLookahead.BlockKeptExactly`, with `SwallowingChangesTheBlock` for a block that
  is not). This is a hazard: inside the buffer of a block the slots past it are zero, which is NOP, as buffers are
  cleared when made and enlarged (`src/konoha/klibexec.h:26-47`), or hold a BNOT that fusion took off
  (`module/classicvm/classicvm.h:38`), and then the block is kept (`VmLookahead.BlockInBufferKept`). A set can only
  come from what lies in memory past a buffer that is full, at 1, 4, 8, 16 and so on instructions or after a join
  (`src/vm/asm.c:106-118`, `src/vm/asm.c:226-230`).
- The compiler swaps operands in the tree but leaves the method. The tree left behind has the value of the source
  tree exactly if that is no order comparison with a literal on the left, or the comparison comes out the same
  either way (`VmCompile.SwapTreeExactly`); on 64-bit words that means that the right operand has no value or is the
  literal (`VmMachine.SwappedOnKonoha`). Compiled again, it leaves its own value, not that of the source
  (`VmCompile.CompiledTwice`, `VmMachine.CompiledTwiceMeansOther`).
- That happens. `Array.set` with a literal index below zero emits code for its array and its value and then gives up
  (`module/classicvm/classicvm.h:344-352`), and `CALL_asm` compiles all operands again (`src/vm/asm.c:650-664`). Such a
  literal does arrive: `Int.opMINUS` is const (`src/konoha/datatype.h:996`) and folded when types are checked
  (`src/sugar/tycheck.h:558-560`, `src/sugar/tycheck.h:153-164`). The value operand is then evaluated twice, the second
  time from the tree left behind (`VmAccess.EvaluatedTwice`), and the value of the source is passed on exactly if it is
  no order comparison of a literal or that has the same outcome either way (`VmAccess.SecondExactly`); on 64-bit words,
  of `k < r`, exactly if r is k (`VmAccess.SecondOnKonoha`). So `a.set(-1, f(1 < x))` calls f with false and then with
  true when x is 0 (`VmAccess.CalledWithBoth`), before the index is found to be out of range. `Array.get` does the same
  to its array operand (`module/classicvm/classicvm.h:316-322`), and `Bytes.set` would to its value
  (`module/classicvm/classicvm.h:394-402`, compiled only if `OPCODE_BGETIDX` is defined).
- A literal divisor of zero is compiled as one. The code computes the source tree exactly if there is no such
  divisor, or if it has no value all the same (`VmCompile.MeansSource`); x / 0 is a case in which it does not
  (`VmMachine.ZeroDivisorOnKonoha`).
- Taking an instruction up into a jump is right, whatever the block before it, exactly if it writes the register the
  jump reads (`VmBranch.FusedExactly`). Of a whole chain: the register of the jump, followed back through the
  negations that really write it, must come from the register that the fusion ends with, and as often negated up to
  parity (`VmChain.NegationsExactly`), or from the register that the comparison taken up writes
  (`VmChain.ComparisonExactly`). Fusion looks at neither. Compiled comparisons always qualify, and their negations
  (`VmBranch.FusionKeeps`).
- `String_lastIndexOf` does not always return -1 when it finds nothing: if the needle is longer it returns the
  (negative) difference of the sizes. For an empty needle it returns -1, never a place.
- `S_mget` cannot return a character whose number does not fit a 32-bit int (`StringGlue.AllGot`).
- The size class of an object is past the end of the tables for sizes above 256 bytes (`Msgc.SizeClassFits`). A size
  fits the slot of its class exactly if it is at most 64, or is 128 or 256 (`Msgc.FitsItsClass`); 192 would get 128
  bytes, but classes have their sizes rounded by `size64`.

## Model

| member | source | states |
|---|---|---|
| ObjectHeap.SizesFit | module/msgc/msgc.c:42 | slot sizes, slots per page, pages per arena and the count of stranded slots are those of the source, and fill pages and arenas exactly |
| ObjectHeap.ClosedSetHoldsReachable | module/msgc/msgc.c:591-615 | a set that holds the roots and is closed under tracing holds everything reachable by any path: reachability is independent of the marking loop |
| ObjectHeap.ReachableIsLeast | module/msgc/msgc.c:591-615 | in words of roots and fields: the reachable objects are the least set that holds the roots and all that the fields of its objects refer to |
| ObjectHeap.SameGraphReach | module/msgc/msgc.c:591-615 | two memories that agree on the references of reachable objects have the same reachable objects |
| ObjectHeap.MarkedIsSweeping | module/msgc/msgc.c:591-615 | setting the mark word of exactly the live objects changes neither lists nor reachability, and is what sweeping starts from |
| ObjectHeap.SweepOneKeeps | module/msgc/msgc.c:623-644 | sweeping one more slot keeps: swept slots are freed or unmarked, all others untouched, the freed ones in front of a proper list |
| ObjectHeap.SweepKeepsLive | module/msgc/msgc.c:623-644 | while a class is swept the live objects keep every word but the mark, stay live, and no reference comes to dangle |
| ObjectHeap.SweepKeepsLists | module/msgc/msgc.c:623-644 | every empty slot is on its list or stranded and not both, and the counters go along, for the swept class and the others |
| ObjectHeap.SweptIsInv | module/msgc/msgc.c:697-702 | after the third class all marks are clear, the invariant holds, and exactly the live objects are allocated |
| HeapSteps.BlockIsBlock | module/msgc/msgc.c:281-292 | the links left by page and arena set-up lead through the slots of an arena in order up to the first slot of the last page, without repetition |
| HeapSteps.SpliceLists | module/msgc/msgc.c:491-500 | splicing a new arena at its tail pointer as coded leaves proper lists, with the rest of the last page neither listed nor allocated |
| HeapSteps.AddArenaKeeps | module/msgc/msgc.c:491-500 | an expansion step keeps the live objects, all free slots free and the other classes, and makes the list non-empty |
| HeapSteps.GrowthKeeps | module/msgc/msgc.c:491-500 | so does any number of them |
| HeapSteps.StrandedBelowTenth | module/msgc/msgc.c:617-621 | for any number of arenas the counter of an empty list is below a tenth of all slots, so CHECK_EXPAND extends |
| HeapSteps.ExpandedExactly | module/msgc/msgc.c:617-621 | CHECK_EXPAND doubles the number of arenas exactly if the counter and one more are at most a tenth of the slots, and else changes nothing |
| HeapSteps.ExpandedKeeps | module/msgc/msgc.c:617-621 | after CHECK_EXPAND, whether it extends or not, the list of the class is not empty |
| HeapSteps.ClassSweptKeeps | module/msgc/msgc.c:646-661 | sweeping a class releases every dead object of it, keeps the live ones, and leaves a free slot |
| HeapSteps.CollectKeeps | module/msgc/msgc.c:786-793 | a collection keeps the invariant; live objects are unchanged in every word, nothing else is allocated, each dead slot is free, every class has a free slot |
| HeapRuns.InitialInv | module/msgc/msgc.c:719-738 | the heap after set-up satisfies the invariant |
| HeapRuns.AllocKeeps | module/msgc/msgc.c:775-784 | allocation takes a slot that was empty and unreachable, which becomes a live object of the class asked for without references and leaves the list; no other slot changes, and the invariant is kept |
| HeapRuns.StepKeeps | module/msgc/msgc.c:775-793 | allocation, a store by the program, a change of roots and a collection all keep the invariant |
| HeapRuns.FieldsAreAllocated | module/msgc/msgc.c:591-615 | what a field of a live object refers to is live, allocated and on no free list |
| HeapRuns.RunsAreSafe | module/msgc/msgc.c:775-793 | in every state of every run the invariant holds, no object reachable from the roots is on a free list, and no field of one refers to a free slot |
| HeapRuns.Partition | module/msgc/msgc.c:491-500 | every slot of a class is exactly one of allocated, on the free list, or stranded |
| HeapRuns.Conservation | module/msgc/msgc.c:220-240 | freeObjectListSize is the list length plus (slots per page - 1) * (arenas - 1), and with the allocated slots makes up all slots |
| MarkStacks.MaskKeeps | module/msgc/msgc.c:543-555 | the mask of a capacity 2^k - 1 does not change an index below 2^k |
| MarkStacks.MaskWraps | module/msgc/msgc.c:543-555 | and sends 2^k to 0, which is how a full stack is noticed |
| MarkStacks.OStack.constructor | module/msgc/msgc.c:527-541 | the stack starts empty, on the buffer of the last collection if there is one, or on a new one of 4096 entries |
| MarkStacks.OStack.Push | module/msgc/msgc.c:543-555 | the contents grow by the entry pushed, also when the buffer is doubled |
| MarkStacks.OStack.Next | module/msgc/msgc.c:557-565 | the last entry comes off, or NULL from an empty stack |
| Msgc.Size64 | include/konoha2/klib.h:28-35 | the least power-of-two multiple of the object size that is at least s |
| Msgc.SizeClassFits | module/msgc/msgc.c:775-784 | a size so rounded gets a slot of exactly that size if and only if it is at most 256 bytes; beyond, the index is past the tables |
| Msgc.FitsItsClass | module/msgc/msgc.c:775-784 | the sizes, rounded or not, that fit the slot they get are exactly those up to 64, and 128 and 256 |
| Msgc.Collector.ObjectPageInit | module/msgc/msgc.c:242-253 | the slots of a page, and no others, are empty and linked, the last to the next page |
| Msgc.Collector.ObjectArenaTBLInit | module/msgc/msgc.c:281-292 | the memory gains one arena, linked through, and the counter its slots |
| Msgc.Collector.NewObjectArena | module/msgc/msgc.c:320-345 | the same for the arena table, which doubles when it is full, with the first slot and the tail pointer, the first slot of the last page; the checked walk over the first page succeeds |
| Msgc.Collector.AddOneArena | module/msgc/msgc.c:491-500 | one turn of the expansion loop is the step AddArena |
| Msgc.Collector.ExtendObjectArena | module/msgc/msgc.c:491-500 | as many such steps as there were arenas |
| Msgc.Collector.CheckExpand | module/msgc/msgc.c:617-621 | expansion exactly when the counter is below a tenth of the slots counted |
| Msgc.Collector.MarkOStack | module/msgc/msgc.c:576-583 | an unmarked reference is marked, counted and pushed on top of what is there; a marked one changes neither stack nor counter nor marks |
| Msgc.Collector.MarkFromRoots | module/msgc/msgc.c:591-615 | for every finite heap graph with clear marks the loop terminates with the marked set equal to the set reachable from the roots, which is the least that holds the roots and all fields of its objects, the counter its size; each live object was pushed exactly once and nothing else was |
| Msgc.PushedOnceIsDistinct | module/msgc/msgc.c:576-583 | a log of pushes with the multiset of the marked objects has no repetition and exactly those elements |
| Msgc.Collector.GcMark | module/msgc/msgc.c:591-615 | the same with the stack taken from and handed back to the collector |
| Msgc.Collector.SweepSlot | module/msgc/msgc.c:623-644 | one slot is swept as the step SweepOne says |
| Msgc.Collector.Sweep0 | module/msgc/msgc.c:623-644 | a page is swept, with the number of objects collected |
| Msgc.Collector.GcSweepClass | module/msgc/msgc.c:646-661 | every slot of a class is swept exactly once; the number returned is that of the objects that died |
| Msgc.Collector.GcSweep | module/msgc/msgc.c:697-702 | the three classes one after the other |
| Msgc.Collector.GcInvoke | module/msgc/msgc.c:786-793 | the code performs the collection step, with all that CollectKeeps says of it |
| Msgc.Collector.Refill | module/msgc/msgc.c:220-228 | after the test for NULL and a collection if needed, the list is not empty |
| Msgc.Collector.Omalloc | module/msgc/msgc.c:775-784 | for a size that fits the slot of its class (those of FitsItsClass): allocation, with a collection first exactly when the list was empty, is the allocation step, and keeps the invariant |
| Msgc.Collector.constructor | module/msgc/msgc.c:748-762 | empty tables and lists, before the free lists are set up |
| Msgc.Collector.Setup | module/msgc/msgc.c:719-724 | one class gets its first arena, whose whole block is the free list |
| Msgc.Collector.SetupAll | module/msgc/msgc.c:726-738 | after set-up the heap is the initial one |
| Rope.StringBase.constructor | package/konoha.rope/rope_glue.c:93-99 | clearing by exclusive or and setting leaves exactly the flag asked for |
| Rope.Strings.RopeParts | package/konoha.rope/rope_glue.c:258-285 | every rope has two non-empty parts, their summed length, and at least what does not fit inline |
| Rope.Strings.TextOf | package/konoha.rope/rope_glue.c:175-200 | the text read off the nodes as they are now, left to right, is the text each string was made with |
| Rope.Strings.WriteText | package/konoha.rope/rope_glue.c:175-200 | for every rope shape the text is written to exactly its stretch of the buffer, nothing else is, and the loop and recursion terminate |
| Rope.Strings.WriteBoth | package/konoha.rope/rope_glue.c:202-207 | the two parts fill the buffer up to the terminating NUL |
| Rope.Strings.Flatten | package/konoha.rope/rope_glue.c:202-210 | the node becomes a linear string on a new buffer; every string stays well-formed, those included that share the node |
| Rope.Strings.ToLinerString | package/konoha.rope/rope_glue.c:147-155 | the flag and the overlaid word change from rope to linear |
| Rope.Strings.GetReference | package/konoha.rope/rope_glue.c:212-227 | the buffer returned holds the text; no string anywhere changes text or length; a rope gets a new buffer; a flat string is not touched, so a second read returns the same and changes nothing |
| Rope.Strings.KnewString | package/konoha.rope/rope_glue.c:157-165 | a new flat string with the given text: inline exactly if it fits; else on the caller's own text exactly if that is there to stay; else on a new copy, so that the caller's text is not kept |
| Rope.Strings.Concat | package/konoha.rope/rope_glue.c:258-285 | the result denotes the concatenation and no existing string is changed; it is the other string if one is empty, else a new string, inline exactly if it fits and else a rope of the two; the short path never meets a rope |
| Rope.Strings.ConcatInline | package/konoha.rope/rope_glue.c:270-282 | the short path: an inline string with both texts, the two strings untouched |
| Rope.Strings.RopeNew | package/konoha.rope/rope_glue.c:138-145 | a rope of the two strings themselves |
| Rope.Strings.Depth | package/konoha.rope/rope_glue.c:175-200 | a string is less deep than it is long, so recursion is bounded by the length |
| Rope.Strings.Reftrace | package/konoha.rope/rope_glue.c:231-245 | loop and recursion hand the collector exactly the sequence TraceOf, in its order and with its repetitions |
| Rope.Strings.TracedAreRead | package/konoha.rope/rope_glue.c:231-245 | that sequence has exactly the strings that the text of the rope is read from, and is empty for a flat string |
| Mt64.NewWordIsTerm | package/konoha/mt19937ar.h:325-334 | each word regenerated in place is the term 312 places after the one it replaces, whichever of the old and new words its segment reads |
| Mt64.RegeneratedIsNext | package/konoha/mt19937ar.h:325-334 | so the array becomes the next 312 terms of the recurrence |
| Mt64.Genrand64.InitGenrand64 | package/konoha/mt19937ar.h:275-281 | the array holds the seed recurrence and is the first window of the sequence |
| Mt64.Genrand64.Regenerate | package/konoha/mt19937ar.h:325-334 | the three loops turn one window of the sequence into the next |
| Mt64.Genrand64.Refill | package/konoha/mt19937ar.h:318-337 | regeneration when all words are used, after seeding with 5489 if there was none |
| Mt64.Genrand64.Int64 | package/konoha/mt19937ar.h:311-347 | the output is the transform of the next term of the infinite sequence |
| Mt64.Genrand64.Outputs | package/konoha/mt19937ar.h:311-347 | after either seeding output k is the transform of term 312 + k, for every k |
| Mt64.UntemperTemper | package/konoha/mt19937ar.h:341-344 | the four-step output transform has a left inverse: no two words share an output |
| Mt64.TemperUntemper | package/konoha/mt19937ar.h:341-344 | and a right inverse: every word is an output |
| Mt64.UnfeedFeed | package/konoha/mt19937ar.h:341-344 | one step x ^ f(x) is undone for any f that is linear and vanishes when applied four times |
| Mt64.StatesNeverMerge | package/konoha/mt19937ar.h:325-334 | two generators agree in the 19937 bits of their state at some time if and only if they did at the start |
| Mt64.SeededNeverZero | package/konoha/mt19937ar.h:275-281 | no seed ever leads to the all-zero state |
| Mt64.KeySeededNeverZero | package/konoha/mt19937ar.h:307 | nor does any key: the top bit set at the end is enough |
| Mt64.StirStep | package/konoha/mt19937ar.h:293-305 | writing position i and, at the end of a round, copying it to position 0 is one step of a recurrence without positions |
| Mt64.AroundNext | package/konoha/mt19937ar.h:298 | the key index counts round the key and stays below its length |
| Mt64.Genrand64.AddKeys | package/konoha/mt19937ar.h:293-299 | for every key length, 0 included, the first loop terminates with i in 1..311 and j below the number of words used throughout, and does the steps of the recurrence |
| Mt64.Genrand64.TakePositions | package/konoha/mt19937ar.h:300-305 | and so does the second |
| Mt64.Genrand64.InitByArray64 | package/konoha/mt19937ar.h:287-308 | the array is what the key recurrence gives, of the first word for a length of 0, and the generator is ready |
| Mt64Vectors.DefaultOutputs | package/konoha/mt19937ar.h:275-347 | for the seed 5489 the first three outputs are those published |
| Mt64KeyVector.KeyOutputs | package/konoha/mt19937ar.h:287-347 | and so they are for the key 0x12345, 0x23456, 0x34567, 0x45678 |
| Mt64KeyVector.KeyWord | package/konoha/mt19937ar.h:287-308 | where each word of the array that this key gives stands in the recurrence, all 623 steps of it |
| VmCode.OpcodeOffsets | module/classicvm/classicvm.h:243-281 | opcode arithmetic is right: the constant form of a method and the fused jump of a comparison, of integers or floating-point numbers, lie at the offsets used |
| VmCode.CompareCodes | module/classicvm/classicvm.h:42-75 | the four ranges of opcodes that fusion looks for are exactly the comparisons, and the jump found makes the same comparison |
| VmPeephole.FusingSound | module/classicvm/classicvm.h:88-208 | every rewrite of the pass does what the instructions it replaces do in order, from every state |
| VmPeephole.MachineSets | src/vm/vm.h:365-381 | setting k registers at once is setting them one after the other |
| VmPeephole.MachinePairs | src/vm/vm.h:360-363 | two moves in one instruction run in order |
| VmPeephole.SetsPlace | src/vm/vm.h:365-381 | for every register what it holds after one of the instructions that set one to four registers |
| VmPeephole.MovesPlace | src/vm/vm.h:477-489 | and after one that moves one or two, the second seeing what the first moved |
| VmPeephole.PeepStepKeeps | module/classicvm/classicvm.h:92-207 | a step of the pass keeps the effect of block and look-ahead |
| VmPeephole.TailStep | module/classicvm/classicvm.h:111-133 | a step overwrites slots past the block only if they hold sets that carry on a run |
| VmPeephole.OthersStay | module/classicvm/classicvm.h:88-208 | instructions other than sets, moves and casts stay in place, so the jump at the end does |
| VmPeephole.NothingLeft | module/classicvm/classicvm.h:88-208 | after the pass no two neighbours in the block are consecutive sets, moves that could be paired or dropped, or a cast of what was just moved |
| VmPeephole.CompactKeeps | src/vm/asm.c:261-286 | dropping NOPs keeps the effect |
| VmPeephole.CompactIs | src/vm/asm.c:261-286 | what is left has no NOP, and every other instruction as often as before |
| VmPeephole.PeepAt | module/classicvm/classicvm.h:92-207 | the loop body in place is the step |
| VmPeephole.Peephole | module/classicvm/classicvm.h:88-208 | the loop in place is the pass |
| VmPeephole.PeepholeAndCompact | src/vm/asm.c:261-286 | what is left at the start of the array is the pass without its NOPs, in order, and its size is returned |
| VmLookahead.PlaceInRun | module/classicvm/classicvm.h:111-133 | the place of a set in its group of four is given by the length of the run of sets up to it |
| VmLookahead.SwallowedExactly | module/classicvm/classicvm.h:111-133 | for every block: how many of the two instructions past it are overwritten, from the length of the run of sets that ends the block and whether they carry it on; what is overwritten were sets |
| VmLookahead.PeepholeMeaning | module/classicvm/classicvm.h:88-208 | for every block and state the new block does what the old block and so many instructions after it did |
| VmLookahead.BlockKept | src/vm/asm.c:261-286 | pass and compaction together keep the block from every state if none is taken in |
| VmLookahead.BlockInBufferKept | src/vm/asm.c:106-118 | so they do if the slot after the block is one of its own buffer, with NOP or a BNOT in it |
| VmLookahead.BlockKeptExactly | src/vm/asm.c:261-286 | from a state they keep it if and only if the block traps or every register set by an instruction taken in has that number at its end |
| VmLookahead.SwallowingChangesTheBlock | module/classicvm/classicvm.h:111-133 | a block of two sets with a third after it changes its effect wherever the third register has another number |
| VmCompile.SwappedMeaning | module/classicvm/classicvm.h:291-306 | a literal brought to the right with the comparison flipped gives the same value |
| VmCompile.EvalFrame | src/vm/asm.c:560-645 | an expression over slots below the stack index does not see what is written above |
| VmCompile.CompileCorrect | module/classicvm/classicvm.h:439-466 | for every well-typed tree and state the code leaves the value in the register of the stack index and changes none below; it traps exactly when there is no value; literal zero divisors count as one |
| VmCompile.CompileSource | module/classicvm/classicvm.h:439-466 | without a literal zero divisor that is the value of the source tree |
| VmCompile.CompileInto | src/vm/asm.c:621-626 | the same when the result is moved to a slot below |
| VmCompile.PatchExact | module/classicvm/classicvm.h:449-455 | the tree computed differs from the source tree exactly if that has a literal divisor of zero |
| VmCompile.MeansSource | module/classicvm/classicvm.h:449-455 | the code computes the source tree exactly if there is none, or if the tree has no value anyway |
| VmCompile.SwapTreeMeaning | module/classicvm/classicvm.h:283-306 | the tree left behind means the same if no literal was first in an order comparison, at any depth |
| VmCompile.SwapTreeExactly | module/classicvm/classicvm.h:283-306 | for every well-typed tree: the tree left behind has the value of the source tree if and only if it is no order comparison of a literal, or the comparison has the same outcome either way round |
| VmCompile.CompiledTwice | module/classicvm/classicvm.h:291-306 | code compiled a second time leaves the value of the tree left behind |
| VmCompile.KExpr.Swap | module/classicvm/classicvm.h:283-289 | the two operands change places |
| VmCompile.KExpr.HasConst | module/classicvm/classicvm.h:291-306 | says whether a literal is on the right, after bringing one there and flipping the comparison if allowed |
| VmCompile.ExprAsm | src/vm/asm.c:560-645 | for constants, slots and calls: the code appended is the compilation of the tree as it was, and the tree is left with its operands swapped |
| VmCompile.CallAsm | module/classicvm/classicvm.h:439-466 | the same for a call of an integer method |
| VmAccess.ClassicSetAsm | module/classicvm/classicvm.h:344-352 | the code of array and value is emitted before the index is looked at, and exactly a literal below zero is refused after that |
| VmAccess.OperandsAsm | src/vm/asm.c:660-664 | the loop over the operands puts array, index and value in the slots of a call |
| VmAccess.SetAsm | src/vm/asm.c:650-684 | of a refused set: the code of the value operand as it was, then that of the tree left behind, and the tree is swapped twice |
| VmAccess.SetRuns | src/vm/asm.c:650-684 | that code evaluates the value operand once, calls, evaluates it again with all operands in place, calls, and calls set |
| VmAccess.EvaluatedTwice | module/classicvm/classicvm.h:344-352 | for every well-typed operand and state: first the value of the source tree is ready, then that of the tree left behind, both on the registers at the start; both times the array and the receiver of the call are in their places, and the second time the index; each trap is the lack of a value |
| VmAccess.SecondExactly | module/classicvm/classicvm.h:344-352 | the value passed on is that of the source if and only if this is no order comparison of a literal, or that has the same outcome either way round |
| VmAccess.SecondOnKonoha | module/classicvm/classicvm.h:344-352 | on 64-bit words, of an order comparison of a literal k with r: if and only if r is k |
| VmAccess.CalledWithBoth | module/classicvm/classicvm.h:344-352 | a.set(-1, o.f(1 < x)) has o and false ready for f and, once f has returned, o and true, when x is 0 |
| VmBranch.StepCompare | src/vm/vm.h:792-803 | the fused jump asks what the comparison would have written |
| VmBranch.FusionKeeps | module/classicvm/classicvm.h:29-80 | for every chain of trailing negations ending in an integer or floating-point comparison or not, from every state: same way out up to the swap returned, same registers outside the chain, same traps |
| VmChain.EndsInNegations | module/classicvm/classicvm.h:29-80 | every block is one at which fusion stops, or one that ends in a comparison, followed by negations |
| VmChain.NotsTruth | src/vm/vm.h:285 | after negations run, each register has the truth value of its source, found by following back the ones that write it |
| VmChain.FusesNots | module/classicvm/classicvm.h:29-80 | fusion goes through all negations at the end, to the register found by following back each one |
| VmChain.NotsKept | module/classicvm/classicvm.h:29-80 | from a state, fusing negations behind a block keeps the way out exactly if the block traps or both sources have the same truth value |
| VmChain.CompareKeptIf | module/classicvm/classicvm.h:29-80 | from a state, fusing a comparison with negations keeps the way out exactly if the block before traps or the outcome, so negated, is that of the real source |
| VmChain.NegationsExactly | module/classicvm/classicvm.h:29-80 | fusing a whole run of negations keeps the way out, after any block at which fusion stops and from every state, if and only if the source taken is the real one, register and parity |
| VmChain.ComparisonExactly | module/classicvm/classicvm.h:29-80 | fusing a comparison and the negations after it keeps the way out, after any block and from every state, if and only if the real source is what the comparison writes, with the parity taken |
| VmChain.ChainIsRight | module/classicvm/classicvm.h:29-80 | that is so if each negation writes the register read next |
| VmChain.RightUnchained | module/classicvm/classicvm.h:29-80 | and of b = !a; c = !b with a jump on a, which is no such chain |
| VmBranch.FusedExactly | module/classicvm/classicvm.h:29-80 | taking up one instruction keeps the way out, after any block and from every state, if and only if it writes the register the jump reads |
| VmBranch.ComparisonLast | module/classicvm/classicvm.h:439-466 | code for a comparison ends in the comparison that writes the result, or in a move of it |
| VmBranch.ConditionalJump | src/vm/asm.c:503-531 | whatever code comes before, a compiled and fused condition, an integer comparison or a slot with a truth value, leads to the label exactly if it has the truth value asked for |
| VmBranch.ClassicAsmJMPF | module/classicvm/classicvm.h:29-80 | the loop in place is the fusion, and terminates |
| VmBranch.BuildAsmJMPF | src/vm/asm.c:126-139 | with the jump added where nothing was fused |
| VmBranch.ExprAsmJMPIF | src/vm/asm.c:524-531 | the whole of a conditional jump: condition, negation, fused jump |
| VmMachine.FlipApply | src/vm/vm.h:770-814 | the methods that the compiler swaps commute, comparisons with their flip |
| VmMachine.SwapsExactly | module/classicvm/classicvm.h:439-449 | of the integer methods, those swapped are exactly those for which it is right for all numbers |
| VmMachine.WrapsAround | src/vm/vm.h:770-776 | sums, differences and products are the words that differ from the exact result by a multiple of 2^64 |
| VmMachine.NegationIs | src/vm/vm.h:770 | so are negations |
| VmMachine.SubUndoesAdd | src/vm/vm.h:772-775 | subtraction undoes addition |
| VmMachine.DivisionIs | src/vm/vm.h:778-792 | dividend = quotient * divisor + remainder, the remainder smaller than the divisor and with the sign of the dividend; no value exactly for a divisor of zero and the overflow |
| VmMachine.BitwiseIs | src/vm/vm.h:805-812 | every bit of the result, and the sign, is the and, or, exclusive or of the bits there |
| VmMachine.ShiftsRight | src/vm/vm.h:808-814 | a shift to the right rounds down, one to the left wraps around |
| VmMachine.OrderIs | src/vm/vm.h:792-803 | the integer comparisons are those of one total order in which each number is before the next |
| VmMachine.NaNIs | src/vm/vm.h:851-860 | of what is not a number only inequality holds |
| VmMachine.FloatOrderIs | src/vm/vm.h:851-860 | otherwise sign and then magnitude decide, and the two zeros are equal |
| VmMachine.LowByteOnly | src/vm/vm.h:792-803 | a truth value takes the low byte of a word and leaves the others |
| VmMachine.KonohaIsLawful | src/vm/vm.h:770-814 | 64-bit words have what the compiler relies on |
| VmMachine.KonohaCompares | src/vm/vm.h:792-803 | comparisons, of integers and of binary64 numbers, always give a truth value |
| VmMachine.KonohaSeparates | src/vm/vm.h:792-803 | of every comparison, with a number or of a word with itself, some word has the truth value of the outcome and some word has not |
| VmMachine.SwappedOnKonoha | module/classicvm/classicvm.h:291-306 | on 64-bit words the tree left by an order comparison with a literal on the left means the same if and only if the right operand has no value or is that literal |
| VmMachine.CompiledTwiceMeansOther | module/classicvm/classicvm.h:291-306 | compiled a second time, 1 < x is found true of x == 0 |
| VmMachine.ZeroDivisorOnKonoha | module/classicvm/classicvm.h:449-455 | x / 0 has no value, and its code leaves x |
| Utf8.FlattenChars | package/konoha.string/string_glue.h:39-54 | the characters of a text put together are the text |
| Utf8.CharsFlatten | package/konoha.string/string_glue.h:39-54 | and characters put together fall apart into themselves |
| Utf8.CharsAppend | package/konoha.string/string_glue.h:39-54 | the number of characters is additive over concatenation |
| Utf8.EncodeIsChar | include/konoha2/klib.h:161-178 | every UTF-8 encoding is one character |
| Utf8.LeadsAreStarts | include/konoha2/klib.h:161-178 | the lead bytes of the table are exactly the bytes with which the encoding of some code point below 2^31 starts, with the length of that encoding |
| Utf8.TailsAreInside | include/konoha2/klib.h:161-178 | and tail bytes exactly those found further inside one |
| Utf8.EncodedText | package/konoha.string/string_glue.h:39-54 | any sequence of code points, encoded, is well-formed text with exactly these characters |
| Utf8.LeadIsBoundary | include/konoha2/klib.h:161-178 | a lead byte occurs only where a character starts |
| Utf8.ByteMatchIsCharMatch | package/konoha.string/string_glue.h:116-132 | a byte match of a non-empty text is a match of characters, at a character boundary |
| Utf8.CharMatchIsByteMatch | package/konoha.string/string_glue.h:116-132 | and the other way round |
| StringGlue.TextMlen | package/konoha.string/string_glue.h:39-54 | the number of characters of the first so many bytes |
| StringGlue.GetSize | package/konoha.string/string_glue.h:79-84 | the number of characters, also on the short cut for ASCII |
| StringGlue.FirstByteIsFirstChar | package/konoha.string/string_glue.h:116-132 | the first match by bytes is the first by characters |
| StringGlue.IndexOf | package/konoha.string/string_glue.h:116-132 | the first character index at which the needle occurs as characters, or -1 exactly if there is none |
| StringGlue.LastByteIsLastChar | package/konoha.string/string_glue.h:137-155 | the last match by bytes is the last by characters |
| StringGlue.LastIndexOf | package/konoha.string/string_glue.h:137-155 | the last such index for a non-empty needle; otherwise the exact negative result |
| StringGlue.HopNext | package/konoha.string/string_glue.h:207-212 | the lead byte at a boundary tells the next boundary, the terminator one past the end |
| StringGlue.HopOn | package/konoha.string/string_glue.h:207-212 | one more hop goes from character to character, one past the terminator, and never back, whatever memory holds there |
| StringGlue.HopEnds | package/konoha.string/string_glue.h:207-212 | so a hop ends inside the text exactly if there is a character of that number |
| StringGlue.Hop | package/konoha.string/string_glue.h:207-212 | hopping n characters, any number of them, arrives where character n starts or past the end if there is none |
| StringGlue.MGet | package/konoha.string/string_glue.h:195-216 | for every n: character n, or NULL past the end and where the 32-bit cast makes n negative |
| StringGlue.AllGot | package/konoha.string/string_glue.h:203-205 | every character can be got exactly if there are at most 2^31 |
| StringGlue.Int32Is | package/konoha.string/string_glue.h:203-205 | the cast gives the number in the range of int that differs by a multiple of 2^32 |
| StringGlue.GotRebuilds | package/konoha.string/string_glue.h:195-216 | the characters got one by one rebuild the text |
| StringGlue.MSubstring | package/konoha.string/string_glue.h:238-273 | for all offsets and lengths: exactly the bytes of the character range asked for, to the end where the length is not positive or too long; the result is text of its own with just these characters |
| StringGlue.SpacesAre | package/konoha.string/string_glue.h:160-182 | white space is space, tab, newline, vertical tab, form feed and carriage return |
| StringGlue.Trim | package/konoha.string/string_glue.h:160-182 | the text without the white space around it, and still well-formed |
| StringGlue.TrimmedOnce | package/konoha.string/string_glue.h:160-182 | there is only one such text |

## Left out

- Arena teardown, finalisers and `MODGC_destoryAllObjects`: only shutdown, without effect on later steps.
- `Kmalloc` accounting, module registration, failing `malloc`, and contexts other than the root context.
- The overflow of `1 << capacity_log2` for mark stacks beyond 2^31 entries.
- Threads: the collector stops the world, and the model is sequential.
- `ref4_tail` as a field of the first slot: the tail is passed on as a value between the two uses.
- `String2_free`: the bit it looks at is shared by linear and external strings, so no ownership follows.
- Rope.Strings.WriteText: does not model that `size` is an int, so a rope of 2^31 bytes or more.
- The flag bits below the top three of a string object, and the overlay of inline text with the right part.
- The 32-bit Mersenne Twister and the scalings of outputs to floating point and to 63 bits.
- VmCompile.ExprAsm: the other kinds of expression: `new`, null, blocks, fields, boxing, AND and OR, assignments, and
  slots of reference types.
- VmCompile.CallAsm: calls of floating-point methods, whose code has the same form, of boolean NOT, of array and
  byte-array access with `ASM_CHKIDX`, and of methods without an instruction of their own.
- VmAccess.SetAsm: array access that is not refused, whose code is that of the operands with `ASM_CHKIDX`; `Array.get`
  and `Bytes.set` refused, which differ in the operands compiled first; a value operand other than an integer
  expression or a call with one as its only argument.
- VmBranch.ConditionalJump: conditions of other kinds, such as calls, AND and OR, and comparisons of floating-point
  numbers; `FusionKeeps` holds of whatever chain their code ends in.
- VmMachine.KonohaIsLawful: floating-point arithmetic, with its rounding; only comparisons are given a meaning.
- VmPeephole.Peephole: the peephole pass over other instructions is the identity by `OthersStay`; a second pairing of
  OMOV with OMOV in the source is dead code and has no counterpart.
- Basic-block strip and join, jump resolution and the dispatch loop of the virtual machine.
- Msgc.Collector.Omalloc: sizes that do not fit the slot of their class, such as 192, and classes whose size is not
  that of the slot, which `sweep0` asserts away; `size64` gives neither up to 256 bytes.
- StringGlue.TextMlen: text that is not well-formed, on which a zero length makes the loops stall.
- Case conversion, `startsWith`, `endsWith`, `opHAS` and the ASCII paths of `get` and `substring`: single byte
  comparisons or slices.
