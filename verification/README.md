# Verified models of seven cores

Seven independent programs of the repository, each modelled in Dafny and proved against what its
documentation and tests promise. Code that works in place is modelled in place: classes, arrays and
loops, tied to specification functions; the properties are lemmas about those functions and
postconditions of those methods.

| core | modules | main results |
|---|---|---|
| Chase-Lev deque (`CPP-WorkStealing`) | `WorkStealingDeque`, `WorkStealingSafety`, `WorkStealingProgress`, `WorkStealingAnswers`, `WorkStealingPool`, `WorkStealingDrain` | every interleaving refines an atomic deque; every pushed task is delivered exactly once; every operation is wait-free, with a bound on its steps; a steal comes back empty only for cause, and a lone one brings the oldest task; a zero `pending_` means every submitted task has run; the pool never gets stuck and spends exactly five steps on each task |
| B+ tree (`Java-BTree`) | `BTree*`, `BPlusTrees` | nodes in the heap refine a finite map through splits, borrows and merges; the leaf chain is the tree's leaves; the self-check passes; the height bound |
| Allocator (`C-Allocator`) | `Alloc*`, `Allocator` | every chunk stays tiled, tagged and coalesced, every list well formed; live payloads survive every operation; bytes are conserved; the self-check, on any heap it can read through, returns 0 exactly when nothing is wrong, and a payload overrun by one word shows |
| DEFLATE (`C-Deflate`) | `Huffman*`, `Lz77`, `Lz77Chains`, `CodeLengths`, `Deflate*`, `HeaderEmit`, `Inflate*`, `SymbolCounts` | what is compressed comes back unless, by a condition on the input and the level alone, the dynamic layout is strictly the cheapest and all matches of the parse share one distance symbol other than 0; an input that meets it at every level but 0; Huffman codes are optimal unless the tree is deeper than the limit, and the halving loop ends; the layout is the smallest of the three, up to block headers its estimate leaves out; a search finds the longest match in the window unless the level's limits stop it; the decoder accepts exactly the streams of well-formed blocks, refuses corrupt lengths and reserved types, and refuses what compress wrote when any of it is cut off; **the fixed code is not that of RFC 1951**: exactly the literals from 144 on have other codes |
| Reactive signals (`Reactive-Signals`) | `SignalNet`, `SignalSteps`, `SignalGrounds`, `SignalMarks`, `Signals` | no read is ever glitched; no reaction runs twice between writes, and none without grounds: it was dirty, or a value it read has changed; a batch holds all effects back and runs each at most once at its end |
| Sequence CRDT (`JS-CRDT`) | `Rga*` | convergence under any order and duplication, clocks included; local edits splice exactly; of two characters typed at one place at the same time the higher replica's comes first everywhere; in a network of replicas nothing attached is held back for ever, and unique ids are derived |
| LSM store (`Java-LSM`) | `LsmBytes`, `WriteAheadLogs`, `BloomFilters`, `LsmTables`, `SSTableFormat`, `SSTables`, `MemTables`, `LsmRecovery`, `LsmTrees`, `LsmSession` | reads and scans agree with a plain map over every run of writes, flushes, compactions, closes and crashes; a flush happens exactly at the limit and a compaction exactly above the threshold; the Bloom filter claims exactly what its keys' bits cover; a log cut anywhere replays the whole records before the cut, and records appended behind the cut survive exactly when it falls between two records |

`Arithmetic` and `Options` are shared helpers. `dafny verify dfyconfig.toml` checks every file, with
Dafny's default settings.

## What the models assume

- **Deque.** Steps are sequentially consistent; each load, store, compare-and-swap and each slot
  copied while growing is one step. Indices and capacities are unbounded integers. Slots of a fresh
  ring hold arbitrary values. The pool model uses the atomic deque that `StepRefines` justifies.
- **B+ tree.** Keys are integers, standing for any total order (one run touches finitely many keys);
  values are an abstract type, and Java's nullable results are `Option`. The source's constructor
  rejects an order below 3.
- **Allocator.** Memory is a map of 8-byte words and addresses count words. `mmap` is a parameter:
  it fails or returns fresh page-aligned words disjoint from earlier regions, zero-filled. The chunk
  list is a sequence, newest first. `bfree` and `brealloc` are given null or a live block of this
  heap, as the C interface demands. Requests are any below 2^64, and all sizes wrap as `size_t`
  does: `BlockBytesSuffice` says exactly which requests get a block that is too small, and
  `MapBytesReach` and `Obtain` exactly when what `grow` asks the system for is. For requests from
  2^63 - 79 up to 2^64 - 32 it is: for 2^63 bytes a single page is asked for (`HalfIsTooMuch`).
  `place` then takes more than the block has, and what follows is not modelled, so `Balloc` has that
  as its one precondition on sizes. A comment at `C-Allocator/src/balloc.c:73` says the smallest
  block maps to class 0; the code maps it to class 1, and the model follows the code.
- **DEFLATE.** 32-bit sums and positions are unbounded integers (inputs below 2^31 bytes). What the
  writer leaves behind after an overflow is not specified; every caller reports the overflow. The
  token emitted after the parsing loop (`C-Deflate/src/deflate.c:185-186`) is unreachable and
  absent. `prev` starts with arbitrary content, which the parse never depends on. The 32-bit bit
  buffers never wrap: a field of up to 25 bits fits beside seven pending ones, and the format's
  longest has 16. The fixed code shares the code space among 286 symbols, as in the code, not among
  the 288 of section 3.2.6 of RFC 1951. `C-Deflate/include/deflate.h:36` promises the format of the
  RFC; the code has it in fixed blocks exactly when no literal is 144 or more (`FixedIsStandard`; a
  single such byte is an input, `OneByte`), and reads the standard's block of one byte wrongly from
  144 on (`StandardByteRead`). Both sides of the program agree. `SizeBound` covers the stored
  estimate counting one block header only.
- **Signals.** A reaction is a program that reads nodes one by one and then returns a value, with a
  bound on the reads left; it reads only nodes created before it, writes nothing and throws nothing.
  Nodes are numbered in creation order. `history` lists every call of a reaction's function; `mark`
  is its length at the last write, `since` at the outermost `BeginBatch`.
- **CRDT.** A replica on its own is given operations with unique ids (`UniqueIds`); `RgaNetwork`
  derives that, for replicas with different names that receive only operations some of them made. An
  index past the end inserts after the undefined key, which never arrives: the operation is buffered
  for ever and the text is unchanged, as in the code.
- **LSM store.** Keys are integers, standing for strings in their order, behind an encoding into
  bytes (`Coding`). Nothing is assumed of it; a key can be stored when it decodes back to itself
  (`Codable`), as every Java string does in UTF-8 that has no half surrogate pair. `RecordReadBack`
  says that no other key would come back. `LsmSession` runs a store of 64-bit keys. The directory is
  a map from generation to bytes. Bloom filter sizing, a floating-point formula, is any choice in
  range. `compact` swaps files in one step. Reopening appends behind a torn log tail without cutting
  it. `Restores` says that the log as it is gives back the write buffer; `Durable`, that it consists
  of whole records, so that what is appended will come back too. `AppendAfterCut` says exactly when
  a cut log has that property.

## Model

| member | source | states |
|---|---|---|
| WorkStealingDeque.MaskIsRemainder | CPP-WorkStealing/include/workstealing.hpp:48-49 | masking an index with capacity minus one is the remainder, for every power of two |
| WorkStealingDeque.SlotsDistinct | CPP-WorkStealing/include/workstealing.hpp:42-50 | two indices less than a capacity apart never share a slot, whatever the wrap |
| WorkStealingSafety.InitialInvariant | CPP-WorkStealing/include/workstealing.hpp:52-58 | a fresh deque with any number of thieves satisfies the invariant |
| WorkStealingSafety.PushKeepsInvariant | CPP-WorkStealing/include/workstealing.hpp:67-81 | every step of push, growing and publishing included, keeps the invariant over all threads' locals and all rings |
| WorkStealingSafety.PopKeepsInvariant | CPP-WorkStealing/include/workstealing.hpp:84-103 | so does every step of pop, the race for the last task included |
| WorkStealingSafety.StealKeepsInvariant | CPP-WorkStealing/include/workstealing.hpp:106-119 | so does every step of every thief, reading through a retired ring included |
| WorkStealingSafety.StepRefines | CPP-WorkStealing/include/workstealing.hpp:67-119 | every step is a step of an atomic double-ended queue: push at the end, pop from the end, a successful steal returns the oldest task |
| WorkStealingSafety.LiveTasksAreTheQueue | CPP-WorkStealing/include/workstealing.hpp:67-119 | the tasks in the current ring between top and the live end are the abstract queue |
| WorkStealingSafety.ExactlyOnce | CPP-WorkStealing/include/workstealing.hpp:67-119 | in every run, tasks pushed = tasks returned + tasks live + the one in flight, as multisets |
| WorkStealingProgress.OwnerNeverBlocks | CPP-WorkStealing/include/workstealing.hpp:66-103 | from every state within the invariant the owner has a next step, so it waits on no thief |
| WorkStealingProgress.ThiefNeverBlocks | CPP-WorkStealing/include/workstealing.hpp:105-119 | so has every thief, so none waits on the owner or on another |
| WorkStealingProgress.OwnerProgress | CPP-WorkStealing/include/workstealing.hpp:66-103 | each own step within push or pop lowers the number of steps left, and no step of a thief raises it |
| WorkStealingProgress.OwnerIsWaitFree | CPP-WorkStealing/include/workstealing.hpp:66-103 | in every run, push and pop end within as many own steps as the ring has slots and five more, however the thieves interleave |
| WorkStealingProgress.ThiefIsWaitFree | CPP-WorkStealing/include/workstealing.hpp:105-119 | in every run, a started steal ends within four more steps of its thief, whatever the others do |
| WorkStealingAnswers.EmptyHanded | CPP-WorkStealing/include/workstealing.hpp:105-119 | a steal returns nothing only when no task is left, or a running pop has laid claim to the last, or `top` has moved since the thief read it |
| WorkStealingAnswers.StealFailsForCause | CPP-WorkStealing/include/workstealing.hpp:105-119 | in every run: a steal during which nobody took a task, and which returns nothing, found nothing left at its end |
| WorkStealingAnswers.LoneSteal | CPP-WorkStealing/include/workstealing.hpp:105-119 | five undisturbed steps of a thief, with an idle owner and a non-empty deque, return the oldest task and move `top` by one |
| WorkStealingAnswers.GrowsWhenFull | CPP-WorkStealing/include/workstealing.hpp:67-81 | a ring is replaced only when it was full by the `top` that push read, and by one twice as big |
| WorkStealingPool.EnqueueKeepsLoad | CPP-WorkStealing/include/workstealing.hpp:182-196 | announcing a task adds it to the load and the count together; queueing it moves it within the load |
| WorkStealingPool.RunKeepsLoad | CPP-WorkStealing/include/workstealing.hpp:198-244 | fetching a task from any of the three places keeps the load; counting off removes exactly the finished task |
| WorkStealingPool.IdleMeansDone | CPP-WorkStealing/include/workstealing.hpp:163-166 | in every run the count is zero exactly when nothing is queued or in hand, and then every submitted task, spawned ones included, has completed |
| WorkStealingDrain.FindsWork | CPP-WorkStealing/include/workstealing.hpp:225-227 | a free worker gets a task exactly when some queue holds one |
| WorkStealingDrain.FiveStepsEach | CPP-WorkStealing/include/workstealing.hpp:182-244 | in every run, steps taken plus steps to come are five for each submitted task |
| WorkStealingDrain.NeverStuck | CPP-WorkStealing/include/workstealing.hpp:159-166 | while the count is not zero some thread has a step that submits nothing, and it leaves one step fewer to come: without new submissions `wait_idle` returns |
| WorkStealingDrain.DrainedMeansDone | CPP-WorkStealing/include/workstealing.hpp:163-166 | the count is zero exactly when five steps have been taken for each submitted task |
| WorkStealingDrain.LastSpawnedFirst | CPP-WorkStealing/include/workstealing.hpp:225-235 | a worker that spawns a task, ends its own and looks for the next runs the one it spawned |
| WorkStealingDrain.FirstInFirstOut | CPP-WorkStealing/include/workstealing.hpp:198-204 | in every run the tasks workers drew from the global queue, in order, followed by those still in it, are the tasks handed over, in order |
| BTreeEntries.MapDetermines | Java-BTree/src/btree/BPlusTree.java:283-297 | ascending entries are determined by the map they stand for |
| BTreeEntries.PutIsUpdate | Java-BTree/src/btree/BPlusTree.java:127-141 | sorted insertion is map update |
| BTreeEntries.RemoveIsMinus | Java-BTree/src/btree/BPlusTree.java:195-205 | sorted removal is map removal |
| BTreeEntries.BetweenIsSubMap | Java-BTree/src/btree/BPlusTree.java:284-297 | the entries between two bounds are the sub-map on them |
| BTreeInsert.SplitLeaf | Java-BTree/src/btree/BPlusTree.java:152-165 | an overfull leaf becomes two well-formed chained leaves with the same entries and a correct separator |
| BTreeInsert.SplitInternal | Java-BTree/src/btree/BPlusTree.java:167-179 | an overfull inner node becomes two with the middle key moved up, same entries, same chain |
| BTreeRebalance.BorrowFromLeft | Java-BTree/src/btree/BPlusTree.java:230-244 | borrowing mends the starved child, keeps entries, windows and chain |
| BTreeRebalance.BorrowFromRight | Java-BTree/src/btree/BPlusTree.java:246-260 | likewise from the other side |
| BTreeRebalance.MergeInto | Java-BTree/src/btree/BPlusTree.java:263-279 | merging drops one child and one separator, keeps entries, windows and chain |
| BTreeRebalance.Rebalance | Java-BTree/src/btree/BPlusTree.java:216-228 | one of the three always applies and mends the parent |
| BTreeChain.ChainOfLeaves | Java-BTree/src/btree/BPlusTree.java:263-304 | following next from the first leaf visits exactly the leaves, left to right, and spells the entries |
| BTreeInvariants.LeavesAtOneDepth | Java-BTree/src/btree/BPlusTree.java:341-344 | all leaves of a well-formed tree are at one depth |
| BTreeInvariants.PassesCheck | Java-BTree/src/btree/BPlusTree.java:346-371 | occupancy, order and separator windows checked by the self-check hold at every node |
| BTreeInvariants.HoldsAtLeast | Java-BTree/src/btree/BPlusTree.java:23-40 | a non-root subtree of height h has at least minKeys * (minKeys+1)^h entries |
| BPlusTrees.BPlusTree.constructor | Java-BTree/src/btree/BPlusTree.java:32-40 | the new tree is valid and empty |
| BPlusTrees.BPlusTree.Insert | Java-BTree/src/btree/BPlusTree.java:127-150 | recursive insertion: the subtree grows by a split at most, its entries change by exactly one put, old value and size are right |
| BPlusTrees.BPlusTree.Put | Java-BTree/src/btree/BPlusTree.java:111-121 | the map gains the binding, the previous value is returned, validity is kept |
| BPlusTrees.BPlusTree.Delete | Java-BTree/src/btree/BPlusTree.java:195-211 | recursive deletion: the subtree shrinks by at most one key in its node, its entries lose exactly the key |
| BPlusTrees.BPlusTree.Remove | Java-BTree/src/btree/BPlusTree.java:184-191 | the map loses the key, the removed value is returned, validity is kept |
| BPlusTrees.BPlusTree.Get | Java-BTree/src/btree/BPlusTree.java:62-71 | lookup in the map |
| BPlusTrees.BPlusTree.ContainsKey | Java-BTree/src/btree/BPlusTree.java:73-80 | membership in the map |
| BPlusTrees.BPlusTree.LeafFor | Java-BTree/src/btree/BPlusTree.java:301-305 | all leaves before the one found hold smaller keys only, all behind it greater ones |
| BPlusTrees.BPlusTree.Range | Java-BTree/src/btree/BPlusTree.java:284-297 | exactly the sub-map on the half-open range, in key order |
| BPlusTrees.BPlusTree.AllEntries | Java-BTree/src/btree/BPlusTree.java:299-299 | the whole map in key order |
| BPlusTrees.BPlusTree.Height | Java-BTree/src/btree/BPlusTree.java:84-88 | the height, and size >= 2 * minKeys * (minKeys+1)^(h-2) from height 2 on |
| BPlusTrees.SizeIsCount | Java-BTree/src/btree/BPlusTree.java:82-82 | the size field is the number of bindings |
| BPlusTrees.InvariantsHold | Java-BTree/src/btree/BPlusTree.java:317-339 | in every valid state the self-check finds nothing: depths, nodes, chain order and count |
| BPlusTrees.HoldsAtHeight | Java-BTree/src/btree/BPlusTree.java:84-88 | the least number of entries at a given height |
| AllocSizes.AlignUpReaches | C-Allocator/src/balloc.c:39-39 | ALIGN_UP never goes below its argument, for any alignment, power of two or not |
| AllocSizes.AlignUpMultiple | C-Allocator/src/balloc.c:39-39 | when a power of two divides the alignment it divides the result |
| AllocSizes.BlockBytesSuffice | C-Allocator/src/balloc.c:220-223 | with 64-bit wrap-around, the block has room for the request if and only if the request is at most 2^64 - 32 |
| AllocSizes.BlockBytesLeast | C-Allocator/src/balloc.c:222-223 | no smaller aligned block would do |
| AllocSizes.MapBytesReach | C-Allocator/src/balloc.c:143-144 | in 64-bit arithmetic, for every block size: whole pages are asked for; they hold block and frame if and only if the rounding does not wrap, that is up to 2^63 - 56; beyond, less than the block is asked for |
| AllocSizes.MapBytesLeast | C-Allocator/src/balloc.c:143-144 | for a block below one mebibyte one is asked for, or two when the frame does not fit the first; for a larger one less than twice itself and a page or so |
| AllocSizes.MappableIs | C-Allocator/src/balloc.c:143-144 | the same for requests: what `grow` asks for suffices if and only if the request is at most 2^63 - 80 or above 2^64 - 32 |
| AllocSizes.HalfIsTooMuch | C-Allocator/src/balloc.c:143-144 | for a request of 2^63 bytes the block is 2^63 + 16, and one page is asked for |
| AllocSizes.CopyFits | C-Allocator/src/balloc.c:254-264 | the payload that `brealloc` copies fits the block asked for if and only if the request is at most 2^64 - 32 or the payload 16 bytes |
| AllocSizes.CallocFits | C-Allocator/src/balloc.c:246-252 | the overflow check of `bcalloc` refuses exactly the products that do not fit 64 bits; of those that pass, the fill fits the block if and only if the product is at most 2^64 - 32 |
| AllocSizes.CallocOverruns | C-Allocator/src/balloc.c:246-252 | one member of 2^64 - 1 bytes passes the check and gets the smallest block |
| AllocLists.InsertKeeps | C-Allocator/src/balloc.c:78-84 | pushing a node keeps all class lists doubly linked and disjoint |
| AllocLists.RemoveKeeps | C-Allocator/src/balloc.c:86-91 | unlinking a node anywhere keeps all class lists doubly linked and disjoint |
| AllocHeap.ClassesGrow | C-Allocator/src/balloc.c:71-76 | a bigger block is never filed under a smaller class |
| AllocLayout.ChunkTiled | C-Allocator/src/balloc.c:290-308 | walking by block sizes from the first payload arrives exactly at the epilogue |
| AllocLayout.FusedLaid | C-Allocator/src/balloc.c:106-136 | merging neighbours keeps every chunk tiled |
| AllocLayout.PartedLaid | C-Allocator/src/balloc.c:199-204 | splitting a block keeps every chunk tiled |
| AllocSteps.NextTag | C-Allocator/src/balloc.c:108-108 | the word behind a block is its neighbour's header, or the epilogue, which counts as used |
| AllocSteps.PrevTag | C-Allocator/src/balloc.c:107-107 | the word before a header leads, through the prologue, to itself, or to the free block before |
| AllocStats.HeapConserved | C-Allocator/src/balloc.c:142-244 | mapped bytes = bytes in use + bytes free + 16 per block + 32 per chunk |
| AllocLive.PayloadsDisjoint | C-Allocator/src/balloc.c:193-216 | payloads of different live blocks share no word and lie inside mapped regions |
| Allocator.Arena.ListInsert | C-Allocator/src/balloc.c:78-84 | the node is filed in its class and everything else stays |
| Allocator.Arena.ListRemove | C-Allocator/src/balloc.c:86-91 | the node leaves its class and everything else stays |
| Allocator.Arena.Coalesce | C-Allocator/src/balloc.c:106-136 | after freeing, the four cases leave no two free neighbours, exact tiling, and the same live blocks and payloads |
| Allocator.Arena.Grow | C-Allocator/src/balloc.c:142-179 | for every block size, a fresh region becomes one listed free block, framed, and nothing live changes; the block is big enough if and only if the sums did not wrap; on failure nothing changes |
| Allocator.Arena.FindFit | C-Allocator/src/balloc.c:183-189 | a free block of at least the size, or a proof that there is none |
| Allocator.Arena.Place | C-Allocator/src/balloc.c:193-216 | the block is taken, split exactly when the rest can stand alone; other live blocks stay |
| Allocator.Arena.Obtain | C-Allocator/src/balloc.c:225-229 | for every block size and every answer of the system: a free block, or none exactly when nothing fits and mapping fails; the block is big enough if and only if it came from the lists or the sums of `grow` did not wrap |
| Allocator.Arena.Balloc | C-Allocator/src/balloc.c:220-231 | null exactly for size 0 or when nothing fits and mapping fails; else a new live block at a multiple of 16, less than 32 bytes above the least that would do, with room if and only if the request is at most 2^64 - 32; the heap grows only when nothing fits |
| Allocator.Arena.Bfree | C-Allocator/src/balloc.c:233-244 | the block is no longer live, all others are as they were, payloads included |
| Allocator.Arena.Brealloc | C-Allocator/src/balloc.c:254-264 | keeps a block that is big enough, else moves it with its whole payload; null exactly as documented, and then nothing is lost |
| Allocator.Arena.Write | C-Allocator/src/balloc.c:4-10 | a caller storing into its own payload disturbs no invariant and no other payload |
| Allocator.Arena.GetStats | C-Allocator/src/balloc.c:266-266 | the counters count the blocks and account for every byte |
| Allocator.Arena.OnFreeList | C-Allocator/src/balloc.c:283-288 | decides whether a block is on some class list, on any heap whose lists end |
| Allocator.Arena.Check | C-Allocator/src/balloc.c:290-316 | on any heap whose walks and lists end, sound or not: 0 if and only if every block is aligned, alike in both tags, big enough, listed if free and not behind a free one, and no listed block is in use; any other answer is the code of the first fault of the first block at fault in the first such chunk, or else of a listed block in use |
| Allocator.ValidIsSane | C-Allocator/src/balloc.c:290-316 | in every reachable state the self-check gets through, meets every block and finds nothing |
| AllocCheck.SoundIsSane | C-Allocator/src/balloc.c:290-316 | the same of any sound heap |
| AllocCheck.OverrunShows | C-Allocator/ARCHITECTURE.md:45-53 | the word behind any payload overwritten with anything else leaves a heap that can be read through and is not sane |
| DeflateBits.BitWriter.PutBits | C-Deflate/src/bits.c:19-35 | the stream gains exactly the low bits of the value, least significant first; the 32-bit buffer holds every field of up to 25 bits |
| DeflateBits.BitWriter.PutCode | C-Deflate/src/bits.c:37-47 | the stream gains exactly the code, most significant bit first |
| DeflateBits.BitWriter.Finish | C-Deflate/src/bits.c:49-58 | without overflow the bytes out are the stream, padded to a whole byte |
| DeflateBits.BitReader.TakeBits | C-Deflate/src/bits.c:68-87 | the next bits of the stream as a number, underflow latched exactly when they run out |
| DeflateTables.LengthCovered | C-Deflate/src/bits.c:97-128 | every match length falls into the row of its code |
| DeflateTables.DistanceCovered | C-Deflate/src/bits.c:105-136 | every distance falls into the row of its code |
| DeflateTables.LengthRule | C-Deflate/src/bits.c:97-104 | the length table is that of section 3.2.5 of RFC 1951: each row starts where the one before ends, four rows share a width, 258 has its own |
| DeflateTables.DistanceRule | C-Deflate/src/bits.c:105-113 | so is the distance table, two rows to a width |
| DeflateTables.OrderRule | C-Deflate/src/bits.c:116-118 | the code-length lengths come in the order of section 3.2.7 |
| HuffmanOptimality.MergeKeepsOptimum | C-Deflate/src/huffman.c:52-68 | the exchange argument: any code can be turned, at no cost, into one for the merged weights |
| HuffmanOptimality.GreedyIsOptimal | C-Deflate/src/huffman.c:52-68 | no length assignment satisfying Kraft's inequality costs less than the greedy merges |
| HuffmanDepth.AlphabetsFit | C-Deflate/src/huffman.c:93-117 | all-ones frequencies over 286 and 19 symbols stay within 15 and 7 bits |
| HuffmanLengths.TreeGivesCode | C-Deflate/src/huffman.c:52-91 | the leaf depths of the greedy tree are a complete code of least cost |
| HuffmanLengths.CodeIsLimited | C-Deflate/src/huffman.c:93-117 | halving ends, for every frequency list whose alphabet fits the limit; with two used symbols each gets 1..limit bits and Kraft's sum is exactly 1; a lone symbol gets a bit only if it is symbol 0 |
| HuffmanLengths.CodeIsOptimal | C-Deflate/src/huffman.c:93-117 | when the greedy tree is no deeper than the limit, no code over the used symbols costs less |
| HuffmanBuild.BuildOnce | C-Deflate/src/huffman.c:26-91 | heap, merges and the stack walk compute the leaf depths of the greedy tree and, as the greatest length, exactly its depth |
| HuffmanBuild.BuildLengths | C-Deflate/src/huffman.c:93-117 | the halving loop computes the specified lengths: within the limit, complete, and optimal whenever the tree over the frequencies is no deeper than the limit |
| HuffmanKraft.CompleteIsAccepted | C-Deflate/src/huffman.c:141-159 | what the encoder builds the decoder accepts, with nothing unassigned |
| HuffmanCodes.PrefixFree | C-Deflate/src/huffman.c:121-137 | accepted lengths give prefix-free canonical codes |
| HuffmanCodes.DecodeReadsBack | C-Deflate/src/huffman.c:171-188 | decoding reads back the symbol whose code was written, whatever follows |
| HuffmanCodes.AssignCodes | C-Deflate/src/huffman.c:121-137 | the counting loops assign the canonical code of every symbol |
| HuffmanCodes.HuffDecoder.Build | C-Deflate/src/huffman.c:141-169 | accepts exactly the lengths that are not over-subscribed, and is then ready to decode them |
| HuffmanCodes.HuffDecoder.Decode | C-Deflate/src/huffman.c:171-188 | the bit-by-bit walk computes the decoding function |
| Lz77.MatchAtOk | C-Deflate/src/deflate.c:58-106 | a match is real, 3..258 long, within the window and before the position |
| Lz77.LongestIsFound | C-Deflate/src/deflate.c:58-106 | nothing in the window repeats for longer than the match found, nor as long and nearer, unless more positions share the hash than the level looks at or the match is good enough to stop |
| Lz77.TokensSpell | C-Deflate/src/deflate.c:109-190 | greedy or lazy, at every level, the tokens of the parse spell the whole input |
| Lz77.TokensFollow | C-Deflate/src/deflate.c:109-190 | greedy or lazy, with whatever is held back, the token at a position is the match found there, or the byte itself when there is none or when the level is lazy and a longer match begins at the next byte |
| Lz77Chains.FindMatch | C-Deflate/src/deflate.c:58-106 | walking the hash chains in the two arrays finds the match that the bytes before the position determine, whatever stale entries the arrays hold |
| Lz77Chains.Parse | C-Deflate/src/deflate.c:109-190 | the parse over the arrays computes exactly the tokens that input and level determine |
| Lz77.SpelledExpands | C-Deflate/src/inflate.c:137-142 | tokens that spell an input expand, byte at a time, to exactly it, and are at most as many as its bytes |
| CodeLengths.ItemsUnpack | C-Deflate/src/deflate.c:226-259 | the run-length items of any lengths unpack to those lengths |
| CodeLengths.ZerosAreShort | C-Deflate/src/deflate.c:234-245 | a run of zeros takes one item for every 138, and two more at most |
| CodeLengths.RepeatsAreShort | C-Deflate/src/deflate.c:246-256 | a repeated length takes one item for every 6 repeats, and two more at most |
| CodeLengths.Pack | C-Deflate/src/deflate.c:226-259 | the loop produces exactly those items |
| DeflateHeader.ReadsHeader | C-Deflate/src/inflate.c:11-56 | a dynamic header reads back to the two codes it was written for, whatever follows |
| DeflateFixed.FixedLitAccepted | C-Deflate/src/deflate.c:212-219 | the fixed code over 286 symbols is accepted, four nine-bit codes short of complete |
| DeflateFixed.FixedCodes | C-Deflate/src/deflate.c:212-219 | the code of a literal or length is that of section 3.2.6 of RFC 1951, but for the literals from 144 to 255, whose codes are four lower |
| DeflateFixed.FixedDistCodes | C-Deflate/src/deflate.c:212-219 | the code of a distance symbol is its number, in five bits |
| DeflateStandard.FixedIsStandard | C-Deflate/include/deflate.h:36-42 | a fixed block is bit for bit the one of RFC 1951 if and only if it has no literal from 144 on; it is as long in any case |
| DeflateStandard.OneByte | C-Deflate/src/deflate.c:415-440 | any single byte goes into a fixed block at every level but 0; the bits are the standard's if and only if it is below 144, and then these |
| DeflateStandard.StandardByteRead | C-Deflate/src/inflate.c:59-146 | the standard's block for a byte is read as that byte below 144, as the byte four further up to 251, and refused beyond |
| DeflateEmit.TokenCost | C-Deflate/src/deflate.c:263-278 | the cost computed before emission is the number of bits emitted |
| HeaderEmit.HeaderCost | C-Deflate/src/deflate.c:407-413 | likewise for the dynamic header |
| DeflateEmit.EmitTokens | C-Deflate/src/deflate.c:282-302 | the writer gains exactly the bits of the block |
| DeflateStored.EmitAllStored | C-Deflate/src/deflate.c:304-315 | stored blocks of at most 65535 bytes, the last one final |
| DeflateDynamic.DynamicIsValid | C-Deflate/src/deflate.c:368-406 | the dynamic candidate for any tokens of an input is a valid layout with accepted codes |
| DeflateDynamic.DynamicIsOptimal | C-Deflate/src/deflate.c:368-379 | its two codes are optimal for the token frequencies when their trees are at most 15 deep |
| DeflateDynamic.ClIsOptimal | C-Deflate/src/deflate.c:380-406 | the code for the code lengths is optimal for the items written with it when its tree is at most 7 deep |
| DeflateDynamic.LoneMeans | C-Deflate/src/deflate.c:374-379 | a single used distance other than symbol 0, in terms of the tokens: there are matches and all share one such symbol |
| DeflatePrepare.PrepareDynamic | C-Deflate/src/deflate.c:368-406 | counting, building and packing compute exactly the dynamic candidate for the tokens, with optimal codes when the trees are at most 15 deep |
| InflateHeader.ReadDynamicHeader | C-Deflate/src/inflate.c:11-56 | the loops compute the header function, errors included |
| InflateStream.Decompress | C-Deflate/src/inflate.c:70-146 | the decoder delivers what the bits mean; DF_ERR_OUTPUT exactly when that does not fit, and an error whenever they mean nothing |
| DeflateLanguage.InflateAcceptsExactly | C-Deflate/src/inflate.c:70-146 | bits mean data if and only if they are a sequence of well-formed blocks, the last one final, that spell it: stored with a right complement, fixed, or dynamic with an acceptable header |
| DeflateLanguage.DecodeSound | C-Deflate/src/huffman.c:171-188 | a symbol is read only where its code stands |
| DeflateLanguage.HeaderSound | C-Deflate/src/inflate.c:11-56 | a dynamic header is read only from the bits of a well-formed header |
| DeflateLanguage.BlockSound | C-Deflate/src/inflate.c:79-146 | a block is read only from the bits of a well-formed block of its type |
| DeflateLanguage.BlockRead | C-Deflate/src/inflate.c:79-146 | every well-formed block is read, whatever follows |
| DeflateRefusals.ReservedTypeRefused | C-Deflate/src/inflate.c:101-101 | behind any good blocks, one of type 3 is refused |
| DeflateRefusals.BadLengthRefused | C-Deflate/src/inflate.c:83-91 | behind any good blocks, a stored one whose length and complement do not match is refused |
| DeflateRefusals.ReservedByteRefused | C-Deflate/tests/test_deflate.c:180-183 | on the bytes: a first block of type 3 is refused |
| DeflateRefusals.BadComplementRefused | C-Deflate/tests/test_deflate.c:185-188 | on the bytes: a stored first block is refused unless its length and complement bytes add up to 255 pairwise |
| DeflateRefusals.StoredExactly | C-Deflate/src/inflate.c:79-97 | a final stored block means the bytes announced if the complement is right and they are all there, and nothing otherwise |
| DeflateRefusals.CutRefused | C-Deflate/tests/test_deflate.c:190-196 | a well-formed stream cut anywhere before its last byte is refused |
| DeflateRefusals.CutCompressedRefused | C-Deflate/tests/test_deflate.c:190-196 | so is every proper prefix of what compress wrote, for every input and level not of the lost kind |
| DeflateRoundTrip.RoundTripExactly | C-Deflate/src/deflate.c:323-460 | a valid layout decompresses to the input if and only if it is not a dynamic one whose only distance symbol is not symbol 0 |
| DeflateStream.PlanIsValid | C-Deflate/src/deflate.c:323-460 | the layout that input and level determine is valid |
| DeflateStream.SmallestIsChosen | C-Deflate/src/deflate.c:415-440 | its bytes are no more than those of the stored, the fixed and the dynamic layout; a stored one may exceed the others by the block headers after the first, which the estimate leaves out |
| DeflateStream.SmallestOfAll | C-Deflate/src/deflate.c:415-440 | up to 65535 bytes none of the three is smaller, and none is above the input and five bytes |
| DeflateStream.UncompressedSize | C-Deflate/src/deflate.c:323-345 | at level 0, or with nothing to compress, the size is the input and five bytes for each block; a level out of range means level 6 |
| DeflateStream.LostIsLossy | C-Deflate/src/deflate.c:415-440 | that layout is lossy if and only if all matches of the parse share one distance symbol other than 0 and the dynamic layout is strictly cheaper than both others |
| DeflateStream.Compress | C-Deflate/src/deflate.c:323-460 | the bytes out are the layout that input and level determine, whole, or an error when they do not fit |
| DeflateStream.SizeBound | C-Deflate/src/deflate.c:317-321 | no output exceeds the documented bound, stored blocks included |
| DeflateStream.EmittedRoundTrip | C-Deflate/src/inflate.c:70-146 | what compress emitted means the input if and only if input and level are not of the lost kind |
| DeflateSession.CompressThenDecompress | C-Deflate/tests/test_deflate.c:1-60 | with documented buffer sizes, for every input and level the input comes back if and only if it is not of the lost kind at that level |
| DeflateLossy.LossyInput | C-Deflate/src/deflate.c:374-379 | 2066 alternating bytes are of the lost kind at every level but 0: the layout compress picks for them does not decompress to them |
| SignalNet.CleanIsTrue | Reactive-Signals/src/signals.js:74-82 | a clean node holds the value its program denotes under the current signals |
| SignalNet.TruthAgrees | Reactive-Signals/src/signals.js:74-82 | that value depends on signal values only, not on caches or history |
| Signals.Graph.Fetch | Reactive-Signals/src/signals.js:74-82 | a tracked read records the edge, brings the node up to date and returns its value |
| Signals.Graph.UpdateIfNecessary | Reactive-Signals/src/signals.js:113-126 | the node ends clean; a clean one is left alone, a dirty one is run; everything settled stays settled; nothing runs twice, and nothing without grounds |
| Signals.Graph.Update | Reactive-Signals/src/signals.js:129-164 | one recomputation with fresh dependencies; the readers become stale only if the value has changed |
| Signals.Graph.RunReaction | Reactive-Signals/src/signals.js:138-149 | the run reads exactly its recorded sources, each clean when the run ends, and is entered in the history once |
| SignalGrounds.GroundsTwice | Reactive-Signals/src/signals.js:113-126 | reruns with grounds compose: a reaction that runs was dirty at the beginning, or a value it had read has changed since |
| SignalGrounds.ReturnedGrounds | Reactive-Signals/src/signals.js:156-164 | the equality cutoff: a node becomes dirty only when a value it read has changed |
| SignalGrounds.WrittenGrounds | Reactive-Signals/src/signals.js:86-93 | a write to a signal is grounds for its readers |
| SignalGrounds.EffectsRanOnce | Reactive-Signals/src/signals.js:251-260 | effects held back since a batch began run at most once each when it ends |
| Signals.Graph.MarkStale | Reactive-Signals/src/signals.js:104-110 | staleness only grows and reaches every transitive observer; the queue holds exactly the stale effects, each once |
| Signals.Graph.Set | Reactive-Signals/src/signals.js:86-93 | the signal has the new value and no other changes; an equal value changes nothing at all; inside a batch nothing runs and values other than this one stay; what runs outside one has grounds, and nothing runs in a graph without effects |
| Signals.Graph.Read | Reactive-Signals/src/signals.js:74-82 | every read returns the node's true value: no glitch; reading a clean node changes nothing; what runs was stale and had grounds |
| Signals.Graph.Flush | Reactive-Signals/src/signals.js:190-199 | inside a batch, or with an empty queue, nothing at all changes; outside one the queued effects settle and the queue ends empty |
| Signals.Graph.BeginBatch | Reactive-Signals/src/signals.js:253-254 | nothing changes but the depth; the outermost one marks where the batch begins |
| Signals.Graph.EndBatch | Reactive-Signals/src/signals.js:256-260 | no effect has run since the outermost `BeginBatch`; leaving an inner batch changes nothing but the depth; leaving the outermost settles every effect, and each has then run at most once since the batch began |
| Signals.Graph.NewSignal | Reactive-Signals/src/signals.js:204-210 | one clean node with the value and no edges more; values, states and edges of the others stay |
| Signals.Graph.NewComputed | Reactive-Signals/src/signals.js:213-226 | likewise a dirty node, not yet computed |
| Signals.Graph.NewEffect | Reactive-Signals/src/signals.js:233-236 | one node more; outside a batch its function is called and it ends clean; inside one nothing runs and it is queued last; no signal changes |
| Signals.EffectsAreCurrent | Reactive-Signals/src/signals.js:190-199 | outside a batch every effect last saw the current truth |
| Signals.StalenessIsKnown | Reactive-Signals/src/signals.js:97-110 | at every quiet point a non-clean node has only non-clean observers |
| RgaOrder.SortedIsUnique | JS-CRDT/src/rga.js:21-24 | the sibling order is total: one sorted list for each set of ids |
| RgaTree.OrderedIsAll | JS-CRDT/src/rga.js:91-109 | the depth-first walk visits every node exactly once |
| RgaInsert.OrderedGains | JS-CRDT/src/rga.js:91-109 | a new node splices into the order at one point; the newest lands right behind its predecessor |
| RgaDelivery.BlockedIs | JS-CRDT/src/rga.js:77-87 | the buffered operations are exactly the seen ones whose dependency is absent |
| RgaDelivery.SeenSettles | JS-CRDT/src/rga.js:56-87 | the set of seen operations determines the nodes and what is blocked |
| RgaText.InsertShows | JS-CRDT/src/rga.js:36-43 | an insert with a dominating id splices its value, and its id, at the index |
| RgaText.TypedTogether | JS-CRDT/src/rga.js:20-24 | of two characters inserted at one place by replicas unaware of each other, that of the higher clock comes first, or at equal clocks that of the higher replica, whichever is applied first |
| RgaText.DeleteShows | JS-CRDT/src/rga.js:45-52 | a tombstone removes exactly the character at the index |
| RgaReplica.Replica.Receive | JS-CRDT/src/rga.js:56-75 | any operation, in any order, repeated or not, keeps the replica sound; the clock becomes the greater of its own and the operation's |
| RgaReplica.Replica.Apply | JS-CRDT/src/rga.js:56-75 | the recursive cascade ends and applies every operation it unblocks |
| RgaReplica.Replica.Flush | JS-CRDT/src/rga.js:82-87 | nothing that waited for the key stays behind |
| RgaReplica.Replica.DocumentOrder | JS-CRDT/src/rga.js:91-109 | grouping, sorting and walking compute the specified order |
| RgaReplica.Replica.ToArray | JS-CRDT/src/rga.js:115-117 | the values of the nodes in document order, tombstones left out |
| RgaReplica.Replica.InsertAt | JS-CRDT/src/rga.js:36-43 | one operation with a fresh id is made and seen; the text is spliced at an index within it, when nothing seen refers to the fresh id; past the end the text stays and the operation waits for ever |
| RgaReplica.Replica.DeleteAt | JS-CRDT/src/rga.js:45-52 | the text without the character, or no operation when there is none |
| RgaReplica.Convergence | JS-CRDT/src/rga.js:10-14 | replicas that have seen the same operations hold equal nodes, equal clocks, the same blocked operations and the same text |
| RgaReplica.NothingWaitsInVain | JS-CRDT/src/rga.js:77-87 | no operation waits for a node that is present |
| RgaNetwork.Network.Deliver | JS-CRDT/src/rga.js:56-75 | any operation made may reach any replica at any time; ids stay unique, and no clock falls behind the operations made in its replica's name |
| RgaNetwork.Network.InsertAt | JS-CRDT/src/rga.js:36-43 | at any replica of a network, whatever it has received, typing at an index within its text splices exactly there |
| RgaNetwork.Network.TypeTogether | JS-CRDT/tests/rga.test.js:55-63 | two replicas that have seen the same type at one place and then hear of each other: both show the two characters there, that of the higher replica first |
| RgaNetwork.Network.DeleteAt | JS-CRDT/src/rga.js:45-52 | deleting at an index within the text removes exactly that character; elsewhere nothing happens |
| RgaNetwork.NothingHeldBack | JS-CRDT/src/rga.js:77-87 | a replica that has seen every operation made holds back exactly those inserted past the end of a text |
| RgaNetwork.AllAgree | JS-CRDT/src/rga.js:10-14 | replicas that have seen every operation made show the same text |
| LsmBytes.NumRoundTrip | Java-LSM/src/lsm/SSTable.java:62-100 | big-endian numbers read back |
| LsmBytes.FirstWeighsMost | Java-LSM/src/lsm/SSTable.java:62-100 | the first byte of a number weighs most |
| WriteAheadLogs.RecordReadBack | Java-LSM/src/lsm/WriteAheadLog.java:37-47 | a record followed by anything is read back, and nothing behind it is touched; it gives the operation written if and only if the key survives the coding |
| WriteAheadLogs.TornRecordStops | Java-LSM/src/lsm/WriteAheadLog.java:65-99 | any proper part of a record is recognised as torn |
| WriteAheadLogs.WholeBeforeIs | Java-LSM/src/lsm/WriteAheadLog.java:65-99 | the number of records wholly before a cut is well defined: the cut falls before the end of the next |
| WriteAheadLogs.CutReplays | Java-LSM/src/lsm/WriteAheadLog.java:65-99 | a log cut at any byte replays exactly the records wholly before the cut |
| WriteAheadLogs.TornTailSwallows | Java-LSM/src/lsm/WriteAheadLog.java:32-35 | behind any non-empty part of any record, some record does not come back on its own: the opposite operation on the same key |
| WriteAheadLogs.AppendAfterCut | Java-LSM/src/lsm/WriteAheadLog.java:65-99 | every record appended to a cut log comes back, behind the whole records before the cut, if and only if the cut falls between two records |
| WriteAheadLogs.WriteAheadLog.Append | Java-LSM/src/lsm/WriteAheadLog.java:37-47 | the file gains exactly one record |
| WriteAheadLogs.WriteAheadLog.Replay | Java-LSM/src/lsm/WriteAheadLog.java:65-99 | the reading loop computes the replay function, corrupt lengths included |
| BloomFilters.AddKeepsClaims | Java-LSM/src/lsm/BloomFilter.java:45-62 | an added key is claimed, and so is every key claimed before: no false negatives |
| BloomFilters.BitsOfKeys | Java-LSM/src/lsm/BloomFilter.java:45-52 | a bit is set exactly when some hash of some added key stands for it |
| BloomFilters.ClaimsExactly | Java-LSM/src/lsm/BloomFilter.java:54-62 | a key is claimed exactly when each of its hashes stands for such a bit |
| BloomFilters.BloomFilter.Add | Java-LSM/src/lsm/BloomFilter.java:45-52 | in place, exactly the hashed bits are set |
| BloomFilters.MightContain | Java-LSM/src/lsm/BloomFilter.java:54-62 | true exactly when all hashed bits are set |
| SSTables.Write | Java-LSM/src/lsm/SSTable.java:62-100 | the bytes are the documented layout, with every 64th entry indexed and the filter of exactly the keys written |
| SSTables.SSTable.constructor | Java-LSM/src/lsm/SSTable.java:104-132 | opening written bytes recovers index, filter and sizes |
| SSTables.SSTable.Get | Java-LSM/src/lsm/SSTable.java:134-152 | exactly the key's value, tombstone or absence, after reading at most 65 entries, and none when the filter rejects the key |
| SSTables.SSTable.Range | Java-LSM/src/lsm/SSTable.java:155-173 | exactly the entries in the half-open range, in order |
| SSTables.PickedIs | Java-LSM/src/lsm/SSTable.java:155-173 | those entries are the table restricted to the range |
| SSTableFormat.FloorIsLast | Java-LSM/src/lsm/SSTable.java:138-139 | every mark behind the floor has a greater key |
| LsmTables.FirstDecides | Java-LSM/src/lsm/LsmTree.java:83-90 | the newest table that has a key decides it |
| LsmTables.AliveSame | Java-LSM/src/lsm/LsmTree.java:142-161 | dropping tombstones from the oldest layer changes no visible binding |
| LsmTables.AscendingUnique | Java-LSM/src/lsm/LsmTree.java:99-113 | a scan's result is determined by the map it stands for |
| MemTables.MemTable.Update | Java-LSM/src/lsm/MemTable.java:23-31 | the record is replaced and the running size stays the exact total |
| LsmTrees.LsmTree.Get | Java-LSM/src/lsm/LsmTree.java:83-90 | lookup in the plain map |
| LsmTrees.LsmTree.Scan | Java-LSM/src/lsm/LsmTree.java:99-113 | exactly the live bindings in the range, in key order |
| LsmTrees.LsmTree.Put | Java-LSM/src/lsm/LsmTree.java:60-68 | the plain map gains the binding, whatever flush or compaction follows; the log stays able to restore the buffer; below the limit the buffer and the log gain the record and no table changes, at the limit the buffer is flushed |
| LsmTrees.LsmTree.Delete | Java-LSM/src/lsm/LsmTree.java:70-78 | the plain map loses the key, likewise |
| LsmTrees.LsmTree.Flush | Java-LSM/src/lsm/LsmTree.java:122-134 | contents unchanged, buffer empty, log empty and to be relied on again, also behind a torn tail; one table more, or a single one when that exceeds the compaction threshold; an empty buffer changes nothing |
| LsmTrees.LsmTree.MaybeFlush | Java-LSM/src/lsm/LsmTree.java:117-119 | flushes exactly when the buffer has reached its limit |
| LsmTrees.LsmTree.MaybeCompact | Java-LSM/src/lsm/LsmTree.java:136-138 | compacts to one table exactly when there are more than the threshold, and leaves the tables alone otherwise |
| LsmTrees.LsmTree.Compact | Java-LSM/src/lsm/LsmTree.java:142-161 | one table without tombstones, contents unchanged; up to one table is left as it is |
| LsmTrees.LsmTree.constructor | Java-LSM/src/lsm/LsmTree.java:44-52 | opening any log that replays cleanly restores the tables, newest first, and the operations of the log; appended records are safe exactly when the log consists of whole records |
| LsmTrees.LsmTree.Close | Java-LSM/src/lsm/LsmTree.java:188-192 | the tables alone hold the whole contents |
| LsmTrees.CrashAndReopen | Java-LSM/src/lsm/LsmTree.java:165-201 | after a crash with the log cut anywhere, exactly the writes recorded before the cut are back; later ones are safe exactly when the cut falls between two records |
| LsmTrees.Reopen | Java-LSM/src/lsm/LsmTree.java:165-186 | opening again what a store left behind, torn tail or not, gives the same contents |
| LsmTrees.CloseAndReopen | Java-LSM/src/lsm/LsmTree.java:165-192 | after a clean close of any store the reopened one has the same contents and an empty buffer; the log is empty unless it held nothing but a torn tail |
| LsmSession.LongsCode | Java-LSM/src/lsm/LsmTree.java:60-78 | a coding of eight bytes covers exactly the 64-bit numbers, so stores exist |
| LsmSession.Session | Java-LSM/src/lsm/LsmTree.java:44-52 | from an empty directory, for any limits, keys and values: put, flush, put, delete, crash, reopen, close and reopen, then get and scan, give what a plain map would |

## Left out

- Weak memory orders, fences, condition-variable timing, random victim choice, futures, pool destruction with tasks left over.
- In the pool model a worker without tasks of its own takes from the global queue or steals, in either order, and never finds a source spuriously empty.
- `checkInvariants` is modelled by the predicates it checks on the tree (`InvariantsHold`), not by its message strings.
- `bcalloc` and `balloc_reset` as operations: a check and a fill around `balloc`, and a teardown; `CallocFits` states the check.
- Allocator.Arena.Balloc: when `grow` got a region that is too small because its sum wrapped (`Obtain` says exactly when), `place` writes outside of it; that is not modelled.
- Allocator.Arena.Brealloc: likewise, and growing a live block of more than 16 bytes to more than 2^64 - 32, where the copy overruns the new block (`CopyFits`).
- InflateStream.Decompress: which negative code is given for a stream that means nothing; the source says "corrupt" for some streams that are merely cut.
- Allocator.Arena.Check: a heap whose walk or lists do not end, or leave the mapped words.
- DeflateBits.BitWriter.PutBits: not stated for fields of more than 25 bits, whose fit depends on what is pending and which no caller writes.
- DeflateBits.BitWriter.PutCode: likewise.
- DeflateBits.BitReader.TakeBits: likewise.
- Payload copies and stores are word by word; the byte granularity of `memcpy` is not modelled.
- CRC-32, the gzip container, and out-of-memory results of `malloc` in the compressor.
- Signals: `dispose`, cleanups, `untrack`, `peek`, exceptions and writes inside reactions.
- RgaReplica.Replica.InsertAt: the splice is stated when nothing seen refers to the fresh id; `RgaNetwork.Network.InsertAt` derives that and states the splice without it.
- `toString`, `length` and the counters, sets and HyperLogLog of `JS-CRDT`.
- LsmTrees.LsmTree.Put: requires fewer than 2^30 keys in all; the source refuses tables of two gigabytes long before that, and the model has no such refusal. Keys must survive the coding: one that does not is read back as another key, as `RecordReadBack` says.
- LsmTrees.LsmTree.Delete: likewise.
- LsmTrees.LsmTree.constructor: opening a store whose log holds a corrupt length throws in the source; only logs that replay cleanly, to operations on codable keys, are opened, which covers every cut of every log the store wrote.
- SSTables.SSTable.constructor: opening table files this store did not write (bad magic, corrupt lengths).
- Crashes inside the writing of a table file or between the deletions of a compaction.
- Bloom false-positive rate and filter sizing; UTF-8 and the string order of keys.
- The remaining projects of the repository (SIMD JSON, CSV, promises, coroutines, source generator).
