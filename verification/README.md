# MBFGraph in Dafny

MBFGraph is an out-of-core graph engine: edges and vertex state live in files, and a run is a sequence of supersteps
that scatter updates along edges and gather them at vertices. Its own contribution is an index of Bloom filters, one
filter per edge page, stored bit-sliced, with which a superstep skips the pages that hold no edge of an active vertex.

This project models the engine's logic in Dafny and proves what its layers promise each other and their users. One
module follows one component of the repository. Code that works in place is written as methods on arrays and class
fields and proved against predicates and functions; the main results are lemmas about those, or contracts of the
methods that put several components together.

| file | what it models |
|---|---|
| `Bits.dfy` | shifts, masks and ors on unsigned words |
| `Bitshuffle.dfy`, `BitshufflePasses.dfy`, `BitshuffleSimd.dfy`, `BitshuffleInverse.dfy`, `BitshuffleBlocks.dfy` | the bit-matrix transpose: the 8x8 macro, the scalar passes, their register forms in both directions, the blocked wrapper on its pointer chain |
| `BloomFilters.dfy`, `BloomIndex.dfy`, `BloomQuery.dfy` | hashing, building, updating and querying the filter index |
| `PageReader.dfy` | reading only the set pages, with several reads in flight |
| `FilteredScatter.dfy`, `Bfs.dfy` | the scatter phase over the index, and breadth-first search over the superstep loop |
| `DirtySectors.dfy`, `VertexStore.dfy`, `OutOfCoreSearch.dfy` | write-back of vertex state by changed sectors, breadth-first search over vertex state kept on disk, and what the files of all superpartitions then hold |
| `PageBuffer.dfy` | the page-buffered append, flush, rewind and read path of a stream |
| `Mapping.dfy` | vertex ids to superpartition, partition and offset, and back |
| `Splitter.dfy`, `StreamIndex.dfy` | the radix splitter, the index of a memory buffer |
| `WorkFilter.dfy`, `WorkFilterProgress.dfy`, `Barrier.dfy` | the lock-free work queues, their safety and their progress; the sense-reversing barrier |
| `Graph.dfy`, `Scc.dfy`, `Mis.dfy` | paths, strongly connected components, maximal independent set |
| `ModArith.dfy`, `ModArith32.dfy`, `Mrg.dfy` | arithmetic modulo 2^31 - 1 and the skip-ahead of the generator |
| `ExternalSort.dfy` | the edge order, the merge cascade, the rounds of the external sort, and the sort of an edge list |

Main results:

- **The index loses nothing below 2^31.** `FilteredScatter.ScatterPhase` emits exactly the updates of the pages its
  query selects, from the bits of the filters through the bitset and the coalesced reads, also for edges tombstoned
  after the index was built; with ids below 2^31 these are the updates of a full scan.
- **Above 2^31 it can.** The builder reads the key into a signed `int`, the query does not.
  `FilteredScatter.LosesNothingIff` gives the exact condition for losing nothing whatever the CRC: every page but page 0
  with an edge that emits an update must hold an active source below 2^31. `FilteredScatter.WideUpdateLost` runs a
  scatter phase that loses its update, for every id from 2^31 on that is not the tombstone.
- **Breadth-first search on top of it is exact.** `Bfs.Run.Execute` and `Bfs.FinishedRun`: distances, parents, counters
  and the number of phases.
- **Out of core it is the same search.** `VertexStore.Run`: superpartitions that share one buffer and write back only
  changed sectors hold on disk, after every superstep and for any streams of updates, what a run in memory would hold.
  `OutOfCoreSearch.RunIsSearch`: when the streams are the updates out of the level before, dealt to the superpartitions
  of their children, the records of all files together are the hop distances and parents of module `Bfs`.
- **An incremental index update leaves the file a rebuild would leave** (`BloomIndex.UpdateEqualsRebuild`).
- **The bitshuffle is the transpose** in its scalar, SSE and AVX forms, and unshuffling in the same form undoes it for
  every element count (`BitshuffleBlocks.RoundTrip`).
- **The splitter and the stream index**: stable groups, exactly delimited, over any number of passes and processors; a
  partition read processor by processor is all its items in order (`StreamIndex.MemoryBuffer.ReadPartition`).
- **The protocols** (work filter, barrier) keep their promises in every interleaving of their atomic steps. A round of
  the filter returns every queued id exactly once, ends after a bounded number of steps, and a `dq` left alone returns
  the head of the first queue that has one (`WorkFilterProgress`).
- **Strongly connected components** found by label propagation are sound, and every component with an internal edge is
  found. `Scc.CountIsRightIff` says exactly when the reported count is the number of components.
- **The maximal independent set** is the greedy one, and the stop test on equal counts is sound.
- **`mrg_skip`** equals that many single steps.
- **The external sort** returns a sorted permutation, in whatever order its merges finish; `EdgeOrder.LessIsComesFirst`
  says what `operator<` compares without its loops.

## Model

| member | source | states |
|---|---|---|
| Mapping.InverseOfMaps | core/autotuner.hpp:156-170 | the three forward maps of any key, fed to `map_inverse`, give the key back |
| Mapping.MapsOfInverse | core/autotuner.hpp:156-170 | every superpartition, partition and offset in range comes back from the maps of its inverse |
| Mapping.MapsAreDigits | core/autotuner.hpp:156-166 | the superpartition is the remainder of the key, the cached partition the remainder of the quotient, the offset the rest |
| Mapping.StateCountThreshold | core/autotuner.hpp:85-96 | `state_count` is the first offset whose vertex lies at or behind the number of vertices, in both branches and with the wrap-around to 0 |
| Mapping.StateCountIsCardinality | core/autotuner.hpp:85-96 | `state_count` is the number of vertices mapped to the superpartition and partition |
| Mapping.SuperPartitionCount | core/autotuner.hpp:85-96 | the counts of the partitions of a superpartition add up to the vertices of that superpartition |
| Mapping.CountsAddUp | core/autotuner.hpp:85-96 | all counts together are the number of vertices |
| Mapping.Configuration.SetupMapping | core/autotuner.hpp:62-75 | the two shift loops find the logarithms of the powers of two |
| Mapping.Configuration.StatePrepare | core/x-lib.hpp:526-536 | every partition starts at the vertex size times the number of vertices of the superpartition in earlier partitions |
| Mapping.RecordInside | core/x-lib.hpp:526-536 | the record of every vertex of the superpartition lies within its partition's stretch of the state buffer |
| Mapping.RecordsDisjoint | core/x-lib.hpp:526-536 | the records of different vertices of a superpartition do not overlap |
| Mapping.StartIsPacked | core/x-lib.hpp:526-536 | a partition's records start right behind those of all vertices of earlier partitions |
| Mapping.StateIsPacked | core/x-lib.hpp:526-536 | all partitions together fill exactly the vertex size times the vertices of the superpartition |
| Mapping.OneOwner | core/x-lib.hpp:526-536 | every byte below that lies in the record of exactly one vertex of the superpartition |
| Barrier.BarrierSafe | utils/barrier.h:29-44 | in every interleaving a thread that has left its k-th wait implies that all have entered theirs, and no two threads are more than one episode apart |
| Barrier.BarrierNeverStuck | utils/barrier.h:29-44 | every reachable state in which some thread still has waits to do allows a step |
| Barrier.BarrierProgress | utils/barrier.h:29-44 | the number of steps that change something is bounded by the waits done, so the threads do get through |
| Barrier.RunInv | utils/barrier.h:29-44 | the invariant on both counters and the sense holds in every reachable state |
| WorkFilter.RunInv | core/x-splitter.hpp:59-99 | the invariant on links, queues and program counters holds along every interleaving |
| WorkFilter.ReturnedAtMostOnce | core/x-splitter.hpp:74-89 | in a round no id is returned twice by `dq`, over all processors, and none that was not queued |
| WorkFilter.NoWorkMeansAllReturned | core/x-splitter.hpp:74-89 | as soon as one processor gets no work, all visible queues are empty and every queued id has been returned exactly once, over all processors |
| WorkFilter.AllReturned | core/x-splitter.hpp:59-89 | in a state of the invariant in which one processor has got no work, the ids returned are exactly the ids queued, once each |
| WorkFilter.DoneRestores | core/x-splitter.hpp:91-99 | after `done` on every processor all entries are self-linked and all queues empty again |
| WorkFilterProgress.HomeIsResidue | core/x-splitter.hpp:61 | with a power of two queues an id belongs to the queue of its remainder |
| WorkFilterProgress.HomeBits | core/x-splitter.hpp:61 | with any number of queues its queue has the bits that the id and the number less one have in common |
| WorkFilterProgress.StepWorks | core/x-splitter.hpp:59-99 | every step of every operation in every phase leaves less to do, except a `q` that finds its item queued |
| WorkFilterProgress.PhaseIsBounded | core/x-splitter.hpp:59-99 | in every interleaving a phase lasts at most a number of steps given by the items and the processors, such repeated calls of `q` aside |
| WorkFilterProgress.NeverStuck | core/x-splitter.hpp:59-99 | a processor that is not done with its phase can step, whatever the others do |
| WorkFilterProgress.PhaseCompletes | core/x-splitter.hpp:59-99 | from every reachable state the phase can be completed, within the steps left to do |
| WorkFilterProgress.RoundCompletes | core/x-splitter.hpp:74-89 | a drain under way can be completed within the bound, and has then returned exactly the queued ids, once each |
| WorkFilterProgress.WholeRound | core/x-splitter.hpp:59-89 | whenever nobody is inside `q`, any further ids can be queued and drained, and exactly the queued ids are returned, once each |
| WorkFilterProgress.DqAlone | core/x-splitter.hpp:74-89 | a `dq` that nobody disturbs returns the head of the first non-empty queue from its own on, going round, and unlinks it, in four steps and one for every empty queue before |
| WorkFilterProgress.DqAloneAlways | core/x-splitter.hpp:74-89 | every run of that processor alone does so |
| WorkFilterProgress.DqAloneNoWork | core/x-splitter.hpp:74-89 | with all queues empty it finds no work and changes nothing |
| Scc.PassKeeps | algorithms/scc/scc.hpp:160-185 | every pass keeps: live edges join equal labels, components are labelled alike, labels are reached from their names |
| Scc.LabelsAgree | algorithms/scc/scc.hpp:458-492 | the labels at the end of a pass are constant on every strongly connected component |
| Scc.SurvivingLabelIsFound | algorithms/scc/scc.hpp:160-185 | a vertex whose label survives two passes is strongly connected to it, and it is the smallest of the component |
| Scc.TwoPassesDropAnEdge | algorithms/scc/scc.hpp:385-404 | two consecutive passes over a non-empty set of live edges drop at least one |
| Scc.Propagation.Propagate | algorithms/scc/scc.hpp:299-339 | the label loop ends in a state where no label is larger than that of an edge's source |
| Scc.Propagation.Eliminate | algorithms/scc/scc.hpp:342-367 | exactly the edges within a label that is not settled survive, reversed, and the others are counted |
| Scc.Propagation.DoublePass | algorithms/scc/scc.hpp:386-396 | the two passes keep the invariant and eliminate something if anything is left |
| Scc.Propagation.FindComponents | algorithms/scc/scc.hpp:370-422 | the main loop terminates with no live edge after at most two passes for each edge, counts the vertices that name their component, and its last double pass is one that started from live edges of the invariant |
| Scc.LabelsNameComponents | algorithms/scc/scc.hpp:160-166 | at the end agreeing labels name the smallest vertex of the component, which is itself counted, for the whole component alike |
| Scc.RootsAreDistinctComponents | algorithms/scc/scc.hpp:161-167 | no component is counted twice |
| Scc.InternalEdgeFound | algorithms/scc/scc.hpp:458-540 | both ends of an edge inside a component have been discovered when no live edge is left |
| Scc.CountedComponents | algorithms/scc/scc.hpp:161-167 | only smallest vertices are counted, and all those of components with an internal edge |
| Scc.CountedIff | algorithms/scc/scc.hpp:160-185 | a vertex is counted exactly when it had been found before the last double pass as the smallest of its component, or no smaller vertex reached it along the live edges in either of the two passes |
| Scc.CountIsRightIff | algorithms/scc/scc.hpp:161-167 | the count is the number of components exactly when the last double pass undercuts no component without an internal edge |
| Scc.LastPass | algorithms/scc/scc.hpp:385-404 | every finished run meets what that equivalence needs of its last double pass |
| Scc.IsolatedIsCounted | algorithms/scc/scc.hpp:160-185 | a vertex without any edge is counted |
| Scc.LoneVertexMissed | algorithms/scc/scc.hpp:370-422 | on the graph 0 -> 1 the main loop returns 1 although there are two components |
| Mis.Nested | algorithms/mis/proof:1-53 | the sets of the phases are nested, odd ones growing from below and even ones shrinking from above |
| Mis.EqualCountsMeanEqualSets | algorithms/mis/mis.hpp:33-44 | two consecutive phases with equal counts have equal sets |
| Mis.SettledAfter | algorithms/mis/proof:1-53 | after p phases the vertices below p are as in the greedy set |
| Mis.StableIsGreedy | algorithms/mis/mis.hpp:70-131 | a set that a phase does not change is the greedy set |
| Mis.GreedyIsMaximalIndependent | algorithms/mis/mis.hpp:113-131 | on a symmetric graph without self-loops the greedy set is independent and maximal |
| Mis.OddPhasesIndependent | algorithms/mis/proof:1-53 | every odd phase is an independent set already |
| Mis.Voting.Gather | algorithms/mis/mis.hpp:98-111 | exactly the targets of the updates lose their flag, and the counter counts them once each |
| Mis.Voting.SuperstepAndTest | algorithms/mis/mis.hpp:33-44 | one phase and the test on the count; it stops only on a stable set |
| Mis.Voting.Run | core/sg_driver.hpp:746-920 | the loop ends after at most n + 2 phases with the greedy set, and the counter holds the number of vertices outside it |
| ModArith.ModMac4 | generators/prng/mod_arith_64bit.h:59-70 | the sum of four products and an addend stays within 64 bits and the result is its residue |
| ModArith.ModMac3 | generators/prng/mod_arith_64bit.h:48-57 | the same for three products |
| ModArith.ModMac2 | generators/prng/mod_arith_64bit.h:39-46 | the same for two products |
| ModArith.ModMac | generators/prng/mod_arith_64bit.h:32-37 | the same for one product |
| ModArith32.Fold | generators/prng/mod_arith_32bit.h:33-45 | folding the high bits onto the low 31 and one conditional subtraction give the residue, and the intermediate fits 32 bits |
| ModArith32.ModMul32 | generators/prng/mod_arith_32bit.h:33-45 | the folded product equals the 64-bit form |
| ModArith32.ModMac32 | generators/prng/mod_arith_32bit.h:47-60 | the folded form equals the 64-bit form |
| ModArith32.ModMac2of32 | generators/prng/mod_arith_32bit.h:62-69 | two multiply-adds in a row equal the single reduction of the 64-bit header |
| ModArith32.ModMac3of32 | generators/prng/mod_arith_32bit.h:71-80 | the same for three products |
| ModArith32.ModMac4of32 | generators/prng/mod_arith_32bit.h:82-93 | the same for four products |
| ModArith32.Schrage | generators/prng/mod_arith_32bit.h:111-127 | the quotient form for both constants stays within signed 32 bits and gives the residue of the product |
| ModArith32.ModMulX32 | generators/prng/mod_arith_32bit.h:110-118 | the quotient form for x equals the 64-bit product |
| ModArith32.ModMacY32 | generators/prng/mod_arith_32bit.h:129-133 | multiply-add by the constant y equals the 64-bit form |
| Mrg.ProductApplies | generators/prng/splittable_mrg.c:85-98 | in exact arithmetic the five-parameter product applies as one matrix after the other: the compressed form is closed under multiplication |
| Mrg.MultiplyApplies | generators/prng/splittable_mrg.c:86-98 | `mrg_multiply` on residues applies as the composition of its arguments and keeps the cached entries right |
| Mrg.CacheRows | generators/prng/splittable_mrg.c:65-71 | with the cached a, b, c and d the five rows of the matrix are those of the compressed form |
| Mrg.ApplyTransitionCong | generators/prng/splittable_mrg.c:116-159 | `mrg_apply_transition` multiplies the state vector by the matrix |
| Mrg.AIsPower | generators/prng/splittable_mrg.c:79-83 | the initial matrix is one step of the generator |
| Mrg.OrigStepCong | generators/prng/splittable_mrg.c:171-178 | `mrg_orig_step` is one step of the recurrence |
| Mrg.PowersMultiply | generators/prng/splittable_mrg.c:86-98 | the product of the matrices for i and j steps is the matrix for i + j steps |
| Mrg.MatrixCell.SetProduct | generators/prng/splittable_mrg.c:86-98 | the product is right also when the result is one of the operands |
| Mrg.MatrixCell.SetPower | generators/prng/splittable_mrg.c:101-109 | `mrg_power` by repeated squaring is exponentiation |
| Mrg.DumpRow | generators/prng/splittable_mrg.c:229-251 | row i of the table holds the powers j * 256^i for every j below 256 |
| Mrg.DumpPowers | generators/prng/splittable_mrg.c:213-256 | the whole table of 24 rows is right |
| Mrg.Generator.SkipByte | generators/prng/splittable_mrg.c:186-201 | one table lookup skips byte * 256^i steps |
| Mrg.Generator.Skip | generators/prng/splittable_mrg.c:181-201 | `mrg_skip` leaves the state that low + middle * 2^64 + high * 2^128 single steps leave |
| Bitshuffle.TransBit8x8Transposes | core/bitshuffle_core.c:86-97 | the three exchange steps transpose the 8x8 bit matrix in a quadword |
| BitshufflePasses.TransByteElem | core/bitshuffle_core.c:174-179 | byte j of element i goes to element i of byte row j, for any number of elements |
| BitshufflePasses.TransByteElemRemainder | core/bitshuffle_core.c:143-171 | the same from a given element on, the earlier ones being done |
| BitshufflePasses.TransBitByteRemainder | core/bitshuffle_core.c:182-216 | every quadword from a given one on is transposed and dealt out to eight rows |
| BitshufflePasses.TransElem | core/bitshuffle_core.c:227-241 | chunk (i, j) becomes chunk (j, i) |
| BitshufflePasses.PassesTranspose | core/bitshuffle_core.c:244-276 | the three passes together are the bit-matrix transpose: bit e of row r is bit r of element e |
| BitshufflePasses.TransBitElemScalar | core/bitshuffle_core.c:256-276 | the scalar driver computes that transpose and counts its bytes, or returns -80 |
| BitshufflePasses.InversePassesTranspose | core/bitshuffle_core.c:281-346 | the two passes of the inverse compute a preimage under the transpose |
| BitshufflePasses.UntransBitElem | core/bitshuffle_core.c:349-367 | the inverse driver, with its count and error |
| BitshufflePasses.TransposeInjective | core/bitshuffle_core.c:349-367 | the shuffled bytes determine the plain ones |
| BitshuffleSimd.NetworkIsColumn | core/bitshuffle_core.c:888-1031 | the unpack networks for 2, 4 and 8 bytes put byte j of sixteen elements into register j |
| BitshuffleSimd.TransByteElemSseW | core/bitshuffle_core.c:888-1031 | sixteen elements at a time and a scalar remainder compute the byte transpose |
| BitshuffleSimd.HierarchyTransposes | core/bitshuffle_core.c:1066-1090 | chunks first, bytes next, rows last: the hierarchical path computes the same byte transpose |
| BitshuffleSimd.TransByteElemSse | core/bitshuffle_core.c:1035-1093 | whichever path the element size selects, the byte transpose |
| BitshuffleSimd.TransElemType | core/bitshuffle_core.c:110-125 | the macro for typed chunks transposes them, eight rows at a time and then the rest |
| BitshuffleSimd.ShiftedTops | core/bitshuffle_core.c:1114-1119 | shifting 16-bit lanes left brings the right bit to the top of both bytes |
| BitshuffleSimd.MoveMaskIsRow | core/bitshuffle_core.c:1114-1119 | after k shifts the movemask byte of a quadword is row 7 - k of its transpose |
| BitshuffleSimd.TransBitByteMoveMask | core/bitshuffle_core.c:1387-1414 | the movemask loops and their remainder compute what the scalar pass computes |
| BitshuffleSimd.TransBitElemSimd | core/bitshuffle_core.c:1418-1437 | the SSE and AVX drivers compute the transpose, with the scalar form's count and error |
| BitshuffleSimd.TransposeIsUnique | core/bitshuffle_core.c:1130-1150 | there is one transpose, so all forms give the same bytes |
| BitshuffleInverse.RowNetworkLane | core/bitshuffle_core.c:1182-1213 | the three rounds of unpacks put byte 2r + h of eight bit rows into half h of register r |
| BitshuffleInverse.TransByteBitrowSse | core/bitshuffle_core.c:1154-1256 | sixteen columns at a time by half-register stores, and the remainder, gather what the scalar pass gathers |
| BitshuffleInverse.PermutedEighth | core/bitshuffle_core.c:1506-1514 | the 64-bit unpacks and lane permutations line up the halves of four row groups |
| BitshuffleInverse.TransByteBitrowAvx | core/bitshuffle_core.c:1442-1533 | 32 columns of four bytes at a time, with the loop over the rest, gather the same; other element sizes take the SSE path |
| BitshuffleInverse.ShuffleBitEightElemSse | core/bitshuffle_core.c:1260-1293 | movemask back into eight elements equals the scalar pass; odd element sizes take that |
| BitshuffleInverse.ShuffleBitEightElemAvx | core/bitshuffle_core.c:1537-1570 | the same with 32-byte registers, column by column |
| BitshuffleInverse.UntransBitElemSimd | core/bitshuffle_core.c:1297-1314 | the SSE and AVX inverse drivers compute the preimage under the transpose, with count and error |
| BitshuffleBlocks.IoChain.Advance | core/iochain.c:42-89 | an iteration is given the positions its predecessor stored and stores its own for the next |
| BitshuffleBlocks.DefaultBlockSize | core/bitshuffle_core.c:1824-1832 | a multiple of 8 and at least 128; above 128 the largest multiple of 8 within the quotient of 8192 and the element size |
| BitshuffleBlocks.DefaultIsLargest | core/bitshuffle_core.c:1824-1832 | a block of the default size takes at most 8192 bytes unless it is the least of 128 elements, and no larger multiple of 8 above 128 does |
| BitshuffleBlocks.Layout | core/bitshuffle_core.c:1689-1705 | full blocks, last block and leftover lie end to end and fill the buffer |
| BitshuffleBlocks.BlockedWrap | core/bitshuffle_core.c:1667-1717 | every full block, the shorter last one and the copied leftover are where they belong, the count is size times element size, and an illegal block size is -81 and changes nothing |
| BitshuffleBlocks.BlockedInverse | core/bitshuffle_core.c:1667-1717 | unshuffling what was shuffled gives every byte back |
| BitshuffleBlocks.RoundTrip | core/bitshuffle_core.c:1835-1849 | shuffle and unshuffle, both in the form the build selects, give every byte back for every element count and legal block size |
| BloomHash.PositionsBelow | core/sg_driver.hpp:354-358 | whatever the CRC, the four positions lie within the filter |
| BloomHash.PositionsAreResidues | core/sg_driver.hpp:354-358 | with a power of two the positions are the halves of both CRCs modulo the filter size |
| BloomFilters.FillFilters | core/sg_driver.hpp:345-368 | a bit of a page's filter is set exactly when an edge of the page hashes there |
| BloomFilters.GroupFilters | core/sg_driver.hpp:335-375 | the stored rows tell the same, bit-sliced, for every filter size the start-up check accepts |
| BloomFilters.OneShortBlock | core/sg_driver.hpp:365-368 | with a block size beyond 256 elements the blocked shuffle is one transpose |
| BloomFilters.GroupRowsUnique | core/sg_driver.hpp:335-375 | the stored rows of a group are determined by its edges |
| BloomIndex.EnoughIsRoundedUp | core/sg_driver.hpp:522-534 | the number of filter groups is the rounded-up quotient that is checked against the file size |
| BloomIndex.EdgeDistribution | core/sg_driver.hpp:377-501 | from any group boundary on, the buffered loop writes exactly the missing groups |
| BloomIndex.Create | core/sg_driver.hpp:377-501 | a new filter file is the index of the edges |
| BloomIndex.Update | core/sg_driver.hpp:525-539 | recomputing from the old last group on makes the file the index of the longer edge list |
| BloomIndex.IndexUnique | core/sg_driver.hpp:399-539 | two indexes of the same edges are the same file, so update equals rebuild |
| BloomIndex.UpdateEqualsRebuild | core/sg_driver.hpp:399-539 | creating the index of a graph and updating it to a longer one leaves the file that creating it anew leaves |
| BloomQuery.QueryGroup | core/sg_driver.hpp:1013-1049 | after the row ANDs and ORs a bit is set exactly when all four rows of some queried vertex have it |
| BloomQuery.PartitionCallback | core/sg_driver.hpp:988-1055 | the answers of every group of a chunk land at its place in the bitset, and nothing else changes |
| BloomQuery.MetaWork | core/x-lib.hpp:105-136 | the chunks of the processors cover every group of a buffer once |
| BloomQuery.CheckFilters | core/x-lib.hpp:675-704 | with the running offset the buffers cover the whole filter file |
| BloomQuery.BitsetIsExact | core/sg_driver.hpp:988-1055 | over an index of the edges, bit q is set exactly when some queried vertex has all four positions marked in page q |
| BloomQuery.QueriedPageIsSet | core/sg_driver.hpp:1010-1055 | no page with an edge whose hashed word is queried is missed |
| BloomQuery.SetPageHasEdges | core/sg_driver.hpp:1010-1055 | no bit is set for a page behind the last edge |
| BloomQuery.SameWordIffNarrow | core/sg_driver.hpp:351-354 | the builder sign-extends the id to 64 bits, the query does not; they hash the same word exactly for ids below 2^31 |
| BloomQuery.TelltaleIsExact | core/sg_driver.hpp:1026-1049 | there is a CRC under which a queried vertex matches exactly the pages with a queried word |
| PageReader.FindFirst | core/split_stream.hpp:547-561 | the first set bit, or none |
| PageReader.FindNext | core/disk_io.hpp:192-212 | the next set bit behind a given one, across byte boundaries, or none |
| PageReader.DiskStream.SearchAndUpdate | core/disk_io.hpp:214-241 | the next request takes a run of set pages off what remains, fits the buffer, is cut at the end of the file, and moves `disk_pos` to the end exactly when no set bit remains |
| PageReader.DiskStream.OneEvent | core/disk_io.hpp:266-290 | any completion keeps the buffer right and makes progress |
| PageReader.DiskStream.RandomRead | core/disk_io.hpp:243-297 | whatever the order of completions, the buffer is the next stretch of the set pages in ascending order, without overflow |
| PageReader.DiskStream.Read | core/split_stream.hpp:581-621 | with reading ahead, buffers come in order and none is lost |
| PageReader.DiskStream.ReadAll | core/x-lib.hpp:636-658 | all buffers together are exactly the set pages, the last one cut at the end of the file |
| PageReader.DiskStream.constructor | core/split_stream.hpp:563-573 | `set_bitset` starts at the first set bit |
| FilteredScatter.ScatterBuffer | core/sg_driver.hpp:1088-1113 | scattering only the queued partitions emits all updates of the buffer, tombstones excepted |
| FilteredScatter.SetPagesSuffice | core/sg_driver.hpp:862-869 | pages without an emitting edge may be skipped |
| FilteredScatter.CollectActive | core/sg_driver.hpp:292-303 | the query list holds exactly the active vertices, as many as were counted |
| FilteredScatter.Pad | core/sg_driver.hpp:834-843 | the padded list has the same vertices and the least multiple of the unit that holds them |
| FilteredScatter.FilteredIff | core/sg_driver.hpp:803-846 | the scatter is filtered exactly when the limit is above 1 and a multiple of the padding unit lies between the number of active vertices and the limit |
| FilteredScatter.BitsetLargeEnough | core/sg_driver.hpp:662-663 | the bitset has room for all filter groups |
| FilteredScatter.QueryIndex | core/sg_driver.hpp:802-848 | the bits after the query are page 0 and the pages some queried vertex matches |
| FilteredScatter.BitsAreReadFlags | core/sg_driver.hpp:802-848 | a page is read exactly when it is page 0 or its filter has all positions of some active vertex |
| FilteredScatter.NarrowLosesNothing | core/sg_driver.hpp:351-354 | with ids below 2^31 the pages read emit what all pages emit, for every CRC |
| FilteredScatter.AlwaysReadIff | core/sg_driver.hpp:1026-1049 | a page is read for every CRC exactly when it is page 0 or holds an edge, as indexed, of an active source below 2^31 |
| FilteredScatter.LosesNothingIff | core/sg_driver.hpp:844-870 | the filtered scatter emits everything for every CRC exactly when every further page with an emitting edge holds an active source below 2^31 |
| FilteredScatter.LossForCrc | core/sg_driver.hpp:862-870 | for a given CRC an unread page with an emitting edge makes the scatter emit less |
| FilteredScatter.WideUpdateLost | core/sg_driver.hpp:351-354 | for every id from 2^31 to 2^32 - 2 there is an index and a run of the scatter phase that loses the only update |
| FilteredScatter.ScatterPhase | core/sg_driver.hpp:788-872 | filtered or not, the updates are exactly those of the pages read; with ids below 2^31 they are the multiset of updates of the full scan |
| Bfs.WalkStaysWithin | algorithms/bfs/bfs.hpp:88-141 | a walk of k live edges from the root ends within k hops |
| Bfs.WithinHasWalk | algorithms/bfs/bfs.hpp:88-141 | a vertex within k hops ends a walk of at most k live edges |
| Bfs.GatheredIsNextLevel | algorithms/bfs/bfs.hpp:88-105 | gathering the updates of level p completes level p + 1, in whatever order they arrive |
| Bfs.ExploredInPhase | algorithms/bfs/bfs.hpp:107-130 | a phase explores exactly the live edges out of its own level |
| Bfs.Run.Init | algorithms/bfs/bfs.hpp:129-141 | after `init` the root has itself as parent, every other vertex a parent of all ones, and the root's partition is queued |
| Bfs.Run.Gather | core/sg_driver.hpp:975-987 | one gather reaches the next level, queues the partitions of its vertices and reports whether there are any |
| Bfs.Run.Scatter | core/sg_driver.hpp:855-893 | one scatter sends the updates of exactly the live edges out of the current level |
| Bfs.Run.Execute | core/sg_driver.hpp:746-920 | the superstep loop ends after at most n + 1 phases, in a phase that finds nothing new |
| Bfs.FinishedRun | algorithms/bfs/bfs.hpp:88-141 | reached are exactly the ends of walks from the root, the phase is the length of the shortest, the parent precedes it on one, and both counters are exact |
| DirtySectors.CoveredIffTwoSectors | core/sg_driver.hpp:283-288 | marking first and last sector covers a record exactly when it spans at most two |
| DirtySectors.CheckVertex | core/sg_driver.hpp:281-291 | a changed record has its flag reset and its sectors marked, or they are marked already |
| DirtySectors.MarkChanged | core/sg_driver.hpp:874-878 | over all processors the sectors of every changed record are marked |
| DirtySectors.StateStream.NextRun | core/disk_io.hpp:470-484 | a write covers a run of marked sectors, cut at the end of the buffer |
| DirtySectors.StateStream.RandomWrite | core/disk_io.hpp:486-542 | whatever the order of completions, marked sectors are as in memory and all others untouched |
| DirtySectors.StateStore | core/sg_driver.hpp:874-893 | if all records that differ from the disk are flagged, every record is on disk as in memory afterwards |
| DirtySectors.TouchedRecordsAreFlagged | algorithms/bfs/bfs.hpp:92-161 | updates that set the flag of every record they touch re-establish what the next store needs |
| VertexStore.RecordRoundTrip | algorithms/bfs/bfs.hpp:69-73 | the packed record of parent, 31-bit phase and flag decodes to what was encoded |
| VertexStore.RecordFields | algorithms/bfs/bfs.hpp:69-73 | the parent is the first four bytes, lowest first, the phase the next four without the top bit, the flag that bit, and the bytes are those of the fields |
| VertexStore.FieldsInMemory | algorithms/bfs/bfs.hpp:69-73 | record v is in the eight bytes from 8 v on |
| VertexStore.FlagOfRecord | algorithms/bfs/bfs.hpp:153-161 | `check_reset_changed` tells the flag of the record and clears it and nothing else |
| VertexStore.Init | algorithms/bfs/bfs.hpp:129-141 | the root's record holds the root and phase 0, every other one a parent of four bytes of ones; every record is flagged, so that the first store may follow whatever the file holds |
| VertexStore.ApplyUpdate | algorithms/bfs/bfs.hpp:88-105 | `apply_one_update` on the bytes is the update of the state, and flags the record it changes |
| VertexStore.FlagsDoNotMatter | algorithms/bfs/bfs.hpp:88-105 | gathering does not depend on the flags |
| VertexStore.Store | core/sg_driver.hpp:874-893 | every record of the superpartition is on disk as in memory, all flags reset |
| VertexStore.Superstep | core/sg_driver.hpp:754-893 | load, gather and store leave on disk the gathered state of the previous one |
| VertexStore.Run | core/sg_driver.hpp:746-893 | over any number of supersteps and superpartitions sharing one buffer, each file holds the state of a run in memory |
| OutOfCoreSearch.GatheredAt | algorithms/bfs/bfs.hpp:88-105 | a record that was reached, or gets no update, is kept by a gather, and any other takes parent and phase from its first update |
| OutOfCoreSearch.InitIsFirstLevel | algorithms/bfs/bfs.hpp:129-141 | after `init` of all superpartitions exactly the root is reached, with itself as parent and phase 0 |
| OutOfCoreSearch.SuperstepIsNextLevel | core/sg_driver.hpp:746-893 | a gather of every superpartition of the updates for its own vertices completes the next level; phases fit their 31 bits |
| OutOfCoreSearch.InMemoryIsSearch | core/sg_driver.hpp:746-893 | after every phase the states of all superpartitions together are the levels of the search |
| OutOfCoreSearch.OneSuperpartition | core/sg_driver.hpp:746-893 | with one superpartition its state after every phase is the levels of the search |
| OutOfCoreSearch.FilesHoldSearch | core/sg_driver.hpp:746-893 | decoded from the files, the records are the levels of the search |
| OutOfCoreSearch.RunIsSearch | core/sg_driver.hpp:746-893 | what the supersteps leave in the files is that search, whatever the records held before |
| PageBuffer.PagedStream.DoWrite | core/disk_io.hpp:126-171 | whole pages go to the file and the rest to the page buffer, for a write of any length at any position |
| PageBuffer.PagedStream.FlushOne | core/disk_io.hpp:585-599 | a flush, also a repeated one, leaves everything appended on disk |
| PageBuffer.PagedStream.Rewind | core/split_stream.hpp:729-768 | after any number of flushes the stream can be read from the start |
| PageBuffer.PagedStream.Read | core/disk_io.hpp:74-124 | a read of any length returns the next records, through the page buffer at both ends |
| PageBuffer.RoundTrip | core/disk_io.hpp:561-599 | appends of any lengths, flushes, rewind and reads of any lengths return what was appended |
| Splitter.CountItems | core/x-splitter.hpp:173-182 | the histogram of a group, and a sorted flag that implies key order |
| Splitter.PrefixSums | core/x-splitter.hpp:183-199 | counts become start positions and exactly the non-empty groups are queued |
| Splitter.PlaceItems | core/x-splitter.hpp:203-216 | every item goes behind the earlier items of its group |
| Splitter.OrderedIsGrouped | core/x-splitter.hpp:200-201 | items in id order are grouped already, so the shortcut may copy them |
| Splitter.SplitGroup | core/x-splitter.hpp:155-217 | one group is split stably into its subgroups |
| Splitter.LiftGroup | core/x-splitter.hpp:143-220 | the groups found within an input group are groups of the whole |
| Splitter.Pass | core/x-splitter.hpp:143-220 | a pass refines the grouping and zeroes the index it came with |
| Splitter.IdsReady | core/x-splitter.hpp:176-180 | shifting and masking the keys gives ids that subdivide from pass to pass and respect the key order |
| Splitter.XSplit | core/x-splitter.hpp:105-222 | over any number of passes the buffer the result names holds the stable grouping, its index delimits it, the other index is zero, the queue has gained exactly the non-empty partitions, and which buffer it is does not depend on the items |
| Splitter.SplitIsPermutation | core/x-splitter.hpp:105-222 | the split is a permutation of the items |
| Splitter.XSplitQsort | core/x-splitter.hpp:243-276 | the same index and queue, and the same groups up to the order within each |
| StreamIndex.MappedKeysBelow | core/autotuner.hpp:248-262 | both partition maps give keys below the number of partitions `make_index` is called with |
| StreamIndex.SharesAre | core/split_stream.hpp:196-220 | every processor but the last splits a quotient of the items, from its number times the quotient on, and the last one the rest |
| StreamIndex.SplitStretch | core/split_stream.hpp:196-254 | a processor resets its index and splits its own stretch, leaving the others alone |
| StreamIndex.MemoryBuffer.MakeIndex | core/split_stream.hpp:233-280 | all processors end on the same side, so that one switch of buffers leaves every group of every stretch where its index says; the queue holds exactly the partitions with items |
| StreamIndex.MemoryBuffer.GetSubstream | core/split_stream.hpp:206-220 | the substream of a processor and partition is exactly its items, also for the last partition |
| StreamIndex.MemoryBuffer.ReadPartition | core/x-lib.hpp:207-217 | processor by processor, a partition reads as all its items in their order |
| StreamIndex.IndexByCachedPartition | core/x-lib.hpp:193 | indexing by `map_cached_partition` of the vertex, for any vertex keys |
| StreamIndex.IndexBySuperPartition | core/x-lib.hpp:312 | indexing by `map_super_partition` of the vertex, for any vertex keys |
| EdgeOrder.OperatorLess | update_utility/MBFSort/MBFSort.cpp:58-82 | the loops decide as `ComesFirst` says: the first round whose masked hashes differ as multisets, by their ascending arrangements, or else source and destination |
| EdgeOrder.Sorted4Sorts | update_utility/MBFSort/MBFSort.cpp:68-69 | the sorted hashes ascend and are the same four values |
| EdgeOrder.LowBitsAreRemainders | update_utility/MBFSort/MBFSort.cpp:64-67 | the masked hashes of round i are the remainders modulo 2^i |
| EdgeOrder.LessByEnds | update_utility/MBFSort/MBFSort.cpp:78-82 | edges whose masked hashes agree as multisets in every round compare by source, then destination |
| EdgeOrder.LessByRound | update_utility/MBFSort/MBFSort.cpp:61-77 | otherwise the first round that tells them apart decides, by the smaller value where the ascending arrangements first differ |
| EdgeOrder.LessIsComesFirst | update_utility/MBFSort/MBFSort.cpp:58-82 | both together: what `operator<` decides, without its keys |
| EdgeOrder.LessIsStrictTotalOrder | update_utility/MBFSort/MBFSort.cpp:58-82 | whatever the hash, the order is irreflexive and asymmetric, and distinct edges compare one way |
| EdgeOrder.LessIsTransitive | update_utility/MBFSort/MBFSort.cpp:58-82 | and transitive |
| ExternalSort.PushMin | update_utility/MBFSort/external_sort/external_sort_merge.hpp:18-101 | outputting a least front keeps the output sorted and below everything left, and loses nothing |
| ExternalSort.Merge2 | update_utility/MBFSort/external_sort/external_sort_merge.hpp:18-42 | the two-way merge |
| ExternalSort.Merge3 | update_utility/MBFSort/external_sort/external_sort_merge.hpp:45-74 | the three-way merge, falling through to two |
| ExternalSort.Merge4 | update_utility/MBFSort/external_sort/external_sort_merge.hpp:77-115 | the four-way tournament, falling through to three |
| ExternalSort.MergeN | update_utility/MBFSort/external_sort/external_sort_merge.hpp:117-163 | the heap merge, falling through to four |
| ExternalSort.MergeStreams | update_utility/MBFSort/external_sort/external_sort_merge.hpp:165-214 | any number of sorted streams merge into a sorted permutation, and none comes out only if all are empty |
| ExternalSort.Split | update_utility/MBFSort/external_sort/external_sort.hpp:68-118 | sorted blocks that together are the input, collected in any order |
| ExternalSort.CollectLoop | update_utility/MBFSort/external_sort/external_sort.hpp:163-176 | collecting results conserves all records and leaves enough files or no merge running |
| ExternalSort.Merge | update_utility/MBFSort/external_sort/external_sort.hpp:122-192 | with two files or more to a merge the rounds terminate with every record in the one final file, in any completion order |
| ExternalSort.Sort | update_utility/MBFSort/external_sort/external_sort.hpp:195-204 | splitting and merging give a sorted permutation of the input |
| EdgeSort.EdgesAreTotallyOrdered | update_utility/MBFSort/MBFSort.cpp:58-82 | `operator<` is the strict total order the merges ask for, whatever the CRC |
| EdgeSort.SortEdges | update_utility/MBFSort/MBFSort.cpp:97-109 | the edge list comes out in that order, no edge in front of one that comes first, every edge once for each time it went in |

## Left out

- Mapping.StateCountThreshold: assumes at least one vertex; with none the subtraction in the source wraps around.
- BloomIndex.Update: needs a non-empty old graph, as the source subtracts one group from the size of the old file; only one superpartition, since the read check for several compares items with bytes.
- FilteredScatter.ScatterPhase: needs a non-empty edge file, a padding unit divisible by four, 32-bit ids and filters of at most 65536 bits, the reach of the 16-bit positions; it counts in edge records, so a page is exactly `bfs_per_page` of them, which is the precondition that the page size equals `bfs_per_page` times the edge size.
- BloomFilters.FillFilters: the read-modify-write of a quadword is its one changed byte; for filters of 4 to 7 bytes the quadword of the last pages reaches beyond the buffer in the source, which is not modelled.
- FilteredScatter.Pad: the query list is a list without a capacity, while the source's array has `max_check_v` entries.
- PageReader.DiskStream.RandomRead: bitsets are short enough that no page number equals the all-ones sentinel, and asynchronous reads are modelled as completing one at a time in any order.
- BitshuffleBlocks.BlockedWrap: blocks are processed one after the other; the locks of the pointer chain are not modelled.
- Scc.Propagation.FindComponents: one superpartition, and messages are delivered in one stream per iteration.
- Bfs.Run.Execute: one superpartition; the number of vertices is positive and at most 2^31, so that no id equals the all-ones parent.
- DirtySectors.StateStore: the file is as long as the state buffer from the start.
- PageBuffer.RoundTrip: one file; the whole-stream cache of small streams is not modelled.
- StreamIndex.MemoryBuffer.MakeIndex: the processors split their stretches one after the other; they share no array but the buffers, and there no position.
- VertexStore.Run: the updates each superpartition gathers are any sequences of updates for it, a child being the position of its record in the buffer; the scatter that sends them is a hypothesis of `OutOfCoreSearch.RunIsSearch`, which has at most 2^31 vertices.
- Splitter.XSplit: positions count items, and the fanout is a power of two of at least 2, as the source's shifts assume.
- ExternalSort.MergeN: the heap is any choice of a least front; `std::make_heap`, `push_heap` and `pop_heap` are not modelled, nor is `std::sort`, for which insertion stands.
- ExternalSort.Merge: the test on ready and running merges is an atomic snapshot.
- WorkFilter and Barrier: atomic steps are sequentially consistent; weak memory is not modelled, and the two stores with which `done` clears its heads are one step.
- The CRC instruction is an arbitrary function of seed and word; `mrg_transitions.c` is not part of this model, its table is built by the loop that writes it.
- The other algorithms on the engine, the Murmur kernel of the query, multi-superpartition update of the index, compression, direct and asynchronous I/O details, mmap, options, logging and timing.
