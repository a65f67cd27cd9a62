# A verified model of FTHP-MPI's bookkeeping

FTHP-MPI keeps an MPI job alive by pairing compute ranks with replicas. This project models, in
Dafny, the parts of it that have to be right for a job to survive, and proves them right:

* **Rank tables** (`FailureRemap`, `SwapPlan`). The update of `cmpToRepMap`, `repToCmpMap` and the
  communicator's rank list when processes fail, over whole runs of failure notices; and the plan that
  hands healthy replicas to ranks predicted to fail, with exactly when it leaves none of them unprotected.
* **Message logs** (`MessageLog`, `PruneRounds`). The distributed garbage collector: count, pack,
  exchange, match, return, mark, prune. `WholeRound` carries the passes and both exchanges out on all
  processes and computes exactly the round, a step over all logs; safety is proved over any number of
  rounds with any application activity between them, and so is exactly when a round forgets a message at
  either end. The count of stored bytes follows the logs.
* **Collective log** (`CollectiveLog`). Ordered insertion, the common cut, and what removal at the cut
  forgets, again over whole runs.
* **Record lists** (`RecordLinks`). The null-terminated linked lists behind the cache bins and the logs:
  every pointer operation on the cells is the sequence operation the other models use.
* **Heap** (`HeaderWord`, `HeapShape`, `HeapSteps`, `Division`, `Allocator`, `AlignMasks`, `Checkpoint`).
  The boundary-tag allocator on a word-addressed memory, with bins, fastbins, splitting, two-sided
  coalescing, consolidation, growth, displaced pointers and aligned allocation; its masks on machine
  words; and the sparse heap image of a checkpoint.
* **Buffer cache** (`CommbufCache`). Nine linked size bins in order of return, one count, wrap-around
  eviction.
* **Intrusive list** (`NaturalMerge`, `IntrusiveList`). Splice and natural merge sort on linked nodes.
* **Framing and number text** (`Framing`, `NumberText`). The id trailer of a message and the two ways it
  is found again; the number printer and the parsers that read its output.

How the heap model reads: `Heap` is what the C code sees (bounds, memory words, list heads). `Shape` is a
ghost picture of it (which blocks tile the heap, which list holds each). `Inv` relates the two, and every
operation of class `Heaps` keeps it. `handles` records each pointer that is out, the block behind it and the
bytes its caller asked for; `Ready` adds that all of them are good. `Kept` says that no word of a live
block changed. Sizes are those of an LP64 machine: header 24, footer 8, overhead 32.

Where behaviour differs from what one would hope, the code is modelled as it is and the exact condition is
proved:

* A notice in which a rank and its replica fail together is not absorbed. The loop promotes the dead replica
  and then indexes with -1 (`IndexFault`). A notice is absorbed exactly when every logical rank keeps a live
  copy.
* A swap plan keeps the maps inverse exactly when no two needy entries that still find a slot belong to the
  same rank (`PlanSwap`, `ServedOnceIff`). A rank listed with its replica breaks the plan when both find a slot
  (`PartnersServedTwice`, with `PartnersBreakThePlan` as an input) and does not when only one does
  (`OneSlotKeepsThePlan`).
* A pointer from aligned allocation can be freed wherever it was placed exactly when the alignment is at most
  32 or the inner request is below 256 KiB (`ReleasableEverywhereIff`). 256 KiB aligned to 64 from the first
  block of the heap cannot be freed (`FirstBlockIsNotReleasable`).
* Aligned allocation adds the alignment to the size in 64 bits. The bytes fit exactly when that sum does not
  wrap. The word it writes below the pointer lies in every block that may serve the request exactly when
  `SlotSafe` holds of alignment and size (`SlotHoldsEverywhereIff`), and then the heap stays well formed and no
  other live word changes. Every sum that does not wrap is safe, some that wrap are not (`SlotSafety`); 2^64 - 38
  bytes aligned to 32, asked of a fresh heap, break it (`WrappedRequestBreaksHeap`).
* The hole size `malloc` searches for wraps around for requests of 2^64 - 32 bytes and more
  (`SearchSizeCovers`).
* A process can agree to every cut up to the id it offers exactly when it finishes its collectives in id
  order (`OutOfOrderLosesOne` is an input where an unfinished one is lost).
* Printing and parsing a number is the identity exactly on the int range without its minimum.

The comment above `parep_mpi_free` says the word below an ordinary pointer can never look like a heap
address. The model states what that needs: the heap starts above any block size.

## Model

| member | source | states |
|---|---|---|
| FailureRemap.Topology.ApplyFailures | src/client_thread.c:716-764 | A notice is absorbed if and only if it is survivable; then the three tables are the survivor tables, the maps are mutually inverse again and nR falls by the number failed; otherwise the first failure that cannot be absorbed decides between a clean abort and the index fault |
| FailureRemap.Topology.DropFailed | src/client_thread.c:728-754 | After the promotion loop the maps have exactly the dropped slots cleared, promoted ranks sit in their compute slots, and each adjustment is the number of slots gone below it |
| FailureRemap.Topology.CloseGaps | src/client_thread.c:755-764 | The in-place compaction leaves the tables of the remaining slots in order, although it reads entries it may already have overwritten |
| FailureRemap.RemapKeepsPairs | src/client_thread.c:755-764 | The new maps are mutually inverse for every failed set |
| FailureRemap.OneSlotPerFailure | src/client_thread.c:738-752 | A survivable notice costs exactly one replica slot per failed rank |
| FailureRemap.RanksAreSurvivors | src/client_thread.c:757-767 | The rank list names every survivor exactly once and no failed rank |
| FailureRemap.SlotsAreCopies | src/client_thread.c:738-759 | Slot c holds the old c or its old replica, slot nC + s the old replica of the new repToCmpMap[s] |
| FailureRemap.AscendingOutcome | src/client_thread.c:728-737 | With failed ranks in ascending order the loop aborts cleanly if and only if some failed compute rank has no replica |
| FailureRemap.BothHalvesFail | src/client_thread.c:738-752 | The smallest notice in which a pair fails together: the prefix is survivable, the whole is not, and the failing entry is a replica |
| FailureRemap.SurvivableIffCopiesLive | src/client_thread.c:3019-3045 | A notice is survivable if and only if every logical rank still has a live process that began as its copy |
| FailureRemap.AfterStaysHosted | src/client_thread.c:3046-3059 | Renumbering the survivors keeps every logical rank on a live copy and lists every live process once |
| FailureRemap.RunsStayHosted | src/client_thread.c:3008-3068 | Over every run of absorbed notices each logical rank is hosted by exactly one live process that began as its copy |
| FailureRemap.StartsHosted | src/client_thread.c:3008-3012 | The job starts in such a state |
| FailureRemap.RunEndsOnlyWhenARankIsLost | src/client_thread.c:3023-3028 | From the start and after any run, the next notice is refused if and only if some logical rank has no live copy left |
| SwapPlan.PlanSwap | src/client_thread.c:2223-2311 | Needy ranks in notice order get the available slots in slot order; the planned maps are mutually inverse if and only if no two needy entries that find a slot belong to the same rank; with no rank listed twice, no listed rank is left without a healthy process if and only if there are as many slots healthy on both sides as listed ranks in need; the swap flag is set if and only if there is such a rank and such a slot |
| SwapPlan.RunPlan | src/client_thread.c:2223-2311 | The loop over the notice serves the needy ranks in order until the slots run out |
| SwapPlan.PlanEntry | src/client_thread.c:2224-2310 | One predicted rank, compute or replica, extends the plan by its compute rank exactly when it has no healthy partner and a slot is left |
| SwapPlan.TakeSlot | src/client_thread.c:2238-2253 | The search takes the first slot that is unused and healthy on both sides, and never one twice |
| SwapPlan.Reassign | src/client_thread.c:2256-2268 | The four assignments keep the plan consistent with the ranks served so far |
| SwapPlan.SwapKeepsPaired | src/client_thread.c:2263-2266 | Exchanging the slots of two ranks keeps the maps mutually inverse |
| SwapPlan.RepeatBreaksPairs | src/client_thread.c:2256-2267 | The planned maps are mutually inverse if and only if the served ranks are distinct |
| SwapPlan.NoPartnersMeansDistinct | src/client_thread.c:2223-2281 | Entries without repeats and without partners never serve a rank twice |
| SwapPlan.DistinctIffNeedyOnce | src/client_thread.c:2223-2281 | The ranks of the needy entries of any part of a notice are distinct if and only if no two of these entries belong to the same rank |
| SwapPlan.ReachServes | src/client_thread.c:2238-2253 | The ranks served before the slots run out are the needy ranks of the longest part of the notice whose needy entries all find a slot |
| SwapPlan.ServedOnceIff | src/client_thread.c:2223-2281 | No rank is served twice if and only if no two needy entries of that part belong to the same rank |
| SwapPlan.NeedyIn | src/client_thread.c:2225-2281 | The needy ranks are exactly those of the needy entries |
| SwapPlan.ServedRanksAreCovered | src/client_thread.c:2246-2266 | Each served rank ends with its slot, whose replica is healthy and came from a healthy rank, and that rank gets what the served rank had |
| SwapPlan.NeedyMeansInNeed | src/client_thread.c:2226-2281 | A predicted rank or replica is needy if and only if its rank has no healthy process, whether it has a replica or not |
| SwapPlan.FreeAreAvailable | src/client_thread.c:2238-2253 | The available slots are as many as those whose replica and rank are both healthy |
| SwapPlan.ServedIffOutOfNeed | src/client_thread.c:2246-2266 | After the plan a rank is in need if and only if it was before and was not served |
| SwapPlan.PlanProtectsIff | src/client_thread.c:2223-2311 | With no rank listed twice, no listed rank is left in need if and only if the free slots are as many as the listed ranks in need |
| SwapPlan.PartnersServedTwice | src/client_thread.c:2223-2311 | A rank and its replica named anywhere in the part of a notice that finds slots are served twice |
| SwapPlan.PartnersBreakThePlan | src/client_thread.c:2223-2311 | Three replicated ranks, the first predicted with its replica and two slots available: the planning code leaves maps that are not inverse |
| SwapPlan.OneSlotKeepsThePlan | src/client_thread.c:2223-2311 | Two replicated ranks, the first predicted with its replica and one slot available: the maps stay inverse although the rank is listed twice |
| MessageLog.CountReceives | src/client_thread.c:1214-1227 | Entry t counts the completed receives from the rank t is a copy of |
| MessageLog.Displacements | src/client_thread.c:1260-1268 | Displacements are the prefix sums of the counts |
| MessageLog.PackIds | src/client_thread.c:1257-1285 | All writes are in bounds, the segments partition the buffer, and segment t is the reported ids for t in log order |
| MessageLog.SegmentHolds | src/client_thread.c:1270-1285 | An id is in segment t if and only if a completed receive from t's rank carries it |
| MessageLog.SegmentInLogOrder | src/client_thread.c:1270-1285 | The ids of an earlier part of the log come first in every segment |
| MessageLog.Process.MatchSends | src/client_thread.c:1315-1365 | Matching in log order marks a send when every copy of its destination reported the id, and takes those ids out of the segments |
| MessageLog.Process.MarkReceives | src/client_thread.c:1394-1423 | A completed receive is marked for each copy of its source that kept the id; marks stay |
| MessageLog.Process.Prune | src/client_thread.c:2360-2425 | The pass that unlinks records while walking keeps exactly the records that are not deletable, in order; the count of stored bytes falls by what the dropped sends held |
| MessageLog.Process.LogSend | src/mpiProfiler.c:6772-6865 | A send enters the log with a stored copy that has room for its id, and the count of stored bytes rises by that much |
| MessageLog.PrunedHolds | src/client_thread.c:2360-2425 | A record survives the prune pass if and only if it was there and is not deletable |
| PruneRounds.Report | src/client_thread.c:1214-1285 | Count, displace and pack leave the segments of the log in a buffer laid out without gaps |
| PruneRounds.AllToAll | src/client_thread.c:1229-1231 | The exchange of the counts tells each process how much every other has for it |
| PruneRounds.CountsReturn | src/client_thread.c:1367-1369 | The counts of the first exchange, reused for the second, agree with what the partners send back, as section 5.8 of MPI-3.1 demands |
| PruneRounds.AllToAllV | src/client_thread.c:1288-1313 | With counts that agree, the exchange puts what every process had for this one at the place kept for it |
| PruneRounds.ExchangeTransposes | src/client_thread.c:1288-1313 | An exchange of packed buffers delivers packed buffers with the segments transposed |
| PruneRounds.FirstExchange | src/client_thread.c:1288-1313 | What all processes packed arrives as the incoming segments |
| PruneRounds.SecondExchange | src/client_thread.c:1367-1392 | What all processes matched comes back as the returned segments |
| PruneRounds.Receive | src/client_thread.c:1229-1313 | Exchanging counts, making room and exchanging ids leaves the incoming segments, under the counts announced |
| PruneRounds.ReceiveBack | src/client_thread.c:1367-1392 | Under the counts and displacements of the first exchange the returned segments arrive in the buffer they were packed in |
| PruneRounds.Settle | src/client_thread.c:1288-1365 | On what the first exchange delivers, matching leaves the matched log and segments of the round, under counts that agree with those sent |
| PruneRounds.Conclude | src/client_thread.c:1367-1423 | On what the second exchange brings back under the counts of the first, marking and pruning leave the log of the round; the count of stored bytes falls by what was dropped |
| PruneRounds.WholeRound | src/client_thread.c:1189-1496 | All processes report, match, mark and prune through both exchanges: every log is then that of the round the safety theorems speak about, and every count of stored bytes has fallen by what its log dropped |
| PruneRounds.MatchFacts | src/client_thread.c:1315-1365 | Over a whole log, matching only marks sends reported by all copies, and every id it takes belongs to a marked send |
| PruneRounds.ReportedSendIsMarked | src/client_thread.c:1315-1365 | With ids unique per sender, a completed send every copy of its destination reported is marked |
| PruneRounds.DroppedSendWasReceived | src/client_thread.c:1214-1365 | A send marked in a round has a completed receive with that source and id at every copy of its destination |
| PruneRounds.SendDroppedIffReceived | src/client_thread.c:1214-1365 | With ids unique per sender, a completed send is dropped in a round if and only if every copy of its destination has received it |
| PruneRounds.MissingIdWasSettled | src/client_thread.c:1350-1423 | An id that does not come back was taken by a send its source dropped in this round |
| PruneRounds.ComesBackIff | src/client_thread.c:1315-1392 | An id reported once comes back from a copy of the source if and only if that copy drops no send of it in this round |
| PruneRounds.ReceiptDroppedIff | src/client_thread.c:1394-1423 | A completed receipt, the only one of its source and id, is dropped if and only if for each copy of the source, and for the replica only if there is one, it was marked before or the copy drops its send in this round |
| PruneRounds.SendGoneIffReceived | src/client_thread.c:1214-1365 | A send is in the log before a round and not after it if and only if it is completed and every copy of its destination has completed the receive |
| PruneRounds.ReceiptGoneIffSendsGone | src/client_thread.c:1394-1423 | An unmarked such receipt is gone after a round if and only if every copy of its source loses the send in the same round |
| PruneRounds.ReceiptGoneIffMessageDone | src/client_thread.c:1214-1423 | That is, if and only if every copy of the source has completed the send and every copy of the destination the receive |
| PruneRounds.RoundKeepsSafe | src/client_thread.c:1214-1423 | A round over all processes keeps the safety invariant |
| PruneRounds.ApplicationKeepsSafe | src/client_thread.c:1394-1423 | So does anything the application does between rounds, ids being unique per sender |
| PruneRounds.RunStaysSafe | src/client_thread.c:1214-1423 | The invariant holds after every run |
| PruneRounds.ForgottenIsNeverResent | src/client_thread.c:2360-2425 | After any run from an empty start, no copy of the source still holds a send whose receipt some process has forgotten |
| PruneRounds.RunForgetsIffDone | src/client_thread.c:2360-2425 | After any run from an empty start, the next round forgets an unmarked completed receipt, the only one of its source and id, if and only if all copies of both partners are done with the message |
| CollectiveLog.Log.Insert | src/client_thread.c:594-615 | The walk puts the record behind all ids at least its own and ahead of all others; the log stays in descending order and the count of stored bytes rises by what the record holds |
| CollectiveLog.InsertKeepsOrder | src/request_handler.c:2171-2191 | Insertion at that place keeps descending order |
| CollectiveLog.Log.LastCompleted | src/client_thread.c:1427-1448 | The first completed record found is the newest completed collective, -1 if there is none |
| CollectiveLog.FindCut | src/client_thread.c:1471-1476 | The loop finds the minimum of the gathered ids |
| CollectiveLog.SameCut | src/client_thread.c:1471-1476 | All processes compute the same cut |
| CollectiveLog.Log.Mark | src/client_thread.c:1478-1482 | Exactly the ids at or below the cut become -1 |
| CollectiveLog.Log.Prune | src/client_thread.c:2427-2483 | The pass keeps exactly the unmarked records in order; the count of stored bytes falls by what the dropped ones held |
| CollectiveLog.RemovesSuffix | src/client_thread.c:1478-1482 | Marking and removal delete exactly the suffix at or below the cut |
| CollectiveLog.RemovedWasCompleted | src/client_thread.c:1425-1482 | When every process completes collectives in id order, every removed collective was completed by every process |
| CollectiveLog.RoundKeepsGood | src/client_thread.c:1425-1482 | A round keeps the logs ordered, loses no unfinished collective, and forgets only what all have completed |
| CollectiveLog.CutRound | src/client_thread.c:1425-1482 | Offering, taking the minimum, marking and removing on all logs is exactly a round, keeps the invariant, and lowers each count of stored bytes by what its log dropped |
| CollectiveLog.RunKeepsUnfinished | src/client_thread.c:1425-1482 | Over every run from the start, a collective a process entered is still in its log unless every process has completed it |
| CollectiveLog.OfferIsSafeIff | src/client_thread.c:1432-1448 | A process may agree to every cut up to the id it offers if and only if nothing unfinished is older than something finished |
| CollectiveLog.OutOfOrderLosesOne | src/client_thread.c:1432-1482 | Two processes, one finishing out of order, agree to a cut that removes an unfinished collective |
| HeaderWord.HeaderFields | src/heap_allocator.h:32-43 | Packing then reading returns the two flags and the size |
| HeaderWord.HeaderOfFields | src/heap_allocator.h:32-43 | The three fields are the whole word |
| HeaderWord.MacrosAgree | src/heap_allocator.h:36-42 | On every 64-bit word the mask-and-shift readers equal the arithmetic ones used by the model |
| HeaderWord.SizeWriterAgrees | src/heap_allocator.h:43-43 | Likewise the size writer |
| HeaderWord.HoleWriterAgrees | src/heap_allocator.h:37-37 | Likewise the hole writer |
| HeaderWord.FastWriterAgrees | src/heap_allocator.h:40-40 | Likewise the fast writer |
| HeapSteps.AddNodeKeeps | src/heap_allocator.c:32-45 | Pushing a tagged block on the bin of its size keeps the heap well formed and every live word |
| HeapSteps.RemoveNodeKeeps | src/heap_allocator.c:73-88 | Unlinking a bin member, first, last or middle, does too |
| HeapSteps.PushFastKeeps | src/heap_allocator.c:344-352 | Parking a block of at most 64 bytes does too |
| HeapSteps.PopFastKeeps | src/heap_allocator.c:187-192 | Taking the first fast block does too |
| HeapSteps.MergeKeeps | src/heap_allocator.c:363-366 | Joining two neighbouring blocks keeps the tiling |
| HeapSteps.SplitKeeps | src/heap_allocator.c:286-302 | Cutting a block in two keeps the tiling |
| HeapSteps.GrowLastKeeps | src/heap_allocator.c:150-159 | Growing the last block with the heap keeps the tiling |
| HeapSteps.GrowNewKeeps | src/heap_allocator.c:160-170 | Adding a block at the old end does too |
| Allocator.Heaps.constructor | src/heap_allocator.c:118-140 | The initial heap is well formed, with one hole that is all of it and nothing live or parked |
| Allocator.GetBinIndex | src/heap_allocator.c:21-30 | The shift loop computes the base-2 logarithm less two, capped at the last bin |
| Allocator.BinIndexMonotone | src/heap_allocator.c:21-30 | A larger size never has a smaller bin |
| Allocator.BinIndexBetween | src/heap_allocator.c:21-30 | A size is in bin i if and only if it lies between the bounds 8, 16, 32 up to 1024 on either side of it |
| Allocator.Heaps.AddNode | src/heap_allocator.c:32-45 | Filing a loose block makes it a hole of its bin and changes nothing else |
| Allocator.Heaps.RemoveNode | src/heap_allocator.c:73-88 | Unlinking takes exactly that block out of its bin |
| Allocator.Heaps.GetBestFit | src/heap_allocator.c:105-116 | A result is the first hole of the bin, in list order, that is large enough; NULL means the bin has none |
| Allocator.Heaps.AbsorbPrev | src/heap_allocator.c:357-370 | If the block below is a hole it is merged; no hole borders the result below |
| Allocator.Heaps.AbsorbNext | src/heap_allocator.c:371-388 | If the block above is a hole it is merged; no hole borders the result |
| Allocator.Heaps.AbsorbHole | src/heap_allocator.c:373-386 | The hole above leaves its bin, its tags are wiped, and one block with the joint size remains |
| Allocator.Heaps.Coalesce | src/heap_allocator.c:355-392 | Freeing a block merges it with the holes on either side, and exactly those, into one filed hole; no two holes are adjacent |
| Allocator.Heaps.Consolidate | src/heap_allocator.c:541-593 | Afterwards no block is parked in a fastbin, the heap is well formed and live blocks are untouched |
| Allocator.Heaps.ExpandHeap | src/heap_allocator.c:142-173 | Granted growth moves the end by the bytes asked for and keeps the heap well formed; refused growth changes nothing |
| Allocator.GrowthTooSmall | src/heap_allocator.c:160-168 | Fewer than 32 bytes behind a block that is no hole are given a size larger than any heap |
| Allocator.Heaps.Search | src/heap_allocator.c:206-242 | Terminates; a result is the first fit of the lowest bin that has one; if there was one from the start, memory and lists are as they were; the end moves only by doublings below 2 GiB and 1 GiB steps from there, and only with nothing left parked; NULL means growth was refused or is used up and, after consolidation, no hole is large enough |
| Allocator.Heaps.MakeRoom | src/heap_allocator.c:214-236 | With no fit in any bin the parked blocks are released first, and only when that has been done the heap grows or the search gives up |
| Allocator.GrowsFurther | src/heap_allocator.c:226-232 | Each growth step is a doubling below 2 GiB and 1 GiB from there |
| Allocator.Heaps.Trim | src/heap_allocator.c:275-305 | A rest of more than 40 bytes becomes a hole of its own and nothing less is cut off: the block keeps exactly the request with its displacement, or all it had |
| Allocator.Heaps.Place | src/heap_allocator.c:244-322 | The found hole becomes a live block holding the request and at most 40 bytes more; a displaced pointer has the block's payload start in the word below |
| Allocator.LeadIsSmall | src/heap_allocator.c:244-251 | The displacement is at most 24, so the branch that needs 40 is dead, and it makes the pointer a multiple of 32 |
| Allocator.Heaps.TakeFast | src/heap_allocator.c:185-197 | The block of the size parked last becomes live with exactly its parked size; nothing else changes |
| Allocator.Heaps.Serve | src/heap_allocator.c:184-242 | A parked block of the size is reused; otherwise the request is cut from the first fit of the lowest bin that has one; large requests and growth leave nothing parked |
| Allocator.Heaps.Malloc | src/heap_allocator.c:175-323 | A non-NULL result is a new pointer to n bytes inside one new live block of at most 40 bytes more than needed, 32-aligned for large requests; a request of at most 64 bytes gets the block of its size parked last, if any, any other below the large ones the first fit of the lowest bin that has one; the heap grows by doublings and 1 GiB steps; no live word changes; NULL for non-zero n means nothing fits and the heap cannot grow |
| Allocator.SearchSizeCovers | src/heap_allocator.c:178-180 | The 64-bit search size covers the rounded request if and only if it is below 2^64 - 32 |
| Allocator.Heaps.Free | src/heap_allocator.c:325-399 | Exactly the block behind the pointer stops being live: one of at most 64 bytes is parked in front of the others of its size, a larger one is merged with the holes beside it, and the parked blocks are released if and only if the merged hole has 64 KiB; every other live word is unchanged and the heap is well formed |
| Allocator.Heaps.FreeThenMalloc | src/heap_allocator.c:184-198 | A block of at most 64 bytes freed and asked for again comes back, and the heap has the same shape as before |
| Allocator.BackPointerFindsOwner | src/heap_allocator.c:328-341 | For every pointer that is out, displaced or not, the back-pointer test recovers its owning header |
| Allocator.CallerBytesPrivate | src/heap_allocator.c:312-322 | The caller's bytes meet no other block and none of their own block's tags |
| Allocator.OwnersApart | src/heap_allocator.c:312-322 | The bytes behind two pointers are disjoint |
| Allocator.Heaps.CallerWrite | src/heap_allocator.c:325-341 | A store inside the bytes a caller was given keeps the heap well formed and every pointer good |
| Allocator.Heaps.PosixMemalign | src/heap_allocator.c:423-452 | The error cases; an aligned pointer into one new live block; size bytes fit if and only if the 64-bit sum did not wrap; free recovers the owner if and only if the pointer is releasable; for a safe alignment and size no other live word changes and the heap stays good |
| Allocator.Heaps.AlignWithin | src/heap_allocator.c:439-448 | The least aligned address that is the pointer itself or leaves a word for it; the store harms no other block when that word is payload |
| Allocator.MemalignFits | src/heap_allocator.c:432-450 | The bytes fit the block if and only if the sum of size, alignment and 7 is below 2^64; the address itself never wraps |
| Allocator.MemalignRecovers | src/heap_allocator.c:328-341 | The back-pointer test leads to the owner if and only if the inner pointer was not displaced or was already aligned |
| Allocator.ReleasableEverywhereIff | src/heap_allocator.c:432-448 | A request is releasable from every block if and only if its alignment is at most 32 or its inner request is below 256 KiB |
| Allocator.DisplacedIsNotReleasable | src/heap_allocator.c:439-448 | Every other request is not releasable from any block at a multiple of its alignment |
| Allocator.FirstBlockIsNotReleasable | src/mpiProfiler.c:4623-4623 | 256 KiB aligned to 64, served from the first block of the heap, is not releasable |
| Allocator.SlotHoldsEverywhereIff | src/heap_allocator.c:432-448 | The word below the pointer is payload of every block malloc may return if and only if the alignment is at most 24 above the rounded inner request, or at most 48 above one of 256 KiB and more |
| Allocator.SlotSafety | src/heap_allocator.c:434-434 | Every request whose sum does not wrap is safe; 2^64 - 8 bytes aligned to 8 are, 2^64 - 38 bytes aligned to 32 are not |
| Allocator.WrappedRequest | src/heap_allocator.c:434-434 | 2^64 - 8 bytes aligned to 8 become an inner request of 7 bytes |
| Allocator.WrappedRequestHitsFooter | src/heap_allocator.c:439-448 | 2^64 - 38 bytes aligned to 32, from a block of size 0 at a multiple of 32, overwrite the footer and break the heap |
| Allocator.WrappedRequestBreaksHeap | src/heap_allocator.c:432-448 | From the initial heap, malloc for that request and the store of the back pointer leave a heap that is not well formed |
| AlignMasks.MaskTakesRemainder | src/heap_allocator.c:441-445 | On every 64-bit word, masking with one less than a power of two takes the remainder off |
| AlignMasks.RoundDownIsMask | src/heap_allocator.c:178-178 | Masking the size with ~7 is the rounding of the model |
| AlignMasks.RoundUp32IsMask | src/heap_allocator.c:246-247 | So is the rounding of large requests up to 32 |
| AlignMasks.RoundUpIsMask | src/heap_allocator.c:441-445 | So is the rounding up to the alignment, for every power of two |
| AlignMasks.TestFindsPowers | src/heap_allocator.c:424-424 | On every non-zero word n & (n - 1) is 0 if and only if n is a power of two |
| Checkpoint.WalkVisitsAll | src/full_context.c:1320-1337 | Following sizes from the start visits every block and nothing else |
| Checkpoint.SizesAddUp | src/full_context.c:1320-1337 | Sizes plus overhead add up to the whole heap |
| Checkpoint.StoreWordsBack | src/full_context.c:2083-2107 | Writing words back where they came from restores them and touches no other |
| Checkpoint.WriteHeap | src/full_context.c:1320-1337 | The walk emits size, list heads and, block by block, header, payload of live blocks only, and footer |
| Checkpoint.ReadBlocks | src/full_context.c:2083-2107 | Reading finds each block from the header just restored and agrees with the saved heap on all of them |
| Checkpoint.AgreementKeepsShape | src/full_context.c:2083-2107 | A heap that agrees on headers, links, footers and live payloads is well formed with the saved shape |
| Checkpoint.Restore | src/full_context.c:2083-2107 | Onto a heap at the same base and no larger, the sparse image restores every header, link, footer, list head and live payload word; the heap is well formed and the pointers that were out are good |
| Checkpoint.RestoredHandles | src/full_context.c:2083-2107 | A pointer that was good in the saved heap is good in the restored memory |
| Checkpoint.SaveAndRestore | src/full_context.c:1320-1337 | Writing one heap and restoring it into another gives the same blocks, the same pointers and the same payload words |
| CommbufCache.GetBinIndex | src/commbuf_cache.c:10-26 | The bound-doubling loop finds the one bin whose bounds admit the size |
| CommbufCache.BinMonotone | src/commbuf_cache.c:10-26 | A larger buffer never has a smaller bin |
| CommbufCache.BinBetween | src/commbuf_cache.c:10-26 | A size is in bin i if and only if it lies between the bounds 8, 32, 128 up to 131072 on either side of it |
| CommbufCache.Cache.Find | src/commbuf_cache.c:83-96 | Walking the links finds the most recently returned buffer of the bin that is large enough, or none is |
| CommbufCache.Cache.Evict | src/commbuf_cache.c:98-106 | The least recently returned buffer of the bin is unlinked, and only it; all nine bins stay linked |
| CommbufCache.LastIsOldest | src/commbuf_cache.c:98-106 | Every other buffer of the bin was returned after the last |
| CommbufCache.Cache.MakeRoom | src/commbuf_cache.c:112-118 | The wrap-around loop terminates with exactly one place free: a bin at or below the start loses buffers only when all bins between are empty, a bin above it only when all bins up to the start and all above it are; each loses its least recently returned ones |
| CommbufCache.DrainedInTurn | src/commbuf_cache.c:112-118 | Eviction goes down from the bin of the size to bin 0 and then down from the last bin |
| CommbufCache.DrainedAll | src/commbuf_cache.c:112-118 | Nine steps over empty bins would mean an empty cache, which the count excludes |
| CommbufCache.FiledOnce | src/commbuf_cache.c:44-58 | No buffer is filed twice, in one bin or in two |
| CommbufCache.LinkHead | src/commbuf_cache.c:44-72 | Linking a node into one bin leaves the other eight linked as they were |
| CommbufCache.UnlinkAt | src/commbuf_cache.c:74-81 | So does unlinking a node, whose own links are null afterwards |
| CommbufCache.UnlinkTail | src/commbuf_cache.c:98-106 | So does unlinking the last node of a bin |
| CommbufCache.Cache.Get | src/commbuf_cache.c:108-129 | The buffer is large enough, lent to nobody else and in no bin; a hit takes the first fit, cleared, a miss makes one and trims the cache, downward from its bin, to the lower limit; all nine bins stay linked |
| CommbufCache.Cache.TakeFound | src/commbuf_cache.c:121-127 | A hit takes exactly that node out, all zeros |
| CommbufCache.Cache.MakeNew | src/commbuf_cache.c:110-120 | A miss makes a node, evicts downward from its bin until the count is below 10240, and leaves the node in no bin |
| CommbufCache.Cache.Return | src/commbuf_cache.c:131-140 | The buffer is cleared and linked in as the most recent of its bin; evictions, downward from that bin, keep the count at most 16384; all nine bins stay linked |
| RecordLinks.Bin.PushHead | src/commbuf_cache.c:44-72 | Linking a node in front of a bin, empty or not, puts it at the head of the sequence |
| RecordLinks.Bin.Remove | src/commbuf_cache.c:74-81 | Unlinking a node takes exactly it out, with head and tail right |
| RecordLinks.Bin.EvictTail | src/commbuf_cache.c:98-106 | Unlinking the tail takes the last node off, and nothing from an empty bin |
| RecordLinks.Log.Unlink | src/client_thread.c:2365-2376 | Moving both ends off a record and linking its neighbours takes exactly it out |
| RecordLinks.Log.Prune | src/client_thread.c:2360-2425 | Walking and unlinking keeps exactly the records not to be dropped, in order, links intact |
| RecordLinks.Ordered.Insert | src/client_thread.c:594-615 | Walking and linking puts the record before the first with a smaller id, or last, links intact |
| RecordLinks.PrunesMessages | src/client_thread.c:2360-2425 | On message records that is the prune pass of the message log |
| RecordLinks.PrunesCollectives | src/client_thread.c:2427-2440 | On collective records it is the prune pass of the collective log |
| RecordLinks.InsertsCollective | src/client_thread.c:594-615 | On collective records the insertion is that of the collective log |
| IntrusiveList.Splice | src/list.c:185-208 | Moving a stretch within a list or between lists keeps both link directions of both chains |
| IntrusiveList.List.FindEndOfRun | src/list.c:370-384 | The end of the longest nondecreasing run from an element |
| IntrusiveList.List.InplaceMerge | src/list.c:392-414 | Two adjacent stretches become their merge, by relinking only; everything else keeps its place |
| IntrusiveList.List.Pass | src/list.c:430-450 | A pass is a stable rearrangement, and with more than one output run the number of natural runs falls |
| IntrusiveList.List.Sort | src/list.c:419-453 | Terminates with a sorted stable rearrangement of the same nodes, links intact, for any strict weak order |
| NaturalMerge.MergeSorts | src/list.c:392-414 | Merging two sorted runs gives a sorted run |
| NaturalMerge.MergeStable | src/list.c:392-414 | Elements the order cannot tell apart keep their order |
| NaturalMerge.MergePermutes | src/list.c:392-414 | The merge has the same elements |
| NaturalMerge.MovesRight | src/list.c:409-411 | Moving the right run's head in front leaves the rest of the merge to do |
| NaturalMerge.MergedRuns | src/list.c:430-450 | One merge uses up two runs and puts out at most one |
| NaturalMerge.RunIsSorted | src/list.c:370-384 | Neighbours in order means the whole run is in order |
| NaturalMerge.StableSortUnique | src/list.c:416-453 | A sorted stable rearrangement is the only one, so the contract of Sort fixes its result |
| Framing.ExtraIsLeast | src/request_handler.c:301-303 | The extra elements hold the id with less than one element to spare |
| Framing.LengthIs | src/mpiProfiler.c:6772-6775 | The id never overlaps the payload and starts within the first extra element |
| Framing.ElementsIn | src/request_handler.c:363-367 | Dividing the drained byte count by the element size gives the sender's count |
| Framing.BothReceiveWhatWasSent | src/request_handler.c:1658-1668 | For every payload, element size and id, the typed and the drained receiver return exactly what was sent |
| Framing.AgreeOnlyOnWholeElements | src/request_handler.c:304-307 | On an arbitrary buffer the two receivers look for the id in the same place if and only if it holds whole elements |
| NumberText.NumeralStandsForItself | src/full_context.c:819-827 | The numeral of n in base b stands for n |
| NumberText.PrintedDigit | src/full_context.c:821-825 | Digits from ten on are printed as capital letters |
| NumberText.ReadDigit | src/mmanager.c:194-200 | A character is read as a digit if and only if it is that digit, as a capital or a small letter |
| NumberText.FillDigits | src/full_context.c:819-827 | The digit loop writes the numeral backwards and nothing else |
| NumberText.ReversePrefix | src/full_context.c:835-843 | The swap loop reverses the written part in place |
| NumberText.Ltoa | src/full_context.c:811-846 | The buffer holds the signed numeral, terminated |
| NumberText.Atoi | src/full_context.c:794-808 | The accumulation with its sign, undefined exactly when a product, a sum or the sign leaves the int range |
| NumberText.AccumulatesByPlace | src/full_context.c:802-806 | What is accumulated from any characters is their sum by decimal places |
| NumberText.ProductOverflows | src/full_context.c:802-805 | 214748365 followed by a minus sign: the product overflows although the sum would not |
| NumberText.AtoiInvertsLtoa | src/full_context.c:794-846 | Printing in base 10 and parsing gives the number back if and only if it is in the int range and not its minimum; otherwise it overflows |
| NumberText.PrintThenParse | src/full_context.c:794-846 | The printer followed by the parser returns the number if and only if it is in the int range and not its minimum |
| NumberText.TextIsTerminated | src/full_context.c:833-833 | What the printer leaves ends at its terminator and has none before |
| NumberText.ReadDec | src/mmanager.c:174-187 | The index stops at the first non-digit; the value is that of the digits read, modulo 2^64 |
| NumberText.ReadHex | src/mmanager.c:190-207 | Likewise for hexadecimal digits of either case |
| NumberText.ReadersInvertLtoa | src/mmanager.c:174-207 | Both readers return the non-negative number that was printed and stop right after it |
| NumberText.CaseIgnored | src/mmanager.c:190-207 | Changing the case of letters changes neither what is read nor where reading stops |
| NumberText.ReadsEitherCase | src/mmanager.c:190-207 | A hexadecimal numeral in letters of either case is read as its number and to its end |
| NumberText.ReadAddress | src/mmanager.c:265-266 | The start 7f12 of an address range is read as 0x7f12, up to the hyphen |
| NumberText.PrintThenReadHex | src/mmanager.c:190-207 | The printer in base 16 followed by the reader returns every non-negative number |
| NumberText.NegativeOutsideBaseTen | src/full_context.c:814-827 | In every base but 10 a negative number prints as one character, the remainder below the zero, that reads as no more than 0 |

## Left out

- Malloc: requires n below 2^64 - 32. Above that the searched size wraps and a small hole is taken for a huge request; the contract does not describe the memory after that, `SearchSizeCovers` states the boundary.
- PosixMemalign: requires the inner request, after any wrap-around of its sum, to be below 2^64 - 32, for the reason given for Malloc; for an unsafe alignment and size whose word lands outside its block the contract does not describe the heap, `WrappedRequestBreaksHeap` shows that it can break.
- ExpandHeap: growth comes in multiples of 8, and behind a block that is not a hole in steps of at least 32 bytes, see `GrowthTooSmall`; no caller asks for less. Whether the mapping grows is a parameter (`granted`, `canGrow`).
- Restore: the growth of the target is taken as granted. The source does not look at the answer and on refusal would write behind the end of its mapping; a step below 32 bytes needs a hole at the end, as for ExpandHeap.
- Sort: the order is a function of the elements alone; what a comparison function reads through its auxiliary argument is fixed during the sort.
- Ltoa: the most negative long in base 10 is excluded, because negating it is undefined in C.
- LengthIs: element size 0 is excluded, because the source divides by it; the int products are taken as not overflowing.
- Get: the allocation of the buffer behind a node and its release on eviction are not modelled.
- Prune: the logs are sequences walked by position; `RecordLinks` proves the pointer updates. Freeing the buffers of a dropped record is modelled by the count of stored bytes alone, which only sends and allreduces enter.
- WholeRound: the exchanges are taken as section 5.8 of MPI-3.1 specifies them; a failure during an exchange, which makes the process give up the round, is not modelled.
- RunStaysSafe: nC, nR and the maps are fixed across the rounds. The marks are not reset when the topology changes.
- The other two variants of the pruning round (with failure polling, with request testing) and the copies of the prune pass.
- The plan for a single predicted rank, and executing a swap plan: resending, rearranging replicas, restoring messages.
- Sockets, poll loops, coordinator commands, probing and posting of sends and receives.
- Threads, locks, signals and the address-space work of checkpoint and restart other than the heap section.
- realloc, calloc, strdup and path resolution in the allocator; the other list operations (reverse, unique, minimum, maximum, ordered insertion).
- The InfiniBand wrappers, the RMA and file branches of request testing, and the statistics in floating point.
