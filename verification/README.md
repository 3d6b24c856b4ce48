# A verified model of the collector in `gc/`

This project models the hard core of the Boehm-Demers-Weiser collector that is bundled with the repository under
`gc/`, and proves its central properties:

- **The sequential marker** (`gc/mark.c`, driven by `gc/alloc.c`): `GC_mark_some` with all six states, a bounded mark
  stack that throws entries away when it overflows, dirty bits of blocks and of pages of static data, other root
  areas, the mutator between marking steps, stopped marks that may be given up. Over every run, `GC_finish_collection`
  only ever finds all reachable objects marked; every finished mark marks exactly what can be reached from the roots and
  from what was marked when the world was stopped, which for a full collection are uncollectable objects only; marking
  ends, in spite of overflows.
- **The scan of a range** (`GC_mark_from`): chunking, halving for parallel helpers, the deferred last pointer. Nothing
  is missed, and nothing considered twice but the words that two halves share.
- **The parallel marker**: an interleaving transition system with one step per shared access. Exit safety,
  completeness, exactness, mutual exclusion, absence of deadlock and of lost wake-ups, termination of every fair run, when
  exactly a mark is declared invalid, and when exactly a late helper can come in.
- **The block allocator and its page index** (`gc/allchblk.c`, `gc/headers.c`, `gc/blacklst.c`, parts of `gc/misc.c`):
  layout, free lists, counters, coalescing, unmapping, black lists, when allocation succeeds and which block it takes,
  `GC_base` and the header for an address.
- **Finalization** (`gc/finalize.c`): which objects exactly are queued, the order guarantee, disappearing links, hash tables.
- **Stopping the world** (`gc/pthread_stop_world.c`): the signal and semaphore handshake over any number of rounds,
  its safety and that neither stopping nor starting can hang.
- **The size map** (`gc/misc.c`, `gc/malloc.c`).

Each part has the same shape. A module of definitions (`...Model`, `...Ops`) says on values what one operation or step
does; lemmas prove what it keeps and where runs lead; and a class with the source's own fields and loops (`Marker`,
`Collector`, `RangeMarker`, `Allocator`, `PageIndex`, `BlackList`, `Finalizer`, `Table`, `SizeMap`) performs the
operation in place, every method being proved to turn the old view of the object into the one the definition gives. The
two protocols are transition systems, with theorems over all their runs.

| files | contents |
|---|---|
| `MarkModel`, `MarkInvariant`, `MarkTheorems`, `MarkRuns` | the sequential marker, its invariant "I", reachability, progress, runs with a mutator |
| `Marker`, `Collector` | the marker and the collection driver as objects |
| `RangeScan`, `RangeMarker` | ranges word by word |
| `ParallelMarkModel`, `ParallelMarkProofs`, `ParallelMarkTheorems`, `ParallelMarkLock`, `ParallelMarkLate`, `ParallelMarkEnd`, `ParallelMarkExact`, `ParallelMarkRounds` | the parallel marker, the mark lock, late helpers, termination, invalid marks and exactness, mark numbers and stealing |
| `HeapModel`, `HeapProofs`, `HeapOps`, `HeapTheorems`, `HeapAlloc`, `HeapAllochblk`, `HeapBlack`, `HeapComplete`, `HeapChoice`, `HeapMerge`, `HeapRuns` | the allocator on a sequence of pages |
| `HeapBlocks`, `PageIndex`, `BlackList` | linked free lists, the two-level page index, the black lists |
| `FinalizeModel`, `FinalizeTheorems`, `FinalizeBounds`, `Finalizer`, `LinkTable` | finalization and its hash tables |
| `StopWorld`, `SizeMap`, `Arithmetic` | the handshake; the size map; shared facts about products and quotients |

Where the code and its comments differ the model follows the code. Some cases are worth knowing. The comment on
`GC_active_count` (gc/mark.c:787-790) says that the count stays zero for the cycle once it has returned to zero. It
does so exactly as long as no late helper comes in (`CountStaysZeroIff`); from the state in which a helper has left,
the count can still rise if and only if a helper is about to come in, or the starter sleeps inside and some helper
outside has not been through the cycle and would be let in (`CountMayRiseIff`; `CountRisesAgain` is one such run). The
stable fact after an exit is that no work is left (`ExitMeansNoWork`). A range whose length is not a multiple of
ALIGNMENT is scanned without its topmost aligned word (`ChunkIsCompleteIff` gives the exact condition); no caller in
the files modelled makes such a range. The halves of a range that is shared between helpers overlap in one word. The
black-list guarantee of `GC_allochblk_nth` has an exception for very large objects in very large blocks, which
`AllochblkCareful` states. An overflow of the mark stack while finalizable objects are marked from makes the original mark
such an object itself, so that it is not queued (`QueuedExactly` says when that cannot happen). Coalescing of all adjacent free blocks depends on joint sizes fitting a signed word; the
bound is the parameter `limit`.

## Model

| member | source | states |
|---|---|---|
| `MarkInvariant.MarkSomeKeeps` | gc/mark.c:262-386 | Invariant "I" (a marked object is dirty, or awaits the rescuer or repair scan beyond the scan pointer, or points only to marked objects and to what lies on the mark stack; and a page of static data is dirty, or awaits the pushing of roots, or is likewise covered) survives every call of GC_mark_some in all six states, with overflow at any push, whether or not the stack can be enlarged, and whichever roots besides static data the call sees. |
| `MarkInvariant.ScanKeeps` | gc/mark.c:274-320 | A scan step for rescuers or uncollectable objects keeps "I" with exactly the objects from the new scan pointer on as exceptions. |
| `MarkInvariant.ScanTopCovers` | gc/mark.c:532-778 | One turn of the marking loop loses no word: every word that was marked through or on the stack still is, unless the stack overflowed and the state is invalid. |
| `MarkInvariant.MarkFromCovers` | gc/mark.c:516-778 | Areas that were covered stay covered through a whole run of GC_mark_from that does not overflow. |
| `MarkInvariant.PushMarkedFits` | gc/mark.c:1741-1794 | Given room for all objects of a block, pushing its marked objects never overflows and covers all of them. |
| `MarkInvariant.PushNextFits` | gc/mark.c:1863-1953 | A scan step handles the first block from the scan pointer on that its filter selects, skips none, and moves past it; it resets the pointer only when no block is left. |
| `MarkInvariant.StaticPagesAre` | gc/mark.c:1287-1313 | GC_push_roots(FALSE), after the search for rescuers, pushes exactly the pages of static data found dirty; GC_push_roots(TRUE) pushes all. |
| `MarkInvariant.RootsStatics` | gc/mark.c:1287-1313 | After GC_push_roots every page of static data is covered, the pages not pushed included, provided that what was not pushed was covered before. |
| `MarkInvariant.MarkSomeStatics` | gc/mark.c:262-386 | The part of "I" about static data survives every call of GC_mark_some: a page is dirty, or awaits the pushing of roots, or is covered. |
| `MarkTheorems.StoppedMarkIsComplete` | gc/mark.c:299-380 | When a stopped mark ends, every object reachable from the roots and from any set of marked objects is marked. |
| `MarkTheorems.MarkSomeOnly` | gc/mark.c:262-386 | No call of GC_mark_some marks an object that the roots and the initially marked objects do not lead to. |
| `MarkTheorems.MarkSomeProgress` | gc/mark.c:354-380 | Every call of GC_mark_some decreases a lexicographic measure (unmarked objects, state, blocks left to scan, stacked words), overflows included, because an overflow needs a newly marked object. |
| `MarkTheorems.MarkAllEnds` | gc/mark.c:354-380 | Calling GC_mark_some until it returns TRUE ends, in state MS_NONE, with the stronger invariant of the stopped world. |
| `MarkTheorems.MarkSomeFrame` | gc/mark.c:262-386 | GC_mark_some leaves heap and dirty bits alone and never unmarks; it returns TRUE exactly when it has reached MS_NONE; the roots it has seen are covered when they are pushed; it declares the marks invalid only after noting that the stack is too small; and it doubles the stack exactly where a mark ends or is started anew after that, if there is memory. |
| `MarkTheorems.TooSmallIs` | gc/mark.c:262-386 | When the stack counts as too small: after an overflow, or when rescuers leave no room for a block; and until it has been made larger. |
| `MarkTheorems.Turn` | gc/mark.c:262-386 | If the stack has room enough (which depends on the state) a call goes on to the next block that is due in that state, skipping none, and puts all its marked objects on the stack; or it goes on to the roots if no block is left. Otherwise the scan pointer stays. After marks have been cleared uncollectable objects come first. |
| `MarkTheorems.PushLoses` | gc/mark.c:484-499 | A push loses entries only when the stack is full: then just an eighth of the initial size from the top, with the marks declared invalid and the stack too small; the new entry is on top in any case. |
| `MarkTheorems.ClearMarksKeeps` | gc/mark.c:199-205 | GC_clear_marks establishes the invariant, and marked stay exactly the uncollectable objects that were marked. |
| `MarkTheorems.FullCollectionIsExact` | gc/mark.c:199-386 | From GC_clear_marks in a stopped world, however often the stack overflows, the marked objects are in the end exactly those reachable from the roots and from the uncollectable objects marked before. |
| `MarkRuns.IncrementalInvariant` | gc/include/private/gc_pmark.h:454-475 | In incremental mode "I", for marked objects and for pages of static data, holds at every point of every run, with arbitrary mutator writes between steps. |
| `MarkRuns.FinishedCollectionIsSound` | gc/alloc.c:815-979 | Over every run: when GC_finish_collection runs, everything reachable when the world was restarted is marked, whatever the mutator wrote and however many stopped marks were given up, although after the search for rescuers only dirty pages of static data are pushed. |
| `MarkRuns.CompletedMarksAreClosed` | gc/alloc.c:872-914 | At the moment a stopped mark ends, marked objects point to marked objects only. |
| `MarkRuns.PartialStarts` | gc/mark.c:209-229 | A partial collection keeps all marks, and looks for rescuers on exactly the pages that have become dirty since the collection before began. |
| `MarkRuns.RescuersAreDirty` | gc/mark.c:274-297 | Over every run: until a partial collection goes on to the roots, every block it pushes was dirty when it began, whatever the program has written since. |
| `MarkRuns.MutatorNotFarther` | gc/alloc.c:590-601 | Whatever the program writes and allocates between two marking steps, the mark gets no farther from its end: with MarkSomeProgress, marking with the world running ends too. |
| `MarkerObject.Marker.constructor` | gc/mark.c:1183-1186 | A marker with an empty stack in state MS_NONE. |
| `MarkerObject.Marker.PushEntry` | gc/mark.c:484-499 | A push on a full stack first drops the discarded entries and invalidates the state; otherwise the stack grows by the entry. |
| `MarkerObject.Marker.PushObj` | gc/include/private/gc_pmark.h:120-135 | An object with a nonzero descriptor is pushed, any other is not. |
| `MarkerObject.Marker.PushContents` | gc/include/private/gc_pmark.h:230-360 | A valid unmarked object is marked and pushed, nothing else changes. |
| `MarkerObject.Marker.PushRange` | gc/mark.c:737-758 | All words of a range are considered in order. |
| `MarkerObject.Marker.MarkFromTop` | gc/mark.c:532-778 | One turn: the top entry, or the first part of it with the rest put back, is scanned; the new state is that of the definition on values. |
| `MarkerObject.Marker.MarkFromMarkStack` | gc/mark.c:516-778 | GC_mark_from with its credit, until the stack is empty or the credit used up. |
| `MarkerObject.Marker.PushMarked` | gc/mark.c:1741-1794 | The marked objects of a block are pushed in order. |
| `MarkerObject.Marker.PushNextMarked` | gc/mark.c:1863-1953 | The block found is the first one the filter selects at or after the given place; its marked objects are pushed. |
| `MarkerObject.Marker.PushRoot` | gc/mark.c:1195-1214 | A root area goes on the stack as one entry, or is scanned at once when the stack is nearly full. |
| `MarkerObject.Marker.PushRoots` | gc/mark_rts.c:888-961 | Pages of static data are pushed, all of them or the dirty ones only, and then each other root area that is visible. |
| `MarkerObject.Marker.RootsAndAdvance` | gc/mark.c:286-296 | Pushing roots, with the dirty pages of static data only after the search for rescuers, and the change of state that follows. |
| `MarkerObject.Marker.AllocMarkStack` | gc/mark.c:1140-1181 | The stack is emptied and replaced by one of the given size, or kept if there is no memory for that; the request for a larger one is withdrawn. |
| `MarkerObject.Marker.PushRescuersStep` | gc/mark.c:274-297 | The MS_PUSH_RESCUERS case. |
| `MarkerObject.Marker.PushUncollectableStep` | gc/mark.c:299-319 | The MS_PUSH_UNCOLLECTABLE case. |
| `MarkerObject.Marker.ScanStep` | gc/mark.c:361-379 | The heap scan of the two invalid states. |
| `MarkerObject.Marker.InvalidStep` | gc/mark.c:354-380 | The MS_INVALID and MS_PARTIALLY_INVALID cases, with the stack emptied first. |
| `MarkerObject.Marker.MarkSome` | gc/mark.c:262-386 | GC_mark_some in place refines the definition on values: same result, same new state. |
| `MarkerObject.Marker.ClearMarks` | gc/mark.c:199-205 | All collectable objects are unmarked, the state becomes MS_INVALID, and the scan pointer is reset. |
| `MarkerObject.Marker.InvalidateMarkState` | gc/mark.c:478-482 | The state is invalid and the stack empty. |
| `MarkerObject.Marker.InitiateGc` | gc/mark.c:209-229 | The dirty bits are fetched in incremental mode, a finished mark turns to rescuing, an invalid one is left as it is, and the scan pointer is reset. |
| `CollectorDriver.Collector.MarkSomeRunning` | gc/alloc.c:725-728 | A marking step with the world running extends the run by one legal step. |
| `CollectorDriver.Collector.StopWorld` | gc/alloc.c:842-869 | Stopping the world and GC_initiate_gc are a legal step, possible only where marks were just cleared or an incremental mark has ended; marked is then what was marked before, and uncollectable objects allocated meanwhile. |
| `CollectorDriver.Collector.MarkSomeStopped` | gc/alloc.c:874-885 | A stopped marking step brings the mark nearer to its end, and marks nothing that cannot be reached. |
| `CollectorDriver.Collector.MarkUntil` | gc/alloc.c:874-893 | The marking loop ends; it goes on as long as the stop function says no, calls GC_mark_some once for each of these answers, and reports success only after GC_mark_some has returned TRUE. |
| `CollectorDriver.Collector.StoppedMark` | gc/alloc.c:815-979 | GC_stopped_mark returns TRUE only after a mark that ran to its end in the stopped world, and always with GC_never_stop_func; then marked is exactly what can be reached from the roots and from what was marked when the world was stopped. It is given up exactly at the first yes of the stop function; the deficit is then the number of calls of GC_mark_some made, and without incremental mode the marks are invalid and the stack empty. |
| `CollectorDriver.Collector.FinishCollection` | gc/alloc.c:1122-1268 | It is only ever entered when every object reachable when the world was restarted is marked. |
| `CollectorDriver.Collector.ChooseKind` | gc/alloc.c:508-521 | Full and partial collections are chosen by the counter, and marks are cleared before a full one. |
| `CollectorDriver.Collector.MaybeGc` | gc/alloc.c:492-542 | If no collection is due nothing changes. Otherwise the counter of partial collections moves on as the choice of kind demands, and either a complete stopped mark is finished (always, without incremental mode or a time limit; never if time is out at once) or marking goes on incrementally and a partial attempt is counted. A finished collection has marked exactly what can be reached from the roots and from what was marked when the world was stopped; if a full one was due those are uncollectable objects only, otherwise all that was marked before. |
| `CollectorDriver.Collector.CollectALittleInner` | gc/alloc.c:711-766 | A deficit is worked off before any marking, then as many calls of GC_mark_some are made as the work units less the deficit, and no deficit is left; when a mark in progress ends it is either finished by a stopped mark or put off, and put off at most max_prior_attempts times; with GC_dont_gc nothing is collected; a finished collection leaves no mark in progress and has marked exactly what could be reached. |
| `CollectorDriver.Collector.FinishOrRetry` | gc/alloc.c:733-756 | Either the stopped mark is finished, and its marks are exact; or it was cut short below the limit of attempts, is counted, and goes on incrementally. Below the limit it is cut short if time is out at once; at the limit it has to succeed. |
| `CollectorDriver.Collector.FinishInProgress` | gc/alloc.c:590-601 | The loop that finishes a collection in progress ends, whatever the program does meanwhile: each turn works off some of the deficit, or brings the mark nearer to its end, or uses up one of the attempts; with GC_never_stop_func no collection is in progress afterwards. |
| `CollectorDriver.Collector.TryToCollectInner` | gc/alloc.c:568-662 | TRUE means that a full stopped mark was finished after a collection in progress was: marked is exactly what can be reached from the roots and from uncollectable objects, whatever was marked before. With GC_dont_gc nothing happens; with GC_never_stop_func and without GC_dont_gc it always succeeds. |
| `RangeScanModel.PositionsAre` | gc/mark.c:700-737 | The places of a range are exactly the ALIGNMENT-spaced addresses from its start at which a word fits, each once. |
| `RangeScanModel.ChunkIsComplete` | gc/mark.c:698-774 | If its length is a multiple of ALIGNMENT, a chunk is considered completely and each place once, whichever word is put off to the end. |
| `RangeScanModel.TopmostIsMissed` | gc/mark.c:698-774 | If its length is not a multiple of ALIGNMENT, the topmost place of a chunk is never considered. |
| `RangeScanModel.ChunkIsCompleteIff` | gc/mark.c:698-774 | A chunk is considered completely if and only if its length is a multiple of ALIGNMENT. |
| `RangeScanModel.PositionsCut` | gc/mark.c:586-601 | Cutting a range and extending the lower part by a word less ALIGNMENT splits the places without loss or repetition. |
| `RangeMarkModel.HalvesShareOne` | gc/mark.c:562-583 | The two halves of a shared range have all its places, and the one at the cut twice. |
| `RangeMarkModel.ConsiderAllGrows` | gc/include/private/gc_pmark.h:120-146 | Considering words marks every object they refer to, finds each new object just once, and unless the stack overflows puts exactly those on it. |
| `RangeMarkModel.OverflowsIff` | gc/mark.c:484-499 | A sequence of words makes the stack overflow if and only if the objects found do not all fit on it. |
| `RangeMarkModel.OverflowLoses` | gc/mark.c:484-499 | An overflow loses just the configured number of entries from the top, and the object is on top afterwards. |
| `RangeMarkObject.AlignedRangeCovers` | gc/mark.c:1195-1214 | Every aligned word of an area is a place of the range that GC_push_all makes of it, although the length is rounded. |
| `RangeMarkObject.AlignedRangeIsWhole` | gc/mark.c:1199-1213 | GC_push_all makes only ranges whose length is a multiple of ALIGNMENT, so none of their places is missed. |
| `RangeMarkObject.RangeMarker.constructor` | gc/mark.c:1183-1186 | An empty stack, nothing owed. |
| `RangeMarkObject.RangeMarker.PushAll` | gc/mark.c:1195-1214 | The aligned part of an area is pushed, or nothing if it is empty; it fails exactly where the original aborts. |
| `RangeMarkObject.RangeMarker.PushContents` | gc/include/private/gc_pmark.h:120-146 | One word considered, in place: marks, stack and overflow as defined on values. |
| `RangeMarkObject.RangeMarker.ScanHigh` | gc/mark.c:704-735 | From the top down, the first word that may be a pointer is put off, and all words seen before it are no pointers. |
| `RangeMarkObject.RangeMarker.ScanLow` | gc/mark.c:737-758 | The places from the low end up to the limit are considered in order. |
| `RangeMarkObject.RangeMarker.ScanRange` | gc/mark.c:698-774 | The words considered, their order, and the new stack and marks are those of the definition on values. |
| `RangeMarkObject.RangeMarker.Halve` | gc/mark.c:562-583 | One halving: the lower half with the word at the cut goes on the stack, and nothing is lost. |
| `RangeMarkObject.RangeMarker.ShareOut` | gc/mark.c:541-584 | Halving goes on until the range is short or the stack is full. |
| `RangeMarkObject.RangeMarker.CutChunk` | gc/mark.c:586-601 | The first chunk is cut off so that words across the cut are still seen, and the rest is put back. |
| `RangeMarkObject.RangeMarker.MarkTop` | gc/mark.c:532-778 | One turn of the loop keeps the account of places, and considers as many words as it has been charged for. |
| `RangeMarkObject.RangeMarker.MarkFrom` | gc/mark.c:516-778 | GC_mark_from keeps the account (without overflow, what has been considered and what is stacked make up all ranges pushed and objects found), and returns only with an empty stack or after more than a block's worth of words. |
| `RangeMarkObject.RangeMarker.AllConsidered` | gc/mark.c:516-778 | With an empty stack and no overflow, every place of every range pushed and object found has been considered, exactly once without halving, and everything they refer to is marked. |
| `ParallelMarkProofs.InitInv` | gc/mark.c:782-801 | The invariant of the parallel marker holds before the first cycle. |
| `ParallelMarkProofs.StepKeeps` | gc/mark.c:847-1134 | Every atomic step of every thread keeps the invariant: counters, roles, waits, consumed entries below GC_first_nonempty, no pointer lost unless the mark state is invalid. |
| `ParallelMarkProofs.StealKeeps` | gc/mark.c:855-859 | Reading an entry keeps the invariant though another helper may read it too. |
| `ParallelMarkProofs.ZeroKeeps` | gc/mark.c:856-862 | Zeroing an entry loses nothing, since the thread that zeroes it holds it. |
| `ParallelMarkProofs.SwapKeeps` | gc/mark.c:1001-1009 | Advancing GC_first_nonempty by compare-and-swap passes over consumed entries only. |
| `ParallelMarkProofs.CompareKeeps` | gc/mark.c:1001-1009 | The comparison and the swap, failed or not, keep the invariant. |
| `ParallelMarkProofs.ReturnKeeps` | gc/mark.c:883-910 | Entries given back reach the shared stack, or are dropped with the mark state declared invalid. |
| `ParallelMarkProofs.MarkKeeps` | gc/mark.c:933-967 | A step of local marking, including the return of entries for idle helpers, loses no pointer without saying so. |
| `ParallelMarkProofs.ExitIsSafe` | gc/mark.c:1019-1054 | When the exit test succeeds no thread holds an entry and every shared entry has been taken. |
| `ParallelMarkProofs.NeverBadStart` | gc/mark.c:1078-1092 | The abort in GC_do_parallel_mark is never reached. |
| `ParallelMarkTheorems.ExitMeansNoWork` | gc/mark.c:1019-1072 | Once some helper has left GC_mark_local no work is left anywhere, and that stays so until the next cycle, late helpers notwithstanding. |
| `ParallelMarkLate.CountStaysZeroIff` | gc/mark.c:785-790 | After a thread has left GC_mark_local, GC_active_count stays zero up to any later point of the cycle if and only if no helper enters up to there. |
| `ParallelMarkLate.CountMayRiseIff` | gc/mark.c:978-1134 | Where the comment fails, exactly: from a state in which a thread has just left, the run can go on within the cycle so that the count rises if and only if a helper is about to enter, or the starter sleeps inside GC_mark_local and some helper outside has not been through this cycle and would be let in. |
| `ParallelMarkLate.CountStaysZero` | gc/mark.c:1108-1134 | A plainer sufficient condition: nobody is about to enter, and help is no longer wanted or all helpers outside have been through this cycle. |
| `ParallelMarkLate.CountRisesAgain` | gc/mark.c:785-790 | Contrary to the comment there is a run in which the count returns to zero, a helper leaves, and a late helper raises the count again within the cycle. |
| `ParallelMarkTheorems.ParallelMarkIsComplete` | gc/mark.c:1078-1106 | When GC_do_parallel_mark is done marked objects lead to marked objects only, or the mark state is invalid; and the stack is used up. |
| `ParallelMarkExact.InvalidIff` | gc/mark.c:883-967 | Over every run: the mark state is invalid if and only if since the start of the mark some part given back did not fit the shared stack, or some object was pushed on a full local stack. |
| `ParallelMarkExact.GivenBack` | gc/mark.c:883-910 | Entries that are given back are on the shared stack afterwards, in order and untaken, if and only if there is room for them; otherwise the stack is unchanged and the state invalid. |
| `ParallelMarkExact.FittingMarkIsComplete` | gc/mark.c:1078-1106 | A mark in which the stacks always have room ends valid, and marked objects lead to marked objects only. |
| `ParallelMarkExact.OnlyReachedMarked` | gc/mark.c:847-1106 | Over every run, whatever the interleaving: marked is only what the objects marked at the start, and those on the stack, lead to. |
| `ParallelMarkExact.ParallelMarkIsExact` | gc/mark.c:1078-1106 | When the starter is done with a valid mark, marked is exactly what the objects marked at the start, and those on the stack, lead to. |
| `ParallelMarkTheorems.FirstNonempty` | gc/mark.c:978-1072 | Everything below GC_first_nonempty is consumed, and it is at most one past the top, for the shared variable and for each helper's copy. |
| `ParallelMarkTheorems.NoDeadlock` | gc/mark.c:1019-1134 | While a parallel mark goes on, some thread can take a step. |
| `ParallelMarkTheorems.NoLostWakeup` | gc/mark.c:1019-1134 | A helper that waits un-notified has an active helper to wait for, and an un-notified starter a helper that has still to leave. |
| `ParallelMarkEnd.ParallelMarkEnds` | gc/mark.c:978-1106 | Parallel marking ends: in every fair run without further spurious wake-ups, from any point reached before, the starter returns from GC_do_parallel_mark, and then no work is left. Sharing, stealing and failing compare-and-swaps are arbitrary, and an object may be pushed by several threads in a race, but not twice by the same thread. |
| `ParallelMarkEnd.StepBelow` | gc/mark.c:847-1106 | Every step of every thread, busy loops and turned-away helpers included, lowers a measure: phase of the starter, objects not yet pushed by each thread, room on the shared stack, what each thread has before it, GC_first_nonempty, local work, place in the loop, stage of waiting. |
| `ParallelMarkEnd.MarkGoesOn` | gc/mark.c:1019-1134 | Such a run never gets stuck: until the mark is over some thread can take a step, without relying on a race. |
| `ParallelMarkEnd.RunSound` | gc/mark.c:847-1072 | Over every run a value of GC_first_nonempty that has been loaded is not ahead of it, a search for entries to steal passes over at least one slot, only nonempty parts are given back, and the shared stack stays within its bounds. |
| `ParallelMarkTheorems.CountersAreExact` | gc/mark.c:978-1134 | GC_active_count and GC_helper_count equal the numbers of threads between their increments and decrements. |
| `ParallelMarkRounds.MarkNumber` | gc/mark.c:1096-1106 | Over every run GC_mark_no counts the marks that have been completed. |
| `ParallelMarkRounds.HelpsOnce` | gc/mark.c:1108-1134 | Over every run a helper that has left GC_mark_local does not come back before the mark is over. |
| `ParallelMarkRounds.HelperChooses` | gc/mark.c:1108-1134 | A helper that is behind catches up with the mark number; one that is ahead, or whose mark has no need of help, waits; otherwise it helps, unless there are helpers enough. |
| `ParallelMarkRounds.StealsFew` | gc/mark.c:838-876 | Over every run nobody takes more than two entries at a time if fewer than ten seemed to be there, and never more than six. |
| `ParallelMarkRounds.OverflowLoses` | gc/mark.c:933-967 | An object pushed on a full local stack replaces just the configured number of entries on top, and the state is invalid. |
| `ParallelMarkLock.RunLocked` | gc/mark.c:978-1134 | Over every run at most one thread holds the mark lock, every helper inside GC_mark_local works for the present mark number, and GC_help_wanted is set exactly while the starter is inside. |
| `ParallelMarkLock.MutualExclusion` | gc/mark.c:978-1134 | Over every run the mark lock excludes: two threads in critical sections are the same thread. |
| `HeapModel.PrevHead` | gc/headers.c:392-422 | The nearest header at or before a page, none in between. |
| `HeapTheorems.FreeBlockKeeps` | gc/allchblk.c:934-993 | Freeing a block keeps the whole heap invariant (tiling, lists, counters, mapped flags, conservation), and the free bytes grow by the size of the block. |
| `HeapTheorems.FreeBlockFrees` | gc/allchblk.c:934-993 | Just the pages of the freed block become free; all other blocks in use, and their forwarding counts, stay as they are. |
| `HeapTheorems.FreeBlockCoalesces` | gc/allchblk.c:959-992 | Without unmapping and while sizes fit a signed word, freeing leaves no two adjacent free blocks. |
| `HeapTheorems.FreedComesFirst` | gc/allchblk.c:964-992 | The freed block, with what it was coalesced with, is the first one on the list of its size. |
| `HeapTheorems.AddSectionKeeps` | gc/alloc.c:1353-1483 | A new section becomes free memory of the heap and everything stays in order. |
| `HeapTheorems.AddSectionUsed` | gc/alloc.c:1353-1483 | Growing the heap touches no block in use. |
| `HeapTheorems.AddSectionCoalesces` | gc/alloc.c:1434-1441 | Growing the heap leaves no two adjacent free blocks either. |
| `HeapTheorems.EndingFound` | gc/allchblk.c:330-351 | get_block_ending_at finds the block that ends at a page. |
| `HeapAlloc.FirstPartSound` | gc/allchblk.c:590-615 | GC_get_first_part leaves the heap sound, with the rest on the list its size selects. |
| `HeapAlloc.FrontPartSound` | gc/allchblk.c:631-660 | After GC_split_block and the removal of its second part the heap is sound, though the part was on a wrong list for a moment. |
| `HeapAlloc.CarveKeeps` | gc/allchblk.c:795-925 | Cutting an object's block out of a free block keeps the heap in order and accounts for its pages. |
| `HeapAlloc.DropKeeps` | gc/allchblk.c:836-878 | Dropping a black-listed block in one-page chunks keeps the heap in order and the account of pages exact. |
| `HeapAlloc.JudgeRoom` | gc/allchblk.c:752-835 | Whatever start the search decides on, the object fits there within the free block; only mapped blocks of suitable size are dropped. |
| `HeapAllochblk.AllochblkKeeps` | gc/allchblk.c:677-731 | Allocation keeps the heap in order, touches no block in use, and hands out pages that were free, as many as asked for. |
| `HeapModel.BinMonotone` | gc/allchblk.c:84-91 | Larger blocks are never on lower lists; below the threshold each size has its own list, above it a list has at most eight sizes, and the last one exactly the huge blocks. |
| `HeapBlack.AllochblkCareful` | gc/allchblk.c:783-835 | An object that is neither uncollectable nor small and pointer-free starts at the lowest usable page of its free block, except when object and block are too large for that. |
| `HeapComplete.FromComplete` | gc/allchblk.c:735-925 | For every kind: a list is searched until a block serves, the skips for a better next block never pass the last one that does; a search that fails gives up hopeless blocks only, every fourth that it meets. |
| `HeapComplete.AllochblkComplete` | gc/allchblk.c:677-925 | For every kind, when all lists may be split: allocation fails if and only if no free block serves (is large enough and, if the object is tested, has a usable place for it or is large enough for the black lists to be ignored); and it takes a block of exactly the right size if one of these serves. |
| `HeapComplete.AllochblkLimited` | gc/allchblk.c:677-731 | Under any policy a block of the right size that serves is found, and a larger one if its list may be split by the count of bytes. |
| `HeapComplete.AllochblkUntested` | gc/allchblk.c:752-782 | Uncollectable and small pointer-free requests fail if and only if no free block is large enough. |
| `HeapComplete.AllochblkTested` | gc/allchblk.c:782-835 | Any other request fails if and only if no free block that is large enough has a usable place for the object, and none is so large that the black lists are ignored. |
| `HeapComplete.OnlyHopelessGivenUp` | gc/allchblk.c:836-878 | Under any policy a failing search gives up only mapped free blocks of which no page is usable, when one page was wanted, and as many as every fourth one that it has met. |
| `HeapChoice.FromChooses` | gc/allchblk.c:742-835 | The block taken from a list is the first that serves and is not followed by a smaller one that is still large enough and starts on usable pages. |
| `HeapChoice.AllochblkChooses` | gc/allchblk.c:677-731 | When all lists may be split the block taken has the right size if any block of that size serves, and otherwise comes from the first list that has a block that serves; the object goes to its start or to its first usable place. |
| `HeapChoice.AllochblkThrifty` | gc/allchblk.c:694-731 | When not, a larger block is taken only if finalization is not being waited for and enough is free from its list on; and an unmapped block is never split in front of the object. |
| `HeapChoice.EachHopelessMetOnce` | gc/allchblk.c:836-878 | An allocation that fails counts every hopeless block in the heap exactly once. |
| `HeapBlack.EnoughFromIs` | gc/allchblk.c:70-81 | GC_enough_large_bytes_left finds the largest list from which on the free bytes, with those in large blocks, reach the maximum so far. |
| `HeapBlack.EnoughLargeIs` | gc/allchblk.c:70-81 | The same for the whole function. |
| `HeapBlack.ListsHoldFreePages` | gc/allchblk.c:104-119 | The counters of the lists add up to all free pages. |
| `HeapBlack.LargeFreeIsListed` | gc/allchblk.c:104-119 | What GC_compute_large_free_bytes sums up is GC_large_free_bytes. |
| `HeapMerge.MergeListKeeps` | gc/allchblk.c:513-577 | Merging a list ends although it restarts at the head after each merge, changes free blocks only, and leaves no mergeable block on that list or a lower one. |
| `HeapMerge.MergeUnmappedMerges` | gc/allchblk.c:513-577 | GC_merge_unmapped ends, keeps the mapped flags true of whole blocks, and leaves no free block with a free successor it could be merged with. |
| `HeapMerge.MergedLikeLarger` | gc/allchblk.c:530-569 | A merged block is mapped or unmapped as the larger of the two was, or the second one if they are equally large, and no page of that one, or outside, changes. |
| `HeapMerge.UnmapOldUnmaps` | gc/allchblk.c:465-508 | GC_unmap_old unmaps exactly the old free blocks, and keeps the heap in order. |
| `HeapRuns.PerformKeeps` | gc/allchblk.c:186-217 | Every operation keeps the layout invariant: blocks tile the sections, each free block is on the one list its size selects, counters are right. |
| `HeapRuns.UsedBlocksStay` | gc/allchblk.c:186-217 | No operation touches a block in use, but the freeing of that very block. |
| `HeapRuns.HeapRunInv` | gc/allchblk.c:186-217 | The layout invariant holds after any sequence of growth, allocation, freeing, unmapping and merging. |
| `HeapRuns.NothingIsLost` | gc/checksums.c:118-138 | At any time the heap size is the free pages plus the pages of blocks in use, and the lists account for all free pages. |
| `HeapRuns.AlwaysCoalesced` | gc/allchblk.c:959-992 | Without unmapping, while the heap's size fits a signed word, no two adjacent blocks are both free after any operation. |
| `PageIndexModel.JumpStays` | gc/headers.c:279-297 | A forwarding count stays within its block. |
| `PageIndexModel.FollowReaches` | gc/headers.c:279-297 | From any page of a block in use the counts lead to its first page. |
| `PageIndexModel.JumpsAreFew` | gc/headers.c:279-297 | As few counts are followed as their range allows: one for each 4095 pages, rounded up. |
| `PageIndexModel.FreePagesAreNil` | gc/headers.c:309-325 | Pages inside free blocks have no entry. |
| `PageIndexModel.NextHead` | gc/headers.c:356-390 | The first wanted block at or after a page, with none in between, and 0 only if there is none. |
| `PageIndexModel.BaseFinds` | gc/misc.c:416-453 | For every address inside an object GC_base returns the object's start. |
| `PageIndexModel.BaseIsObject` | gc/misc.c:416-453 | What GC_base returns, if not 0, is the start of an object that contains the address. |
| `PageIndexModel.HeaderForIsUsed` | gc/headers.c:44-100 | A header is returned only for an address in a block in use, and past the first page only with interior pointers and inside the object. |
| `PageIndexModel.HeaderForFinds` | gc/headers.c:44-100 | For an address inside an object the header of its block is found if and only if it is on the block's first page, or interior pointers are recognized and the block does not ignore them; otherwise none is. |
| `PageIndexModel.HeaderForElsewhere` | gc/headers.c:44-100 | On the first page of a block in use the header is always found; an address in no block in use is black-listed; past the first page one is black-listed exactly if it is past the object where interior pointers count. |
| `PageIndexObject.PageIndex.constructor` | gc/headers.c:190-204 | An empty index. |
| `PageIndexObject.PageIndex.GetIndex` | gc/headers.c:208-258 | A bottom-level index is put into its place in the sorted list, and no entry changes. |
| `PageIndexObject.PageIndex.InstallHeader` | gc/headers.c:263-276 | Just the entry of the block's page becomes a header. |
| `PageIndexObject.PageIndex.RemoveHeader` | gc/headers.c:300-306 | Just that entry is cleared. |
| `PageIndexObject.PageIndex.InstallCounts` | gc/headers.c:279-297 | The pages of the block after the first get their counts, limited by MAX_JUMP, and no others change. |
| `PageIndexObject.PageIndex.RemoveCounts` | gc/headers.c:309-325 | The pages of the block after the first are cleared, and no others change. |
| `PageIndexObject.PageIndex.FollowCounts` | gc/misc.c:430-436 | The loop ends at the page that following the counts leads to. |
| `PageIndexObject.PageIndex.GcBase` | gc/misc.c:416-453 | GC_base in place computes the defined result. |
| `PageIndexObject.PageIndex.HeaderCacheMiss` | gc/headers.c:44-100 | GC_header_cache_miss in place computes the defined result. |
| `PageIndexObject.PageIndex.PrevBlock` | gc/headers.c:392-422 | The two-level search downward agrees with a plain search over blocks. |
| `PageIndexObject.PageIndex.NextBlock` | gc/headers.c:356-390 | The two-level search upward agrees with a plain search over blocks. |
| `PageIndexObject.PageIndex.ApplyToAllBlocks` | gc/headers.c:330-354 | Each block in use is visited exactly once, and nothing else. |
| `PageIndexObject.ObjectAt` | gc/misc.c:438-452 | The arithmetic at the end of GC_base. |
| `HeapBlocks.Allocator.constructor` | gc/allchblk.c:48-66 | Empty lists and an empty index. |
| `HeapBlocks.Allocator.RemoveFromFlAt` | gc/allchblk.c:300-320 | Unlinking a block leaves mutually inverse links and the right counter. |
| `HeapBlocks.Allocator.AddToFl` | gc/allchblk.c:370-399 | Linking a block in front of the list its size selects. |
| `HeapBlocks.Allocator.BlockEndingAt` | gc/allchblk.c:330-351 | The in-place search finds what the plain one does. |
| `HeapBlocks.MayFree` | gc/allchblk.c:934-958 | In a heap that is in order every block meets what GC_freehblk relies on. |
| `HeapBlocks.Allocator.AbsorbNextInPlace` | gc/allchblk.c:964-971 | Coalescing with the successor. |
| `HeapBlocks.Allocator.AbsorbPrevInPlace` | gc/allchblk.c:972-992 | Coalescing with the predecessor, and the choice of list. |
| `HeapBlocks.Allocator.Freehblk` | gc/allchblk.c:934-993 | GC_freehblk in place, with its aborts reported exactly. |
| `HeapBlocks.Allocator.AddToHeap` | gc/alloc.c:1353-1483 | GC_add_to_heap in place, with its trimming of the section. |
| `HeapBlocks.Allocator.RemapInPlace` | gc/allchblk.c:899-905 | A whole unmapped block is mapped and its flag cleared. |
| `HeapBlocks.Allocator.SplitBlock` | gc/allchblk.c:631-660 | GC_split_block in place, including the block that stands on a wrong list for a moment. |
| `HeapBlocks.Allocator.TakeBack` | gc/allchblk.c:598-660 | GC_split_block followed by the removal of the second part in GC_get_first_part leaves the lists as if the whole block had been removed and its first part added. |
| `HeapBlocks.Allocator.GiveBack` | gc/allchblk.c:599-614 | What is not needed of the block goes to the list of its size. |
| `HeapBlocks.Allocator.SetUp` | gc/allchblk.c:226-297 | The block in use gets its counts and its header. |
| `HeapBlocks.Allocator.AllocateAt` | gc/allchblk.c:806-925 | The whole of an allocation at the chosen page, in place. |
| `HeapBlocks.Allocator.DropInPlace` | gc/allchblk.c:849-870 | Dropping a block in one-page chunks, in place. |
| `HeapBlocks.Allocator.BetterNext` | gc/allchblk.c:763-780 | Whether the next block is obviously better. |
| `HeapBlocks.Allocator.CheckStart` | gc/allchblk.c:781-848 | The verdict of the black-list tests. |
| `HeapBlocks.Allocator.Consider` | gc/allchblk.c:752-848 | The verdict on one block of the list. |
| `HeapBlocks.Allocator.DropAndGoOn` | gc/allchblk.c:849-878 | After a drop the search goes on where the definition says, from the head of the list if there was no block before. |
| `HeapBlocks.Allocator.AllochblkNth` | gc/allchblk.c:742-925 | GC_allochblk_nth in place computes the defined outcome. |
| `HeapBlocks.Allocator.Allochblk` | gc/allchblk.c:677-731 | GC_allochblk in place computes the defined outcome. |
| `HeapBlocks.Allocator.EnoughLargeLeft` | gc/allchblk.c:70-81 | The loop computes the defined limit. |
| `HeapBlocks.FirstUsable` | gc/allchblk.c:791-797 | The loop stops at the defined page. |
| `HeapBlocks.Allocator.UnmapOld` | gc/allchblk.c:465-508 | GC_unmap_old in place. |
| `HeapBlocks.Allocator.MergeInPlace` | gc/allchblk.c:530-569 | One merge in place, with the smaller block mapped or unmapped first. |
| `HeapBlocks.Allocator.MergeUnmapped` | gc/allchblk.c:513-577 | GC_merge_unmapped in place, restarts included. |
| `BlackListModel.SearchIsExact` | gc/blacklst.c:232-269 | GC_is_black_listed returns 0 exactly for usable starts; otherwise every start before the returned page is black-listed. |
| `BlackListModel.LowestStart` | gc/allchblk.c:791-797 | The loop of GC_allochblk_nth finds the lowest usable start in the block, or correctly none. |
| `BlackLists.BlackList.constructor` | gc/blacklst.c:92-121 | Empty tables of the right size; the normal ones only if interior pointers are not recognized. |
| `BlackLists.BlackList.IsBlackListed` | gc/blacklst.c:232-269 | The loop with its whole-word skips computes the search page by page. |
| `BlackLists.BlackList.AddStack` | gc/blacklst.c:215-230 | The page's bit is set if the reference is a false one. |
| `BlackLists.BlackList.AddNormal` | gc/blacklst.c:193-211 | The same for the other table. |
| `BlackLists.BlackList.Promote` | gc/blacklst.c:137-168 | The incomplete lists become the old ones and the tables of the old ones are emptied for new entries, the normal one only if interior pointers are not recognized. |
| `FinalizeTheorems.FinalizationOrder` | gc/finalize.c:995-1059 | No object queued by a call is reachable by a nonempty path from itself or from another object queued by it, neither once short links have disappeared nor at exit. |
| `FinalizeTheorems.UnmarkedAreQueued` | gc/finalize.c:1012-1058 | Exactly the finalizable objects still unmarked after the marking pass are queued, each once and in front of those waiting, and leave the table; the others stay. |
| `FinalizeBounds.QueuedExactly` | gc/finalize.c:995-1058 | If there are fewer unmarked objects than the mark stack has room for, a finalizable object is queued if and only if it is unmarked and no unmarked finalizable object leads to it by a nonempty path. |
| `FinalizeBounds.RevivedOnly` | gc/finalize.c:995-1011 | Whatever the marking pass has marked was marked before, or some unmarked finalizable object leads to it, or it is a finalizable object from which marking overflowed the stack. |
| `FinalizeBounds.MarkFoOnly` | gc/include/private/gc_pmark.h:434-446 | GC_MARK_FO marks only what the object leads to by a nonempty path; the object itself, and what leads from it, only if the mark stack overflows. |
| `FinalizeTheorems.QueuedBackwards` | gc/finalize.c:1016-1057 | The objects of one chain are queued in the reverse of the chain's order. |
| `FinalizeTheorems.QueueOrder` | gc/finalize.c:1012-1058 | The same for the whole table: the queue begins with what the pass met last, and those already waiting come after. |
| `FinalizeTheorems.MarksClosed` | gc/finalize.c:995-1059 | At exit nothing is unmarked that was marked before, the queued objects are marked, marked objects point to marked objects only, no mark is going on, and dirty bits set since the world was restarted are still there. |
| `FinalizeTheorems.LinksDisappear` | gc/finalize.c:919-993 | A short link is cleared if its object was unreachable before finalization marking, a long link if its object is still unmarked afterwards, and nothing else in memory changes. |
| `FinalizeTheorems.TablesAreClean` | gc/finalize.c:1118-1127 | Exactly the links that have not disappeared and whose place is not about to be reclaimed stay registered, so no entry has an unmarked object or place. |
| `FinalizeTheorems.FinalizeQueues` | gc/finalize.c:972-1059 | Marks, queue and table of finalizable objects after a call, together. |
| `FinalizeModel.DrainProgress` | gc/include/private/gc_pmark.h:428-446 | Emptying the mark stack ends: each round marks something or leaves less to scan. |
| `FinalizeModel.WritesKeepComplete` | gc/alloc.c:941 | Once the world runs again, writes set dirty bits but store only pointers to what could be reached, so pointers of marked objects still lead to marked ones and GC_finalize finds what it relies on. |
| `FinalizeModel.MarkFoCompletes` | gc/include/private/gc_pmark.h:434-443 | After GC_MARK_FO marking is complete again and the object's targets are marked, even if the stack overflowed. |
| `FinalizeModel.MarkTableCompletes` | gc/finalize.c:997-1011 | The same for the pass over the whole table. |
| `FinalizerObject.Finalizer.constructor` | gc/include/private/gc_priv.h:1313-1318 | Empty tables and queue. |
| `FinalizerObject.CleanMarkSome` | gc/mark.c:262-386 | No call of GC_mark_some depends on dirty bits set since they were last fetched: result and new state are the same without them. |
| `FinalizerObject.Finalizer.DisappearInChain` | gc/finalize.c:930-963 | One chain: links set to NULL and entries removed as defined. |
| `FinalizerObject.Finalizer.MakeLinksDisappear` | gc/finalize.c:919-967 | The whole table. |
| `FinalizerObject.Finalizer.MarkFo` | gc/include/private/gc_pmark.h:434-443 | GC_MARK_FO in place, with dirty bits that are set meanwhile left alone. |
| `FinalizerObject.Finalizer.MarkFromChain` | gc/finalize.c:999-1010 | The marking pass over one chain. |
| `FinalizerObject.Finalizer.EnqueueChain` | gc/finalize.c:1016-1057 | The queueing pass over one chain. |
| `FinalizerObject.Finalizer.MarkFromAll` | gc/finalize.c:997-1011 | The marking pass over the table. |
| `FinalizerObject.Finalizer.EnqueueAll` | gc/finalize.c:1015-1058 | The queueing pass over the table. |
| `FinalizerObject.Finalizer.Finalize` | gc/finalize.c:972-1138 | GC_finalize in place computes the defined new state, whatever dirty bits have been set since the world was restarted. |
| `LinkTable.Table.constructor` | gc/include/private/gc_priv.h:1313-1318 | An empty table that holds the empty map. |
| `LinkTable.SurvivorsAre` | gc/finalize.c:112-123 | Growing loses entries only to collections, of objects they found unreachable, and changes none. |
| `LinkTable.EnrolledIs` | gc/finalize.c:186-227 | A key that is registered has its value afterwards unless neither the collector nor the out-of-memory function has memory; it is reported as a duplicate only if it was known or others have registered it meanwhile; every other key is what it was, or lost to a collection, or what others have made of it. |
| `LinkTable.RoomyIff` | gc/finalize.c:112-117 | A forced collection has made enough room if and only if the entries and a quarter of them again are fewer than the chains, or the unsigned difference has wrapped around. |
| `LinkTable.LoadStaysLow` | gc/finalize.c:164-227 | While there is memory a table keeps at most one entry more than it has chains. |
| `LinkTable.Table.Redirect` | gc/finalize.c:180-187 | The loop over a chain gives a key that is known another value, and reports the old one. |
| `LinkTable.Table.Enroll` | gc/finalize.c:188-227 | From the allocation of an entry on, second attempt included, in place: map and result are those defined. |
| `LinkTable.Table.Reclaim` | gc/finalize.c:919-967 | The entries of the given keys are removed, chain by chain, and no others. |
| `LinkTable.Table.Rehash` | gc/finalize.c:124-149 | The same map in a table of twice the size. |
| `LinkTable.Table.AddEntry` | gc/finalize.c:216-227 | The map gains one key. |
| `LinkTable.Table.Grow` | gc/finalize.c:94-149 | The table becomes one of twice the size with each entry in the chain its new hash selects. What it holds is the map that collections have left: a large table is first collected for, except in incremental mode, and if that has made enough room nothing else happens; without memory for the larger table it stays as it is. |
| `LinkTable.Table.Register` | gc/finalize.c:161-227 | In the map that collections during growing and allocating have left, the link is added or redirected and nothing else changes. If there is no memory for an entry, others may use the table while the out-of-memory function is asked; with its memory the link is looked up again before it is added, without it nothing is added. Nothing happens when leaks are looked for; the result says which. |
| `LinkTable.Table.Unregister` | gc/finalize.c:245-273 | The map loses the link if it had it. |
| `LinkTable.Table.Move` | gc/finalize.c:511-562 | The link's object is re-registered under the new place, unless the link is unknown or the place is taken. |
| `LinkTable.Table.RegisterFinalizer` | gc/finalize.c:667-801 | In the map that collections during growing and allocating have left, a finalizer is added, replaced or removed, and the old one is reported, also after a second attempt with memory from the out-of-memory function; an object without header gets none. |
| `StopWorldTheorems.NextKeeps` | gc/pthread_stop_world.c:327-464 | Every interleaved step of a thread or of the stopping thread keeps the protocol's invariant. |
| `StopWorldTheorems.RunInv` | gc/pthread_stop_world.c:1053-1098 | The invariant holds over any number of rounds, including threads slow to leave the previous one. |
| `StopWorldTheorems.WorldIsStopped` | gc/pthread_stop_world.c:1053-1108 | From the return of GC_stop_world on, every thread but the stopping one and those that are blocked has published its stack pointer for this stop and sits in the handler's wait loop; the semaphore is zero. |
| `StopWorldTheorems.NobodyLeaves` | gc/pthread_stop_world.c:396-430 | None of these threads leaves that loop while the world is stopped, however often it is woken. |
| `StopWorldTheorems.NoFalseDuplicates` | gc/pthread_stop_world.c:358-380 | No thread takes a suspend signal for a duplicate, and none is passed over as stopped already. |
| `StopWorldTheorems.StopCannotHang` | gc/pthread_stop_world.c:447-464 | While an acknowledgement is outstanding, some signalled thread can go on without a chance wake-up. |
| `StopWorldTheorems.StartCannotHang` | gc/pthread_stop_world.c:396-430 | After GC_start_world every thread still in the handler can go on without a chance wake-up, and each of its steps brings it nearer to leaving. |
| `StopWorldTheorems.StopsAreCounted` | gc/pthread_stop_world.c:358-430 | GC_stop_count is twice the number of stops, and a thread that may be asleep has recorded the stop it sleeps for. |
| `SizeMapModel.InitGood` | gc/misc.c:240-255 | After GC_init_size_map, in every supported configuration (granules of 8 or 16 bytes, any block size and number of tiny sizes that fit together, with or without an extra byte), every filled entry is large enough for its size plus EXTRA_BYTES, and filled entries do not decrease. |
| `SizeMapModel.FitBounds` | gc/malloc.c:139-146 | For any block size the number of granules filled in is even, at least two and within the limit, and at least what was aimed at unless the limit is reached; as many objects fit a block as with the size before it was enlarged, and fewer with two granules more. |
| `SizeMapModel.InBounds` | gc/malloc.c:106-154 | All searches and writes stay within the map, the entry asked for is among those filled in, and what is aimed at is at most an eighth more than what is needed. |
| `SizeMapModel.ExtendKeeps` | gc/malloc.c:106-154 | Extending the map at an unfilled small size fills that entry with a large enough size, leaves no filled entry unfilled, and keeps the map good. |
| `SizeMapModel.ExtendFills` | gc/malloc.c:106-154 | No entry below three quarters of the rounded size changes, nor one too large for the new objects; entries close to the size are filled, and from three quarters on if none was close. |
| `SizeMapModel.ExtendWastes` | gc/malloc.c:106-154 | As many of the new objects fit a block as with an eighth and one granule more than needed, unless they have the largest size. |
| `SizeMapModel.SizeMapIsGood` | gc/malloc.c:106-154 | In every supported configuration, after any sequence of extensions filled entries are large enough and do not decrease with size, and every size asked for is filled. |
| `SizeMapObject.SizeMap.constructor` | gc/misc.c:240-255 | GC_init_size_map in place, for any supported configuration. |
| `SizeMapObject.SizeMap.Search` | gc/malloc.c:123-128 | The loop finds the first unfilled entry, which exists. |
| `SizeMapObject.SizeMap.AimAt` | gc/malloc.c:108-134 | The lower limit and the size aimed at, as defined. |
| `SizeMapObject.SizeMap.FitBlock` | gc/malloc.c:139-146 | The size is rounded, limited, and enlarged as far as the same number of objects fits the block. |
| `SizeMapObject.SizeMap.ExtendSizeMap` | gc/malloc.c:106-154 | GC_extend_size_map in place fills exactly the defined entries. |

## Left out

- Client mark procedures, bitmap and per-object descriptors, disclaim and unconditional marking, and the push-marked
  accelerators: an object's contents are its words, all of them considered or none.
- Conservative identification of pointers: in the marker a word is data or a reference to an object, valid or not; interior
  pointers appear in `GC_base` and `GC_header_cache_miss` only.
- Allocation and sweeping while an incremental mark is under way change no block layout in the marker's model; free-list
  marks, sweeping and the finalization step inside `GC_finish_collection` are not part of it.
- Dirty bits are kept per block and set by every write of the mutator (no `GC_manual_vdb`); `GC_mark_some` is atomic with
  respect to the mutator.
- MarkerObject.Marker.PushRoot: a static root area that does not fit the mark stack makes the original abort; the
  model scans it at once, as the original does with thread stacks. The original also pushes the rest of an area in one
  piece once the stack is three quarters full; the model goes on page by page.
- Objects and areas keep their sizes during a run (the unused part of a stack counts as data), and pages are not shared
  between static areas.
- The parallel branch of `GC_mark_some` is the parallel marker's model. There, sharing heuristics are arbitrary choices,
  critical sections that touch only data guarded by the mark lock are single steps, and `my_mark_no` is not resynchronized.
- `GC_incremental`, `GC_time_limit` and the other settings are constants; clocks are not part of the model, and stop functions
  answer arbitrarily.
- Headers are values at their page; failure to allocate headers, indices, scratch memory or heap section tables.
- The ages of free blocks are an arbitrary predicate `isOld`; limits on the number of unmapped regions; an OS page is a heap
  block, so that there are no gaps to unmap between merged blocks.
- The heap size is brought up to date before a new section is freed, not after, which no code in between can observe; while
  merging, the flag of the second header is kept right until the header goes away.
- The heuristics behind the split limit (`GC_should_collect`, `GC_dont_gc` and others) are given as booleans; warnings and
  their counters.
- The hash table over top-level indices and the header cache itself; black-list statistics, and `GC_unpromote_black_lists`.
- HeapBlocks.Allocator.Freehblk: the two aborts are reported by a result instead of ending the program, so that what they
  leave unchanged can be stated.
- Java-style, no-order, ignore-self and unreachable finalization, toggle-refs, and the running of finalizers. `GC_finalize` is
  atomic: the mutator, which runs again, cannot reach the objects concerned; the dirty bits it has set are taken into account.
- Table entries as heap objects (their own mark bits); the hash function is a parameter.
- Signal retries and resends, suspension from outside a collection, workarounds for single systems, wrap-around of
  `GC_stop_count`, and threads that begin or end during a round.
- The size map with fewer than ten tiny free lists (the defaults are 25 and 33).
- Platform code, logging, statistics, dumping and debugging aids.
