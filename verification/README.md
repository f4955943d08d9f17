# Verified models of the BPF map protocols in libbpf-tools

Small tracing tools keep bounded BPF hash maps in step with a stream of kernel events and later
read those maps back. This project models the parts of `libbpf-tools` where that is hard and
proves what the maps still say about the events, for every run.

| component | modules |
|---|---|
| shared: machine integers, bounded maps and the key walk, order-independent sums | `Machine`, `BpfMap`, `MapSum` |
| memleak: allocation accounting, nested allocator calls, what each probe does, the two reporters | `Memleak`, `MemleakNesting`, `MemleakProbes`, `MemleakReport` |
| klockstat: lock statistics; fentry against kprobe programs; what a call comes to | `Klockstat`, `KlockstatProbes`, `KlockstatCalls` |
| ksnoop: shadow stack, predicates, trace record, stash protocol, parser decision, member lookup, from `arg->member` to the bytes shown | `KsnoopStack`, `KsnoopPredicate`, `KsnoopTrace`, `KsnoopStash`, `KsnoopParse`, `KsnoopMember`, `KsnoopAccess` |
| concurrent map initialisation and futexctn's atomics, over any number of CPUs | `ConcurrentInit`, `Futexctn`, `FutexctnKeys`, `FutexctnWaits`, `FutexctnHandler`, `Bits` |
| path walk and printer, tar lookup, hash-map dump | `PathWalk`, `PathName`, `Tar`, `MapDump` |

## How it is built

Handlers that update maps or fields are methods of a class and are proved equal to a step function on
values; theorems over whole runs are lemmas about that function. A reference that does not mention
the code stands beside each one: a sum over live allocations, the sections of an event trace, the
real call stack, the components of a path, the list of files in an archive.

What comes from outside is a parameter: clocks, stack ids, addresses, thread ids, results of reads
from kernel memory, the order in which the kernel walks a hash map. Handlers are atomic, except in
`ConcurrentInit` and `Futexctn`, where every helper call and every atomic operation is a step of its
own and any interleaving is allowed. An entry read after it was deleted is the value it had when it
was looked up. In `MapDump` the kernel's side (class `Kernel`) is an environment model: a batch call
returns whole buckets, ENOENT at the end of the table, ENOSPC when not even one bucket fits.

## Where the code does not do what its text promises

Each has a lemma that exhibits the failure, and the exact condition beside it.

- memleak promises one record per allocation. When a size filter rejects an inner allocator call, its
  exit takes the size of the outer call (`FilteredInnerCallMisattributes`; exact condition in
  `OnlyLeavesRecordIff`).
- memleak's age filter subtracts the age from an unsigned clock and, while the clock is below it, shows
  every allocation (condition and failure in `AgeFilterIsRightIff`).
- memleak's combined reporter starts its walk from key 0. If stack id 0 exists its row is missing
  (`StackZeroIsSkipped`; exact condition in `CombinedReportCompleteIff`).
- klockstat's kprobe programs keep one lock per thread, so they miss the return of a lock call that has
  made another, and book the wait as a time subtracted from zero (`NestedCallsDiverge`; what they see in
  `ReturnFindsItsLockIff`, exact condition for the same statistics in `KprobesAgreeIffNestedUnrecorded`).
- ksnoop does not push a sixteenth frame but pops it (`SixteenthReturnIsMistaken`; exact condition in
  `ShadowIsRealIffShallow`).
- ksnoop's usage text lists six operators. The parser also takes a lone `=` or `!`, which filter
  nothing, and longer ones such as `!==`, which tests equality (`UndocumentedOperators`, with the exact set).
- ksnoop's buffer is sized for six values of full size, and its test for room drops the sixth without an
  error (`SixthBlockIsDropped`; exact condition in `ValueIsShownIff`).
- ksnoop shows an argument cut to its size but tests the whole register (`RegisterIsTestedWhole`; exact
  condition in `TestedIsShownIff`).
- ksnoop keeps each member offset in 16 bits (`FarMemberIsMisplaced`; exact condition in
  `OffsetIsExactIff`), and does not look into a const or volatile anonymous struct
  (`ConstAnonymousIsNotSearched`; exact condition in `SearchFindsMemberIff`) nor through a typedef
  (`TypedefIsNotSearched`; exact condition in `FindsIffNoTypedef`).
- futexctn tries its compare-and-swap once, so a race can lose the maximum (`RaceLosesTheMaximum`;
  exact condition for a run in `QuiescentMaxIsTrueIff`). Threads of one process race in summary mode, and
  outside it there is no race (`SummaryRace`; exact condition in `MaxAlwaysTrueIff`).
- The path walk tests an unsigned length for being negative; `failed` is never set
  (`DentryFullPath`). A mount root that is not called "/" is printed where it should not be
  (`BindMountShowsItsRoot`), a name of 255 bytes is cut (`LongNameIsCut`; exact condition for both in
  `PrintsThePathIff`), and the root directory prints as nothing (`RootPrintsAsNothing`,
  `PrintsAbsolutePathIff`). A directory more than 31 levels down uses up the slots, and its path is printed with
  a leading "/ ", the record's depth read as a string (`DeepDirectoryExhaustsSlots`, `FullPath`; exact
  condition in `ReachesIff`). And filelife gives the walk the mount of the creator's working directory: a
  file on another file system prints without its mount point (`OtherMountLosesThePrefix`; exact condition in
  `OtherMountPrintsIff` and `WholeMountPrintsIff`).
- A batch dump fails with ENOSPC when the buffer ends inside a bucket, although the buffer is as large
  as `count` says; with delete, what the first call read has left the map, and `count` does not say so
  (`StraddlingBucketFails`; exact condition in `DumpHashBatch`).

## Model

| member | source | states |
|---|---|---|
| `Memleak.Tracer.UpdateStatisticsAdd` | libbpf-tools/memleak.bpf.c:55-69 | the stack's word is created at zero if there is room and grows by the packed size modulo 2^64; no room, no change |
| `Memleak.Tracer.UpdateStatisticsDel` | libbpf-tools/memleak.bpf.c:71-88 | an existing word shrinks by the packed size modulo 2^64; a missing one stays missing |
| `Memleak.Tracer.GenAllocEnter` | libbpf-tools/memleak.bpf.c:90-107 | an accepted size replaces the thread's pending one; nothing else changes |
| `Memleak.Tracer.GenAllocExit2` | libbpf-tools/memleak.bpf.c:109-140 | the pending size is consumed; a real address gets an entry and its stack is charged |
| `Memleak.Tracer.GenFreeEnter` | libbpf-tools/memleak.bpf.c:147-166 | the entry goes and its stack is credited with the size it had |
| `Memleak.Tracer.Fire` | libbpf-tools/memleak.bpf.c:168-475 | every attached probe is a run of generic allocate, exit and free events in the code's order; what that does to the maps is in the `MemleakProbes` rows below |
| `MemleakProbes.EntryProbes` | libbpf-tools/memleak.bpf.c:90-107 | on entry the thread has its size pending exactly if it is between the two limits, sampled and there is room: the argument, for calloc the product modulo 2^64; realloc and mremap also drop the old block |
| `MemleakProbes.ExitProbes` | libbpf-tools/memleak.bpf.c:109-166 | an exit uses the pending size up and books it with the time and stack of the exit, if the block is real and there is room; posix_memalign at the address found in user memory; a free drops its block and nothing else |
| `MemleakProbes.KernelProbes` | libbpf-tools/memleak.bpf.c:323-475 | kernel allocations are entered and left at once, drop a live block first exactly with the workaround for missed frees, and a page allocation has page size times two to the order |
| `MemleakProbes.MissedFreeIsDroppedIff` | libbpf-tools/memleak.bpf.c:323-345 | a live block handed out again with a filtered size stays booked if and only if the workaround is off |
| `MemleakProbes.PosixMemalign` | libbpf-tools/memleak.bpf.c:244-273 | entry and exit book the block where the entry's pointer says it is, and the pointer is then forgotten |
| `MemleakProbes.PlainModeHasNoWords` | libbpf-tools/memleak.bpf.c:130-131 | outside combined mode no run makes a word |
| `MemleakProbes.ShiftIsProduct` | libbpf-tools/memleak.bpf.c:452 | shifting the page size is multiplication by a power of two modulo 2^64 |
| `Memleak.RecordingOwes` | libbpf-tools/memleak.bpf.c:123-132 | recording an allocation adds exactly its packed size to what live plus lost entries of its stack amount to, even when it overwrites an entry or finds `allocs` full |
| `Memleak.StepKeepsAccount` | libbpf-tools/memleak.bpf.c:55-166 | every single event keeps the account: words match live plus lost, and an uncounted stack means a full map |
| `Memleak.WordsAreLivePlusLost` | libbpf-tools/memleak.bpf.c:55-166 | over every run, each word is modulo 2^64 the packed sum of the stack's live allocations plus that of entries lost by overwrite or failed insert |
| `Memleak.UncountedMeansFullForever` | libbpf-tools/memleak.bpf.c:59-61 | a live allocation whose stack has no word means `combined_allocs` is full, and its keys are the same after any continuation |
| `Memleak.DecodingIsExactIff` | libbpf-tools/memleak.h:15-21 | the two fields read back are the outstanding bytes and count if and only if both fit now and the lost entries cancel; earlier overflow or borrow never matters |
| `Memleak.DecodingIsExactIffNothingLost` | libbpf-tools/memleak.h:15-21 | within the fields' ranges, the reading is exact if and only if nothing of the stack was lost |
| `Memleak.LiveAddressesAreReal` | libbpf-tools/memleak.bpf.c:123-128 | in every run neither 0 nor MAP_FAILED is ever a live address, and `allocs` keeps its capacity |
| `MemleakNesting.ThreadIsAlone` | libbpf-tools/memleak.bpf.c:90-140 | whatever other threads do in between, a thread's pending size and what its exits record are as if it ran alone, while `sizes` has room for it |
| `MemleakNesting.CallConsumes` | libbpf-tools/memleak.bpf.c:90-140 | for every tree of calls, with reallocations and frees in it, which exits consume which sizes, and that no size is left pending |
| `MemleakNesting.TreeChanges` | libbpf-tools/memleak.bpf.c:90-166 | the same on the maps, for a tree that runs with nothing in between |
| `MemleakNesting.AttributedIsLeavesIff` | libbpf-tools/memleak.bpf.c:90-140 | the sizes consumed are those of the accepted innermost calls, or strictly more when a filtered call inherits an outer size |
| `MemleakNesting.OnlyLeavesRecordIff` | libbpf-tools/memleak.bpf.c:90-140 | in any interleaving, exactly the accepted innermost calls record their own sizes if and only if no filtered call is the first innermost one under an accepted one |
| `MemleakNesting.NestedCallsNeverDoubleCount` | libbpf-tools/memleak.bpf.c:90-140 | in any interleaving, with all sizes accepted, an allocator calling allocators and frees is counted once per leaf call |
| `MemleakNesting.FilteredInnerCallMisattributes` | libbpf-tools/memleak.bpf.c:92-93 | an input where 64 bytes are booked for a filtered 8-byte block |
| `MemleakNesting.AllocsHoldWhatWasConsumed` | libbpf-tools/memleak.bpf.c:114-166 | while there is room, `allocs` is what all threads' exits and frees ask for, replayed in order |
| `MemleakNesting.ReallocMovesTheBlock` | libbpf-tools/memleak.bpf.c:198-210 | a realloc that calls malloc and free: the old address goes and the new block is booked once, with its own size |
| `MemleakProbes.TreeProbesRunItsEvents` | libbpf-tools/memleak.bpf.c:168-210 | firing the probes of any tree of calls in order (enter or realloc enter, the inner ones, exit, free) runs exactly the events of the tree |
| `MemleakProbes.TreeProbesBookLeaves` | libbpf-tools/memleak.bpf.c:168-210 | so with all sizes accepted those probes leave in `allocs` the innermost calls, each once, less what was freed |
| `MemleakReport.PrintOutstandingAllocs` | libbpf-tools/memleak.c:891-995 | one row per non-negative stack with an old enough allocation, with its bytes and count, no other rows, sorted by descending size |
| `MemleakReport.AgeFilterIsRightIff` | libbpf-tools/memleak.c:925 | the filter keeps exactly the allocations that are old enough if and only if the clock has reached the age asked for; before that it keeps all |
| `MemleakReport.Tabulate` | libbpf-tools/memleak.c:938-991 | adding an allocation to the table keeps one correct row per stack |
| `MemleakReport.TableIsReport` | libbpf-tools/memleak.c:942-992 | a table with distinct correct rows is the grouping of the map, each row once |
| `MemleakReport.Qsort` | libbpf-tools/memleak.c:875-889 | the first rows become a descending permutation of themselves |
| `MemleakReport.PrintOutstandingCombinedAllocs` | libbpf-tools/memleak.c:1029-1084 | the decoded words of the keys the walk visits, without negative stacks, sorted by descending size |
| `MemleakReport.CombinedRowsAre` | libbpf-tools/memleak.c:1040-1082 | a row is reported once if it decodes a visited key of a valid stack, and otherwise not at all |
| `MemleakReport.CombinedReportCompleteIff` | libbpf-tools/memleak.c:1040-1044 | every valid stack has its row if and only if key 0 is absent |
| `MemleakReport.StackZeroIsSkipped` | libbpf-tools/memleak.c:1040-1044 | a map with stack ids 0 and 5 of which only the second is reported |
| `MemleakReport.WordIsRow` | libbpf-tools/memleak.c:1063-1068 | in a run without loss or overflow the decoded word of a stack is the row the plain reporter computes for it |
| `MemleakReport.ReportsAgree` | libbpf-tools/memleak.c:891-1087 | under the same conditions, with no stack id 0 and nothing too young, both reports hold the same rows once empty stacks are dropped |
| `Klockstat.Tracer.LockContended` | libbpf-tools/klockstat.bpf.c:98-122 | a traced attempt with a valid stack gets an entry with its start time, if there is room |
| `Klockstat.Tracer.LockAborted` | libbpf-tools/klockstat.bpf.c:124-137 | the attempt's entry goes, and no statistics change |
| `Klockstat.Tracer.LockAcquired` | libbpf-tools/klockstat.bpf.c:139-167 | an existing entry gets the time and the task's current message type; none is made |
| `Klockstat.Tracer.Accumulate` | libbpf-tools/klockstat.bpf.c:200-215 | count and total grow modulo 2^64; a strictly larger time replaces the maximum with its owner, lock and message type |
| `Klockstat.Tracer.AccountHolder` | libbpf-tools/klockstat.bpf.c:169-229 | wait and hold of one holder are added to its key's entry, made fresh if there is room |
| `Klockstat.Tracer.LockReleased` | libbpf-tools/klockstat.bpf.c:231-252 | the holder is accounted with the release time and its entry goes |
| `Klockstat.Tracer.RecordTaskState` | libbpf-tools/klockstat.bpf.c:254-271 | the thread's message type or ioctl is replaced, if there is room |
| `Klockstat.Tracer.ReleaseTaskState` | libbpf-tools/klockstat.bpf.c:273-278 | the thread's message type is forgotten |
| `Klockstat.HoldersFollowTrace` | libbpf-tools/klockstat.bpf.c:98-252 | at every moment of every interleaving that follows the lock protocol from any point of it on, the entry of a (task, lock) pair is what the pair's last events in the trace determine |
| `Klockstat.ReleaseCarriesSection` | libbpf-tools/klockstat.bpf.c:231-252 | a release accounts exactly the critical section that ends there, with its own times and owner, or nothing |
| `Klockstat.StatAppend` | libbpf-tools/klockstat.bpf.c:169-229 | accounting one more section turns the statistics of a list of sections into those of the longer list |
| `Klockstat.StatsAreSectionFolds` | libbpf-tools/klockstat.bpf.c:98-252 | every entry is exactly the account of all recorded sections of its key: counts, sums, true maxima, and the identity of one section attaining each nonzero maximum |
| `Klockstat.AverageBelowMax` | libbpf-tools/klockstat.bpf.c:200-228 | while the counters do not wrap, each total is at most count times maximum |
| `Klockstat.UnshownKeyMeansFullForever` | libbpf-tools/klockstat.bpf.c:187-194 | sections without an entry mean `stat_map` is full and keeps the keys it has |
| `Klockstat.SectionTimesAreDifferences` | libbpf-tools/klockstat.bpf.c:200-217 | under a nondecreasing clock, waits and holds are the plain time differences of the section's own events |
| `Klockstat.AbortedContributesNothing` | libbpf-tools/klockstat.bpf.c:124-137 | an aborted attempt leaves no entry, changes no statistics and completes no section |
| `KlockstatProbes.Fentry` | libbpf-tools/klockstat.bpf.c:330-506 | each fentry/fexit program is its sequence of lock handlers; what a call comes to by kind and result is in the `KlockstatCalls` rows below |
| `KlockstatProbes.LockReturned` | libbpf-tools/klockstat.bpf.c:337-386 | on return: acquired, aborted, or for a try-lock contended and acquired only on success; success by the C conventions is `CallCountsIff` below |
| `KlockstatProbes.KprobeTracer.Kprobe` | libbpf-tools/klockstat.bpf.c:508-833 | the kprobe programs with the per-thread `locks` stash, which is consulted and emptied on return; `KprobeCallIsTheSame` below says what one call comes to |
| `KlockstatCalls.AttemptIsRecordedIff` | libbpf-tools/klockstat.bpf.c:86-122 | an attempt gets an entry if and only if process, thread and lock are those asked for and its stack was taken; other entries stay |
| `KlockstatCalls.EntrySurvivesIff` | libbpf-tools/klockstat.bpf.c:361-369 | the entry of an interruptible or killable call survives its return if and only if the result is 0 |
| `KlockstatCalls.CallCountsIff` | libbpf-tools/klockstat.bpf.c:330-506 | for every kind and result, call and unlock from the empty state make exactly one section, with its waiting and holding time, if the call reports success (any result, nonzero, 1, or 0, by kind), and otherwise leave no trace |
| `KlockstatCalls.KprobeCallIsTheSame` | libbpf-tools/klockstat.bpf.c:508-833 | the kprobe programs come to the same whatever lock argument the return shows, and keep nothing in `locks` |
| `KlockstatCalls.TaskStateIsTheLast` | libbpf-tools/klockstat.bpf.c:254-278 | after any run a thread has the state it was last given, unless it was cleared since |
| `KlockstatProbes.StashIsInnermostLeaves` | libbpf-tools/klockstat.bpf.c:508-833 | for every interleaving of nested calls, `locks` holds exactly the innermost calls that have called no other lock function, each thread's own |
| `KlockstatProbes.ReturnFindsItsLockIff` | libbpf-tools/klockstat.bpf.c:518-531 | a return probe finds the lock of its own call if and only if that call is a leaf, and otherwise none |
| `KlockstatProbes.KprobesSeeLeaves` | libbpf-tools/klockstat.bpf.c:508-833 | the kprobe state is that of fentry programs which miss the returns of calls that are not leaves |
| `KlockstatProbes.KprobesAgreeIff` | libbpf-tools/klockstat.bpf.c:508-833 | both kinds of programs leave the same state after every call if and only if no such return had anything to do |
| `KlockstatProbes.KprobesAgreeIffNestedUnrecorded` | libbpf-tools/klockstat.bpf.c:508-833 | for runs that follow the lock protocol, that is if and only if every call that made another lock call went unrecorded anyway |
| `KlockstatProbes.KprobesSimulateFentry` | libbpf-tools/klockstat.bpf.c:508-833 | so for every interleaving without nesting the kprobe programs simulate the fentry programs call by call, and `locks` is the calls in progress; try-lock entry is a stuttering step |
| `KlockstatProbes.KprobeStatsAreSectionFolds` | libbpf-tools/klockstat.bpf.c:508-833 | under the exact condition the kprobe programs' statistics are also those of the completed sections |
| `KlockstatProbes.NestedCallsDiverge` | libbpf-tools/klockstat.bpf.c:508-531 | two nested lock calls after which the maximal wait is 30 under fentry and 2^64 - 100 under kprobes |
| `KsnoopStack.FuncStack.OnEntry` | libbpf-tools/ksnoop.bpf.c:87-121 | the push on the array, its zeroing of the slot above, and the caller it reports |
| `KsnoopStack.FuncStack.OnReturn` | libbpf-tools/ksnoop.bpf.c:122-144 | the pop, and the function and last callee it reports |
| `KsnoopStack.ShallowRunsMirror` | libbpf-tools/ksnoop.bpf.c:87-144 | in a run of at most 15 frames the array is the real traced stack, and the slot above it the last callee that returned |
| `KsnoopStack.ShadowIsRealIffShallow` | libbpf-tools/ksnoop.bpf.c:87-144 | the shadow stack is the real one throughout a run if and only if at most 15 traced frames are ever active |
| `KsnoopStack.ProbesSeeTheTruth` | libbpf-tools/ksnoop.bpf.c:87-144 | in such a run every return reports the function that returns and its last direct traced callee, or 0; every entry its caller |
| `KsnoopStack.SixteenthReturnIsMistaken` | libbpf-tools/ksnoop.bpf.c:97-135 | from any run with 15 frames, the sixteenth call is not seen and its return is reported as its caller's |
| `KsnoopStack.TasksAreIndependent` | libbpf-tools/ksnoop.bpf.c:74-85 | in every interleaving a task's stack is the one its own operations give, and a task without one means the map is full |
| `KsnoopStack.InterleavedStacksMirror` | libbpf-tools/ksnoop.bpf.c:74-144 | so a shallow task's shadow stack is its real stack whatever other tasks do |
| `KsnoopPredicate.Value.PredicateToValue` | libbpf-tools/ksnoop.c:255-304 | which operators and value sizes are accepted, the flags added and the number stored, also on the error paths |
| `KsnoopPredicate.DocumentedOperatorsMeanThemselves` | libbpf-tools/ksnoop.bpf.c:384-407 | an operator of the usage text, compiled and then evaluated, is its unsigned comparison for all values |
| `KsnoopPredicate.UndocumentedOperators` | libbpf-tools/ksnoop.c:278-297 | which further operator strings are accepted, as an if and only if on the string, and what each filters |
| `KsnoopTrace.TraceRecord.ClearTrace` | libbpf-tools/ksnoop.bpf.c:60-65 | descriptors, flags and length are reset, and the buffer bytes stay |
| `KsnoopTrace.TraceRecord.FetchItem` | libbpf-tools/ksnoop.bpf.c:354-379 | the value and raw value of an argument, member or pointer member, or a recorded fault; which memory they come from is in the `KsnoopAccess` rows below |
| `KsnoopAccess.MemberIsReadAt` | libbpf-tools/ksnoop.bpf.c:357-428 | a member is read at the argument plus its offset modulo 2^64, for the event and for the predicate; of a pointer member the pointer is read there and the event shows what it points at; or the read faults |
| `KsnoopAccess.ArgumentIsRead` | libbpf-tools/ksnoop.bpf.c:377-428 | an argument is tested whole, and followed if it is a pointer |
| `KsnoopTrace.TraceRecord.TakeItem` | libbpf-tools/ksnoop.bpf.c:340-436 | one iteration: fault, rejection with a cleared record, full buffer, or capture |
| `KsnoopTrace.TraceRecord.CollectItems` | libbpf-tools/ksnoop.bpf.c:334-437 | the whole loop over one side's items |
| `KsnoopTrace.TraceRecord.OutputTrace` | libbpf-tools/ksnoop.bpf.c:204-230 | nothing for an empty record, stash when asked to, otherwise one event with the used part of the buffer and a cleared record |
| `KsnoopTrace.TraceRecord.Ksnoop` | libbpf-tools/ksnoop.bpf.c:305-447 | a whole probe on the record, keeping that stashed data hold nothing for the return side |
| `KsnoopTrace.ProbeHolds` | libbpf-tools/ksnoop.bpf.c:155-179 | every probe keeps the stash invariant, whatever the values |
| `KsnoopTrace.TestedIsShownIff` | libbpf-tools/ksnoop.bpf.c:354-428 | the number a predicate tests is the number shown, for scalar members always, for arguments if and only if the register fits the argument's size; a tested pointer is the address of the bytes shown |
| `KsnoopTrace.RegisterIsTestedWhole` | libbpf-tools/ksnoop.bpf.c:378 | a one-byte argument tested as 258 and shown as 2 |
| `KsnoopTrace.WordsFit` | libbpf-tools/ksnoop.bpf.c:372-375 | a value of at most eight bytes is compared in full, without wrap-around |
| `KsnoopStash.TakePacks` | libbpf-tools/ksnoop.bpf.c:414-436 | one iteration keeps captures back to back, each descriptor delimiting its own bytes inside the buffer |
| `KsnoopStash.BreakMeansLast` | libbpf-tools/ksnoop.bpf.c:414-415 | when the buffer is too full for an item, all five others have been captured |
| `KsnoopStash.LoopPacksAndDecides` | libbpf-tools/ksnoop.bpf.c:334-437 | from any packed record the loop accepts if and only if all predicates of the side hold, the break skipping none; if it accepts, the values asked for are packed in order, but for a sixth after five of full size |
| `KsnoopStash.EntryStashes` | libbpf-tools/ksnoop.bpf.c:212-216 | a stash-mode entry emits nothing and stashes exactly when its predicates hold and something was captured |
| `KsnoopStash.StashEmitsIffAllHold` | libbpf-tools/ksnoop.bpf.c:155-230 | an entry and its return emit one event, at the return, if and only if the pid filter and all predicates of both sides hold; it is marked as a return, the record is cleared, and it carries the values asked for on both sides, disjoint, contiguous and inside the buffer, but for a sixth after five of full size |
| `KsnoopStash.PackedEvent` | libbpf-tools/ksnoop.bpf.c:222-227 | the emitted bytes are the captures in recording order, their total length is `buf_len`, and never more than the full buffer |
| `KsnoopStash.PlainEmitsIffAllHold` | libbpf-tools/ksnoop.bpf.c:204-230 | outside stash mode a probe emits if and only if the pid filter and its own side's predicates hold and something was captured, marks the event with its side and clears the record; the event carries that side's values in the same way |
| `KsnoopStash.ValueIsShownIff` | libbpf-tools/ksnoop.bpf.c:414-415 | the event of a call shows a value asked for and read, delimited by its descriptor, if and only if it is not the last of six of which the others have full size |
| `KsnoopStash.PlainValueIsShownIff` | libbpf-tools/ksnoop.bpf.c:414-415 | the same for the event of one side in plain mode |
| `KsnoopStash.LoneReturnIsSilent` | libbpf-tools/ksnoop.bpf.c:155-160 | a return whose entry stashed nothing emits nothing and changes nothing |
| `KsnoopStash.PlainEventTells` | libbpf-tools/ksnoop.bpf.c:365-436 | the first five descriptors of an event flag exactly the reads that failed, and otherwise have the value tested and the size cut to 2048 |
| `KsnoopStash.SixthBlockIsDropped` | libbpf-tools/ksnoop.bpf.c:414-415 | six readable blocks of 2048 bytes, of which the event carries five |
| `KsnoopParse.DecideStash` | libbpf-tools/ksnoop.c:601-622 | stash mode is chosen if and only if there are a predicate, an entry value and a return value |
| `KsnoopParse.CallIsShownIffPredicatesHold` | libbpf-tools/ksnoop.c:614-622 | whatever arguments are given, a void return value included, with a predicate among them: one call produces exactly one event if all predicates hold as written, and none otherwise |
| `KsnoopMember.MemberToValue` | libbpf-tools/ksnoop.c:135-210 | success if and only if the search finds a member; then the offset grows by the path's offsets; on failure the value is unchanged |
| `KsnoopMember.SearchFindsFirst` | libbpf-tools/ksnoop.c:157-199 | the member found is the first in depth-first order through the unnamed members the search descends into, and none is found only if there is none |
| `KsnoopMember.SearchFindsMemberIff` | libbpf-tools/ksnoop.c:175-188 | that is the member section 6.7.2.1 of ISO C11 means if and only if no anonymous member on the way is const or volatile |
| `KsnoopMember.ConstAnonymousIsNotSearched` | libbpf-tools/ksnoop.c:175-188 | a member of a const anonymous struct that is not found |
| `KsnoopMember.FindsIffNoTypedef` | libbpf-tools/ksnoop.c:156-209 | of two types that resolve to the same struct or union, the lookup accepts exactly the one that is no typedef |
| `KsnoopMember.TypedefIsNotSearched` | libbpf-tools/ksnoop.c:110-126 | a typedef of a struct whose member is not found |
| `KsnoopMember.OffsetIsExactIff` | libbpf-tools/ksnoop.c:166-170 | the recorded offset is the true one if and only if every step of the path is below 64 KiB |
| `KsnoopMember.FarMemberIsMisplaced` | libbpf-tools/ksnoop.c:166-170 | a member at 64 KiB is recorded at offset 0 |
| `KsnoopAccess.TraceToValue` | libbpf-tools/ksnoop.c:307-340 | `arg->member` with a predicate becomes the first argument of the name, the member found at its offset, and the test asked for; refused if and only if the member is not found or the predicate does not apply |
| `KsnoopAccess.AddressIsExactIff` | libbpf-tools/ksnoop.bpf.c:357-359 | the address read is that of the member in the sense of C if and only if every step to it is below 64 KiB |
| `KsnoopAccess.EventShowsMember` | libbpf-tools/ksnoop.bpf.c:357-436 | the event shows for `arg->member` the bytes at the argument plus the offsets on the way, if and only if it is not the sixth value that is dropped |
| `Bits.Stage` | libbpf-tools/bits.bpf.h:12-15 | a stage halves the width and keeps partial result plus remaining logarithm constant |
| `Bits.Log2` | libbpf-tools/bits.bpf.h:8-19 | the branch-free form is the floor of the binary logarithm on all 32-bit values |
| `Bits.Log2l` | libbpf-tools/bits.bpf.h:21-29 | 2^r <= v < 2^(r+1) for every nonzero 64-bit v, and 0 for 0 |
| `Bits.FloorLog2Iff` | libbpf-tools/bits.bpf.h:8-29 | the result is r if and only if the value lies in the range of r |
| `Bits.OrIsSum` | libbpf-tools/bits.bpf.h:12-16 | or-ing the stages' shifts together adds them |
| `ConcurrentInit.StepMoves` | libbpf-tools/maps.bpf.h:31-39 | every step of every CPU conserves each piece of work between in flight, counted and dropped |
| `ConcurrentInit.AlwaysInvariant` | libbpf-tools/maps.bpf.h:31-39 | under every interleaving: pointers are live, entries are the sums of completed adds, drops happen only on a full map, nothing is created or lost |
| `ConcurrentInit.NoIncrementIsLost` | libbpf-tools/maps.bpf.h:31-39 | with an entry, everything begun for the key is counted or in flight; without one, all of it was dropped and the map is full |
| `ConcurrentInit.QuiescentTotals` | libbpf-tools/maps.bpf.h:31-39 | when all CPUs are done, an entry is the sum of all events of its key |
| `ConcurrentInit.EveryCallEnds` | libbpf-tools/maps.bpf.h:31-39 | from every reachable state four steps of a busy CPU end its call; with the key present or room, exactly its amount is added to its entry, and nothing else changes |
| `ConcurrentInit.EventIsCounted` | libbpf-tools/maps.bpf.h:31-39 | an idle CPU that takes an event and is left alone counts it, if there is an entry or room for one |
| `ConcurrentInit.SecondLookupSucceeds` | libbpf-tools/maps.bpf.h:35-39 | after any insert that is not refused, the second lookup finds the entry |
| `Futexctn.CountersAlwaysExact` | libbpf-tools/futexctn.bpf.c:103-117 | under every interleaving each slot, `contended` and `total_elapsed` is what the recorded waits add up to, less what is still in flight |
| `Futexctn.QuiescentCounters` | libbpf-tools/futexctn.bpf.c:112-117 | when all handlers are done the counters are the sums over the recorded waits |
| `Futexctn.ContendedIsSumOfSlots` | libbpf-tools/futexctn.bpf.c:115-116 | while no slot wraps, the slots add up to `contended` |
| `Futexctn.SlotIsRange` | libbpf-tools/futexctn.bpf.c:112-114 | a slot holds exactly one power-of-two range, the first also 0, the last the whole tail |
| `Futexctn.AlwaysLedger` | libbpf-tools/futexctn.bpf.c:121-123 | under every interleaving a nonzero `max` is a wait that settled without being beaten, and every such wait is at most `max` |
| `Futexctn.MaxAlwaysObserved` | libbpf-tools/futexctn.bpf.c:121-123 | under every interleaving `max` is 0 or an observed time that was not beaten, and covers every finished wait that was not |
| `Futexctn.MaxNeverDecreases` | libbpf-tools/futexctn.bpf.c:121-123 | no step lowers `max` |
| `Futexctn.QuiescentMaxIsLargestUnbeaten` | libbpf-tools/futexctn.bpf.c:121-123 | at rest `max` is the largest recorded wait that was not beaten |
| `Futexctn.QuiescentMaxIsTrueIff` | libbpf-tools/futexctn.bpf.c:121-123 | at rest `max` is the true maximum if and only if every positive wait is matched by an unbeaten one as long |
| `Futexctn.SecondSwapIsBeaten` | libbpf-tools/futexctn.bpf.c:121-123 | from any run with two handlers about to read `max`, a schedule that ends with the smaller time |
| `Futexctn.RaceLosesTheMaximum` | libbpf-tools/futexctn.bpf.c:103-123 | for any two positive times, a run on two CPUs from the empty map that ends with the smaller one as the maximum |
| `Futexctn.MaxIsTrueWithoutOverlap` | libbpf-tools/futexctn.bpf.c:121-123 | if handlers of one key never overlap, `max` is the true maximum |
| `FutexctnKeys.KeysAlwaysTellThreads` | libbpf-tools/futexctn.bpf.c:96-101 | outside summary mode the key of every handler in progress tells its thread |
| `FutexctnWaits.SameKeyIff` | libbpf-tools/futexctn.bpf.c:96-101 | two waits share an entry if and only if thread, lock and stack agree, in summary mode process and lock |
| `FutexctnWaits.NoWaitIsLost` | libbpf-tools/futexctn.bpf.c:103-105 | under every interleaving a wait is recorded or on its way, unless the map is full without its entry |
| `FutexctnWaits.EntryHoldsItsWaits` | libbpf-tools/futexctn.bpf.c:96-117 | at rest the counters of an entry are what all waits of its thread (or process), lock and stack add up to; a wait has no entry only if the map is full |
| `FutexctnHandler.HandlerNotes` | libbpf-tools/futexctn.bpf.c:103-123 | a handler that runs alone adds its wait to slot, count and sum of its entry, and widens minimum and maximum; on a full map it changes nothing; nobody else is touched |
| `FutexctnHandler.EveryHandlerEnds` | libbpf-tools/futexctn.bpf.c:103-123 | from every reachable state ten steps end a handler |
| `FutexctnKeys.SummaryRace` | libbpf-tools/futexctn.bpf.c:100-101 | a run of two threads of one process in summary mode that ends with the wrong maximum |
| `FutexctnKeys.MaxAlwaysTrueIff` | libbpf-tools/futexctn.bpf.c:96-123 | over all runs in which a thread is in one handler at a time, `max` is always the true maximum if and only if the tool is not in summary mode |
| `PathWalk.ReadName` | libbpf-tools/path_helpers.bpf.h:27-37 | a slot holds the name cut to its size, or is empty after a fault with the error number as an unsigned length; lower slots are untouched |
| `PathWalk.StoredIsPrefix` | libbpf-tools/path_helpers.bpf.h:27-29 | a name of up to 254 bytes is stored whole, of a longer one the first 254 |
| `PathWalk.DentryFullPath` | libbpf-tools/path_helpers.bpf.h:12-69 | the slots from a given one on hold the names along the walk across mounts, the slots below it what they held, the depth counts from 0, and `failed` is never set |
| `PathWalk.PrintSlot` | libbpf-tools/path_helpers.c:12-33 | what is printed for one slot |
| `PathWalk.PrintFullPath` | libbpf-tools/path_helpers.c:7-36 | the slots from the topmost down, and at depth MAX_PATH_DEPTH the depth field before them |
| `PathName.ReachesIff` | libbpf-tools/path_helpers.bpf.h:26-66 | the walk reaches the real root if and only if that is less than max_depth steps up; otherwise it fills all slots |
| `PathName.TruePathIsWalked` | libbpf-tools/path_helpers.bpf.h:41-65 | for an entry given with a mount that contains it, what the walk takes for the components are those of the true path, in which a mount is crossed at its own root only |
| `PathName.PathIsUnique` | libbpf-tools/path_helpers.bpf.h:41-65 | an entry has at most one absolute path through a mount |
| `PathName.PrintsThePathIff` | libbpf-tools/path_helpers.c:11-34 | for every forest and any number of mount crossings, an entry given with a mount that contains it prints as its absolute path, once the real root is reached, if and only if every mount root on the way is called "/" and every name of a component fits its slot |
| `PathName.OtherMountPrintsIff` | libbpf-tools/path_helpers.bpf.h:23-24 | an entry given with a mount that does not contain it prints as its absolute path if and only if the root of its own mount does, and no name below that is cut |
| `PathName.WholeMountPrintsIff` | libbpf-tools/filelife.bpf.c:179-184 | for a file system mounted whole, that is if and only if what is shown for the mount point of the mount given is the path of its own mount point |
| `PathName.TwoMountsAgreeIff` | libbpf-tools/path_helpers.bpf.h:45-55 | with two mounts that do not contain it, an entry is shown alike if and only if their mount points are |
| `PathName.JoinedInjective` | libbpf-tools/path_helpers.c:29-33 | different lists of names print as different paths |
| `PathName.PrintsAbsolutePathIff` | libbpf-tools/path_helpers.c:16-23 | that is the absolute path except for the root directory itself, which prints as nothing |
| `PathName.FullPath` | libbpf-tools/path_helpers.bpf.h:26-66 | walking up and printing down, end to end, for every forest and any mount: the absolute path exactly under the conditions above, and a leading "/ " when the slots ran out |
| `PathName.OpenedPath` | libbpf-tools/opensnoop.bpf.c:156-159 | a relative name below the working directory, whose topmost slot the depth leaves out: the absolute path if and only if the mount roots below the real root are called "/" and no name is cut |
| `PathName.OtherMountLosesThePrefix` | libbpf-tools/filelife.bpf.c:179-184 | the file /mnt/f, given with a mount on the root file system, prints as /f |
| `PathName.BindMountShowsItsRoot` | libbpf-tools/path_helpers.bpf.h:41-55 | a file /mnt/f in a bind mount that prints as /mnt/data/f |
| `PathName.RootPrintsAsNothing` | libbpf-tools/path_helpers.c:18-19 | the root directory prints as the empty string |
| `PathName.LongNameIsCut` | libbpf-tools/path_helpers.bpf.h:27-29 | a file with a name of 255 bytes that does not print as its path |
| `PathName.DeepDirectoryExhaustsSlots` | libbpf-tools/path_helpers.bpf.h:26-66 | any directory 32 or more levels down ends the walk without the root |
| `Tar.OctalRoundTrip` | libbpf-tools/btf_helpers.c:157 | a size written in octal is read back |
| `Tar.SizeReads` | libbpf-tools/btf_helpers.c:157 | scanning the size field of any member's header gives the length of its data |
| `Tar.NameReads` | libbpf-tools/btf_helpers.c:158 | the name field compares equal to a name if and only if it is the member's |
| `Tar.HeaderParts` | libbpf-tools/btf_helpers.c:134-152 | where name and size are in an encoded header |
| `Tar.AtMember` | libbpf-tools/btf_helpers.c:156-160 | at every member: not the end, its size, its name, and the next header after whole blocks |
| `Tar.DataFollowsHeader` | libbpf-tools/btf_helpers.c:159 | the bytes after a member's header are its data |
| `Tar.TarFileStart` | libbpf-tools/btf_helpers.c:154-163 | for every list of files, however padded at the end, the loop ends with the data and length of the first member of the name, or None if and only if there is none |
| `MapDump.CollectKeys` | libbpf-tools/map_helpers.c:23-35 | the keys collected are the next `count` of the walk, or all that are left |
| `MapDump.ReadValues` | libbpf-tools/map_helpers.c:37-48 | every collected key gets its value and, with delete, exactly those entries leave the map |
| `MapDump.DumpHashIter` | libbpf-tools/map_helpers.c:14-52 | the entries after the start key, min(count, what is left) of them, in order, and the rest of the map untouched |
| `MapDump.FirstCall` | libbpf-tools/map_helpers.c:63-81 | what the first batch reads and leaves, and that a buffer ending inside a bucket means less than was asked for |
| `MapDump.DumpHashBatch` | libbpf-tools/map_helpers.c:54-85 | success if and only if the buffer holds the whole map or ends on a bucket boundary; then the same first entries as the key walk; otherwise ENOSPC with a proper part read |
| `MapDump.Dumper.DumpHash` | libbpf-tools/map_helpers.c:87-120 | either way the buffers hold consecutive entries and delete removes just those; EINVAL turns batches off for good and falls back with the original count; missing buffers or start key are EINVAL |
| `MapDump.AbsentKeyStartsAtFirst` | libbpf-tools/map_helpers.c:23-26 | the walk starts at the first entry, as batches do, if and only if the start key is not in the map |
| `MapDump.DumpSplitsTheMap` | libbpf-tools/map_helpers.c:37-48 | a deleting dump splits the prior map into what was dumped and what is left, with no key in common, and empties it if and only if the count sufficed |
| `MapDump.StraddlingBucketFails` | libbpf-tools/map_helpers.c:63-81 | three entries in two buckets and a count of two: one entry read, then failure |

## Left out

- `trace_all` printing in memleak.
- Reporting of top-N, addresses (`show_allocs`), and counts of missing or colliding stacks in memleak, which only add output.
- The report loops see a map that does not change; a lookup that fails between get-next-key and read is not modelled, in memleak's reporters or in the dumps.
- MemleakReport.Qsort: an insertion sort stands for the C library's sort, of which only order and permutation are used.
- klockstat's `_nested` lock probes, which have the same kinds as those modelled; reads of the netlink and ioctl arguments are inputs.
- User space's printing and resetting of `stat_map` and `hists`.
- klockstat's handlers are atomic: two CPUs updating one `stat_map` maximum at once are not modelled.
- ksnoop's stack mode (`prev_ip`, `next_ip`, `output_stashed_traces`), and tasks while more than 15 traced frames are active beyond what the two lemmas on the sixteenth frame say.
- KsnoopStack.TasksAreIndependent: the stacks of many tasks are values in a map; the array in place is modelled for one task (`FuncStack`).
- ksnoop's tokenising of the command line, symbol and type loading; type resolution is summarised as a pointer flag and a size.
- KsnoopMember.OffsetIsExactIff: members start at a byte; of a bit field only the byte offset is modelled.
- In ksnoop's records, error numbers are a flag and flag words are booleans; a failed read of a plain member compares as zero.
- futexctn's `start` map and the filtering before line 96; `min` under interleavings, where 0 means unset (for one handler see `HandlerNotes`); the `comm` field.
- PathName.FullPath: a walk that stops at an unreadable name is described by what it prints, but not compared with a path; the fields after the slots are read as on a little-endian machine.
- PathName.OpenedPath: the relative name fits its slot, and one that starts with a slash is printed as it is.
- Tar.TarFileStart: names of up to 99 characters without the ustar prefix field, sizes up to 2^31 - 512 as `int` arithmetic needs; leading blanks in a size field, which ustar does not write.
- MapDump.Dumper.DumpHash: null `count` and zero key or value sizes, which are further EINVAL cases; keys and values are 64-bit numbers rather than byte strings.
- Argument parsing, attaching, event loops and printing of every tool, and the other tools of the repository: the same start-and-finish pattern with one map, easier than what is here.
