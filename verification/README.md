# Verified model of crash-python's readers of kernel memory

crash-python reads kernel data structures out of a crash dump. The dump is finite and
may be corrupt, so the code that matters walks links, indices and bitmaps it cannot
trust. This project models that code in Dafny and proves what it does on every memory,
every run, every input.

Memory is a finite map; reading what is not in it is the error gdb raises. Loops and
updated objects of the source are methods and classes here, each tied by its contract to
a specification that is written independently of the loop; the theorems are about those
specifications.

| module | source | main results |
|---|---|---|
| ListWalk | crash/types/list.py | the walk ends on every memory; how it ends and what it yields, in both cycle-detection modes and both directions |
| Callback, CallbackSafety, CallbackOutcome, CallbackEngine, CallbackPause | crash/infra/callback.py | what every run of the callback engine keeps; what each event does to each callback; a pause around loads changes nothing |
| DPath | crash/subsystem/filesystem/mount.py | termination, what the path is from the raw fields, exactly when different positions have different paths |
| Slub, Slab, SlabReport | crash/types/slab.py | freelists rebuilt without complaint are exactly the healthy ones; object accounting; the grouped report says what each stretch of slabs is |
| Percpu | crash/types/percpu.py | both area-map encodings decode to the maximal used runs; what the lookup means |
| Printk | crash/subsystem/printk/lockless_ringbuffer.py | the reader stops on any ring and shows the maximal run |
| Bitmap, BitmapScan | crash/types/bitmap.py | the binary searches and scans find the right bit, and exactly when `find_next_*` does not |
| RbTree | crash/types/rbtree.py | the stackless walk is the recursive post-order |
| OffsetOf | crash/util/__init__.py | member resolution is first match in the flattened type; paths compose; container_of inverts |
| Collections | | options, sequences without repeats, set sizes |

`dafny verify dfyconfig.toml` checks everything.

## Where the code falls short of its documentation

Each of these is modelled as the code has it.  A concrete input shows the failure, and a
condition is proved that holds if and only if the promise is kept.

- `list_for_each` without `exact_cycles` reports a cycle on a list that does return to its
  head exactly when the back link of the list's first node is wrong
  (`ListWalk.FirstBackLinkAlarm`, `ListWalk.CycleReports`).
- `find_next_set_bit` and `find_next_zero_bit` miss the next bit exactly when the words
  from the starting word up to some later one hold no candidate and that later one has a
  candidate below the offset of `start` in its word (`BitmapScan.MissedBit`,
  `BitmapScan.NextIsRightIff`).
- `d_path` gives a dentry that is its own parent, but not the root of its mount, the path
  of the mount's root (`DPath.DisconnectedDentry`); paths of uncovered positions are unique
  in a name space exactly when none of their climbs leaves a mount elsewhere than through
  its root (`DPath.UniqueIff`).
- `first_seq` of the printk reader says it tries the tail slot and the next one; its loop
  runs once. It finds what it documents exactly when the tail slot is finalized or reusable
  or the next slot is neither (`Printk.FirstSeqAsDocumented`). Otherwise nothing is shown,
  and what is lost is every finalized record of the valid run that starts at the next slot
  (`Printk.ShownAsDocumented`, `Printk.TailMoving`).
- The per-cpu lookup keeps the intervals gathered before a failed read. Later calls answer
  from them: they never say "dynamic" wrongly, and they miss exactly the used addresses that
  only lie in intervals not gathered (`Percpu.LateAnswers`, `Percpu.ForgottenChunk`).

Pausing the callback engine is invisible for callbacks that register a fixed set of others
when their code first runs, whether they accept or decline. It is not for one that registers
a new callback each time (`CallbackPause.PauseIsVisible`).

## Model

| member | source | states |
|---|---|---|
| ListWalk.ListForEach | crash/types/list.py:23-141 | for every memory, direction and mode: the exception (or none) that ends the walk is the one `ListOutcome` reads off the orbit of the head, and the nodes yielded are the orbit in order |
| ListWalk.VerdictMeaning | crash/types/list.py:49-141 | each way a walk can end, as an iff on the links: a NULL pointer, an unreadable address, links that go on for ever, a ring with or without a wrong back link |
| ListWalk.FalseAlarmMeaning | crash/types/list.py:93-126 | tortoise-and-hare mode reports a cycle on a ring iff the node after the head does not point back to it |
| ListWalk.Walk | crash/types/list.py:76-141 | the loop terminates on every finite memory; in visited-set mode, and in tortoise-and-hare mode outside cycles, it yields the whole simple stretch of the orbit; it raises ListCycleError by itself only for a cycle or for a ring whose first back link is broken |
| ListWalk.Inspect | crash/types/list.py:92-130 | one visit keeps the invariant that fixes hare and tortoise as positions 2i-k and i of the orbit, or has found a cycle, or the end |
| ListWalk.AdvanceHare | crash/types/list.py:118-130 | two steps of the hare, met or turned off at an unreadable link |
| ListWalk.HareCatches | crash/types/list.py:118-126 | on a walk into a cycle the hare has met the tortoise within twice the simple stretch |
| ListWalk.CycleEntryBroken | crash/types/list.py:93-104 | a walk into a cycle meets a wrong back link before it revisits a node, so the hunt has been started |
| ListWalk.YieldsOnce | crash/types/list.py:86-137 | no walk yields more than twice as many nodes as memory holds; outside tortoise-and-hare mode on a cycle no node is yielded twice, nor the head |
| ListWalk.CycleReports | crash/types/list.py:87-126 | on readable memory without NULL links, visited-set mode reports a cycle iff the list never returns to its head; the other mode iff that or the first node's back link is wrong |
| ListWalk.FirstBackLinkAlarm | crash/types/list.py:103-126 | a one-node ring with a wrong back link is a cycle to one mode and a broken link to the other |
| ListWalk.ReverseWalk | crash/types/list.py:64-68 | after an error-free forward walk, the reverse walk is error-free and yields the reverse iff the head's prev is the last node |
| CallbackSafety.EveryRun | crash/infra/callback.py:59-148 | after every sequence of events: pending is duplicate-free and exactly the connected, uncompleted callbacks; the wait list is exactly those of them still waiting; nothing is invoked or completed after its completion and `complete` never raises |
| CallbackSafety.EvaluateOk | crash/infra/callback.py:139-148 | evaluating a callback, with all it registers while it runs, keeps the invariant at any point of a pass and touches no other known callback |
| CallbackSafety.ConnectOk | crash/infra/callback.py:91-117 | connecting keeps the invariant and only appends to the lists |
| CallbackSafety.EvaluatePendingOk | crash/infra/callback.py:67-72 | the loop over a pending list that grows while it is walked keeps the invariant |
| CallbackSafety.DrainOk | crash/infra/callback.py:59-65 | the loop of target_ready leaves nobody waiting on the wait list |
| CallbackSafety.StepOk | crash/infra/callback.py:41-148 | every event, including one objfile event that runs a pass per constructed object, restores exact lists |
| CallbackOutcome.TargetOutcome | crash/infra/callback.py:59-65 | when the target becomes ready, everybody on the wait list is evaluated once with its answer; who accepts completes, who does not stays pending and waits no longer; nothing happens to the others |
| CallbackOutcome.TargetCompletes | crash/infra/callback.py:59-89 | of those on the wait list exactly the accepting complete and exactly the ready are invoked |
| CallbackOutcome.PassOutcome | crash/infra/callback.py:67-72 | one pass evaluates every pending callback that does not wait once, and touches no other known one |
| CallbackOutcome.NobodyLeft | crash/infra/callback.py:67-72 | after a pass nobody pending would have accepted in it, newcomers of the pass included |
| CallbackOutcome.UnpauseOutcome | crash/infra/callback.py:78-81 | the unpause makes one such pass |
| CallbackOutcome.ObjfileOutcome | crash/infra/callback.py:49-57 | at a new objfile a pending callback is evaluated in each pass until it accepts, and completes iff it accepts in one; paused, nothing happens |
| CallbackOutcome.ConnectOutcome | crash/infra/callback.py:91-117 | connecting evaluates at once iff something is loaded and the callback need not wait; unless it completes it is pending, and on the wait list iff it waits; connected and completed ones are left alone |
| CallbackOutcome.RegisterOutcome | crash/infra/callback.py:91-117 | a callback constructed and connected by another one's code fares likewise |
| CallbackOutcome.EvaluateOutcome | crash/infra/callback.py:139-148 | one evaluation leaves nothing, one invocation, or an invocation and a completion in the history |
| CallbackEngine.Engine.constructor | crash/infra/callback.py:36-39 | the class starts in the state machine's initial state |
| CallbackEngine.Engine.UpdatePending | crash/infra/callback.py:119-121 | drops disconnected callbacks from pending, in order |
| CallbackEngine.Engine.Complete | crash/infra/callback.py:123-137 | completes and disconnects, or raises on a completed callback |
| CallbackEngine.Engine.Evaluate | crash/infra/callback.py:139-148 | the in-place method has the effect of the state-machine function |
| CallbackEngine.Engine.ConnectCallback | crash/infra/callback.py:91-117 | likewise; raises iff the callback had completed |
| CallbackEngine.Engine.EvaluateAll | crash/infra/callback.py:67-72 | likewise, over a list that grows under the loop |
| CallbackEngine.Engine.TargetReady | crash/infra/callback.py:59-65 | likewise |
| CallbackEngine.Engine.NewObjfile | crash/infra/callback.py:44-57 | one pass per constructed object, since each has hooked itself to the event |
| CallbackEngine.Engine.Unpause | crash/infra/callback.py:78-81 | clears the switch and runs one pass |
| CallbackEngine.Engine.Handle | crash/infra/callback.py:36-148 | any sequence of events has the state machine's effect and leaves exact lists |
| CallbackPause.PauseIsInvisible | crash/infra/callback.py:67-81 | if readiness and acceptance are monotone, pausing around any series of loads completes exactly the callbacks the unpaused run completes, leaves every flag the same, and still does after any further loads; callbacks may register others, accepting or declining |
| CallbackPause.PauseKeepsLists | crash/infra/callback.py:67-81 | the pending list and the wait list then hold the same callbacks, each once |
| CallbackPause.PauseIsVisible | crash/infra/callback.py:67-81 | a ready, never accepting callback that registers a new one each time it runs: the completed sets with and without a pause differ |
| CallbackPause.ClosureInStages | crash/infra/callback.py:139-148 | evaluating a forest of callbacks early and then what is left late completes the same as evaluating it late |
| CallbackPause.RegisterForest | crash/infra/callback.py:91-148 | registering callbacks that register callbacks, accepting or declining, completes their closure and leaves their front pending, in order |
| CallbackPause.VisitAll | crash/infra/callback.py:67-72 | a pass over a pending forest completes its closure and leaves pending those that complete the same at every later time |
| CallbackPause.PassTimes | crash/infra/callback.py:49-57 | any number of passes at one event is as good as one |
| CallbackPause.SameFlags | crash/infra/callback.py:91-148 | who was constructed and who completed settles every flag |
| DPath.DPath | crash/subsystem/filesystem/mount.py:268-289 | terminates under (mount rank, dentry rank); the result is the names met on the way up by the fields of mounts and dentries, "/" if there are none, also when the way ends outside the namespace root, or the read error |
| DPath.PathMeaning | crash/subsystem/filesystem/mount.py:272-289 | the recursive path is that, for every way up |
| DPath.NotAvailableIff | crash/subsystem/filesystem/mount.py:272-286 | reading fails iff the way up comes to a mount or dentry that cannot be read |
| DPath.OneWayUp | crash/subsystem/filesystem/mount.py:272-286 | there is one way up from a position |
| DPath.SpellingOfClimb | crash/subsystem/filesystem/mount.py:272-286 | the path of a position that climbs to the namespace root is the names met, each after a slash; jumps to mountpoints add nothing |
| DPath.PathsAreUnique | crash/subsystem/filesystem/mount.py:268-289 | with proper sibling names and one mount per mountpoint, positions with clear climbs and equal paths are equal |
| DPath.UniqueIff | crash/subsystem/filesystem/mount.py:268-289 | with proper sibling names and one mount per mountpoint, uncovered positions never share a path iff every uncovered climb leaves mounts through their roots |
| DPath.SharedPath | crash/subsystem/filesystem/mount.py:274-282 | from a climb that leaves a mount elsewhere, two different uncovered positions with the same path |
| DPath.Surface | crash/subsystem/filesystem/mount.py:274-281 | through the mounts stacked on it, a position extends down to an uncovered one with the same path |
| DPath.SameBelow | crash/subsystem/filesystem/mount.py:274-286 | two clear climbs through one position with the same names below it are the same below it |
| DPath.JoinInjective | crash/subsystem/filesystem/mount.py:285-285 | a path of non-empty slash-free names can be taken apart in one way |
| DPath.DisconnectedDentry | crash/subsystem/filesystem/mount.py:274-282 | a name space with proper names, roots called "/" as in Linux, and two different uncovered positions with one path, one climb leaving a mount through a dentry that is its own parent |
| Slub.SlabSLUB.PopulateFree | crash/types/slab.py:532-559 | ends on every memory; `free` is what was walked, up to NULL, the slab's number of objects or an unreadable link; no error and no fault iff the freelist is a NULL-terminated chain of distinct objects, as many as objects - inuse, none held by a cpu |
| Slub.SlabSLUB.GetAllocatedObjects | crash/types/slab.py:596-625 | ascending, exactly the objects neither free nor held by a cpu; after a clean walk inside the slab, nr_inuse less those a cpu holds |
| Slub.SlabSLUB.Follow | crash/types/slab.py:542-555 | the bounded walk and the three ways it stops |
| Slub.TerminatedDistinct | crash/types/slab.py:542-555 | a freelist that reaches NULL meets no object twice |
| Slub.EndedAtNull | crash/types/slab.py:557-559 | the count of distinct objects settles whether the list is healthy |
| Slub.EndedShort | crash/types/slab.py:544-546 | a list longer than the slab, or with an unreadable link, is never healthy |
| Slab.SlabSLAB.AddFree | crash/types/slab.py:307-320 | accepts exactly new indices inside the slab, and flags every other |
| Slab.SlabSLAB.PopulateFromBufctl | crash/types/slab.py:340-347 | reads only the slab's entries, ends on every contents; `free` is what was walked; raises iff the entries lead to an object whose entry cannot be read; no error iff they lead through objects of the slab to BUFCTL_END |
| Slab.OneWalk | crash/types/slab.py:340-347 | the walk stops in one place only, so `free` is settled |
| Slab.SlabSLAB.PopulateFromPage | crash/types/slab.py:323-328 | `free` is the in-range ones of the readable entries from nr_inuse on; no error iff they are all in range and distinct, and then there are that many; raises iff some entry cannot be read |
| Slab.EndedDistinct | crash/types/slab.py:342-347 | entries that come to an end, BUFCTL_END or other, meet no index twice |
| Slab.WalkEnded | crash/types/slab.py:342-347 | where the entries come to an end decides between a good list, a bad index and a failed read |
| Slab.FindObjIsSlot | crash/types/slab.py:349-360 | an address is resolved to object i iff it lies in the i-th slot, with SLUB's left padding as well |
| Slab.FindObjMeaning | crash/types/slab.py:349-360 | an address is resolved iff it lies between the first object and the end of the last, to the start of its slot |
| Slab.MisplacedMeaning | crash/types/slab.py:450-458 | a slab is on the wrong list iff that is the free list and not all objects are free, the full list and some are, or the partial list and none or all are |
| Slab.SlabSLAB.Check | crash/types/slab.py:416-500 | flags an error iff one of the outside checks does, the slab is on the wrong list, the counts do not add up, or an object is both free and cached |
| Slab.SlabSLAB.CheckObjects | crash/types/slab.py:466-500 | the per-object part of that |
| Slab.SlabSLAB.GetAllocatedObjects | crash/types/slab.py:402-414 | ascending, exactly the objects neither free nor cached; after a clean check nr_inuse less the cached ones, and the three kinds make up the grid |
| Slab.Accounting | crash/types/slab.py:370-414 | free, cached and allocated objects partition the grid with those sizes |
| SlabReport.CheckSlabs | crash/types/slab.py:984-1025 | the lines printed are those of the maximal stretches of good and of misplaced slabs, in order; reported counts add up to the good and to the misplaced slabs |
| SlabReport.ReportsReadOff | crash/types/slab.py:947-1023 | each stretch has its line or lines: length, first and last address, or first and last note |
| SlabReport.RangeStart | crash/types/slab.py:967-972 | with no slab at address 0, a range runs from the address of its first slab to that of its last |
| SlabReport.CheckedMeaning | crash/types/slab.py:1003-1009 | slabs whose check raised leave no trace, the others keep their order |
| SlabReport.Tally.Note | crash/types/slab.py:947-982 | the counters describe the run in progress, never two kinds at once |
| SlabReport.Tally.Flush | crash/types/slab.py:1013-1023 | the run that is open at the end is printed |
| SlabReport.ReportsAddUp | crash/types/slab.py:963-1023 | reported counts sum to the slabs found, for both kinds |
| SlabReport.RunCloses | crash/types/slab.py:955-974 | a run that cannot be extended is reported by itself |
| Percpu.DecodesUsedRuns | crash/types/percpu.py:104-159 | either encoding, under whichever decoder the heuristic picks, decodes to the maximal runs of used areas |
| Percpu.RunsAreMaximal | crash/types/percpu.py:133-159 | those runs are non-empty, ascending, never touching, and cover exactly the used offsets |
| Percpu.NoneUsed | crash/types/percpu.py:125-131 | a signed-length map with no used area, misread as offsets, gives the right empty result |
| Percpu.PerCPUState.AddAreaMap | crash/types/percpu.py:104-159 | appends the decoded intervals shifted by the chunk base; if a read fails, those complete by then |
| Percpu.PerCPUState.AddLengths | crash/types/percpu.py:133-145 | the signed-length loop, up to a failing read |
| Percpu.PerCPUState.AddOffsets | crash/types/percpu.py:146-159 | the offset loop and its sentry |
| Percpu.PerCPUState.SetupCache | crash/types/percpu.py:168-178 | the cache becomes the intervals of all chunks, or of those up to the first read that fails |
| Percpu.PerCPUState.IsDynamic | crash/types/percpu.py:180-193 | raises iff the cache is empty and a chunk cannot be read; otherwise the answer is whether some gathered interval contains the address, also after an earlier call that raised |
| Percpu.LookupMeaning | crash/types/percpu.py:180-193 | that is whether the address lies in a used area of some chunk |
| Percpu.LateAnswers | crash/types/percpu.py:180-193 | after a failed set-up, later calls miss exactly the used addresses that only lie in intervals not gathered |
| Percpu.ForgottenChunk | crash/types/percpu.py:180-193 | two chunks, the second unreadable: the first call raises, later ones deny a used address |
| Percpu.DecodePart | crash/types/percpu.py:104-159 | what is decoded of a partly readable chunk is a prefix of what there is to decode |
| Printk.ShowLog | crash/subsystem/printk/lockless_ringbuffer.py:190-260 | stops on any contents after at most 2^count_bits records; there is a start iff the tail slot's signed word is negative; shown, ascending, are the numbers from the start's on up to which every record is stored and whose own word is below -2^62 |
| Printk.StateOfWord | crash/subsystem/printk/lockless_ringbuffer.py:84-102 | as signed 64-bit words, finalized are those below -2^62 and reusable the other negative ones |
| Printk.LogInWords | crash/subsystem/printk/lockless_ringbuffer.py:155-188 | the log in terms of the ring's words alone |
| Printk.FirstSeqAsDocumented | crash/subsystem/printk/lockless_ringbuffer.py:190-212 | first_seq finds what it documents iff the tail slot is finalized or reusable, or the next slot is neither |
| Printk.ShownAsDocumented | crash/subsystem/printk/lockless_ringbuffer.py:190-260 | the log shown differs from the documented one iff that fails and the run from the next slot has a finalized record; then nothing is shown and all of those are lost |
| Printk.TailMoving | crash/subsystem/printk/lockless_ringbuffer.py:198-212 | a ring whose tail slot is reserved and whose next slot is finalized: the reader gives up, the documented one shows a record |
| Printk.RunUnique | crash/subsystem/printk/lockless_ringbuffer.py:240-260 | a maximal valid run from a sequence number has one length, so the log is determined by where it starts |
| Printk.FinalizedInMeaning | crash/subsystem/printk/lockless_ringbuffer.py:245-260 | shown are exactly the finalized sequence numbers of the run, ascending |
| Printk.RunFits | crash/subsystem/printk/lockless_ringbuffer.py:155-188 | no run of valid records is longer than the ring |
| Printk.SlotsDistinct | crash/subsystem/printk/lockless_ringbuffer.py:155-157 | a run visits no slot twice |
| Printk.FullRing | crash/subsystem/printk/lockless_ringbuffer.py:240-260 | a ring full of consecutive valid records is visited whole |
| Bitmap.FirstSetBitOfWord | crash/types/bitmap.py:83-113 | one more than the lowest set bit, 0 for a zero word |
| Bitmap.LastSetBitOfWord | crash/types/bitmap.py:260-290 | one more than the highest set bit, 0 for a zero word |
| Bitmap.MaskedBits | crash/types/bitmap.py:156-157 | masking with ~((1 << n) - 1) keeps exactly the bits from n on |
| BitmapScan.ForEachSetBit | crash/types/bitmap.py:57-81 | exactly the set positions below the size, strictly increasing |
| BitmapScan.FindNext | crash/types/bitmap.py:115-239 | IndexError iff start is beyond the size in bytes; else one more than the least candidate that the scan of the whole words in it looks at |
| BitmapScan.NextIsRightIff | crash/types/bitmap.py:151-165 | that is the least candidate at or after start iff no bit is missed |
| BitmapScan.NothingMissed | crash/types/bitmap.py:223-237 | none is from a word boundary on, nor when the starting word has a candidate |
| BitmapScan.MissedBit | crash/types/bitmap.py:223-237 | an input on which the next bit is missed |
| BitmapScan.FindFirstSetBit | crash/types/bitmap.py:241-258 | one more than the least set position, 0 if none |
| BitmapScan.FindFirstZeroBit | crash/types/bitmap.py:169-186 | one more than the least position not set, 0 if all are set |
| BitmapScan.FindLastSetBit | crash/types/bitmap.py:309-324 | one more than the greatest set position, 0 if none |
| BitmapScan.EndsOfListing | crash/types/bitmap.py:40-324 | first and last set bit are the ends of the listing |
| RbTree.PostorderForEach | crash/types/rbtree.py:49-81 | on memory that holds a tree the walk ends and yields its recursive post-order; a NULL root is an error |
| RbTree.NextPostorder | crash/types/rbtree.py:38-47 | from position i of the post-order to position i+1, or None at the root |
| RbTree.LeftDeepest | crash/types/rbtree.py:20-29 | the first node of the post-order, None for an empty tree |
| RbTree.Successor | crash/types/rbtree.py:42-47 | after a left child with a sibling comes the sibling's subtree, after any other node its parent |
| RbTree.TreeUnique | crash/types/rbtree.py:20-81 | memory holds at most one tree at an address |
| RbTree.ColorCleared | crash/types/rbtree.py:31-36 | a parent word stands for an address iff that is aligned and the word is it plus a colour |
| RbTree.ColorsIgnored | crash/types/rbtree.py:31-36 | the colour bits do not matter |
| OffsetOf.OffsetOfPath | crash/util/__init__.py:185-217 | the result is the sum of the first-match offsets along the path and the type at its end, or what the first component that is not found gives |
| OffsetOf.PathLeads | crash/util/__init__.py:190-217 | the recursive definition is that sum |
| OffsetOf.LeadsOnce | crash/util/__init__.py:190-217 | and the members settle it |
| OffsetOf.OneComponent | crash/util/__init__.py:195-215 | one component alone is the first match, no component the type itself |
| OffsetOf.SplitMeaning | crash/util/__init__.py:190-190 | the parts of a specification have no dots and put together again give it back |
| OffsetOf.MemberLiesAbove | crash/util/__init__.py:52-78 | a member lies above its object by its offset, and the container below by as much, once round the address space if need be |
| OffsetOf.FindMember | crash/util/__init__.py:192-213 | likewise for one component |
| OffsetOf.MemberIsFirstMatch | crash/util/__init__.py:195-213 | one component resolves to the first match in the depth-first flattened members, for every type |
| OffsetOf.MemberFoundIff | crash/util/__init__.py:195-213 | if unnamed members are structs or unions, a name is found iff some flattened member has it |
| OffsetOf.PathsCompose | crash/util/__init__.py:190-217 | offset(T, p.q) = offset(T, p) + offset(type of p, q), errors included |
| OffsetOf.SpecsCompose | crash/util/__init__.py:190-217 | the same for dotted specifications as written |
| OffsetOf.ContainerOfInverts | crash/util/__init__.py:52-78 | container_of and taking the member's address are inverse, modulo the address space |

## Left out

- gdb types, `types.override`, argument type errors and message texts: they do not change what is walked.
- Reads that fail for part of a structure: a structure is readable as a whole or not at all, and address 0 never is.
- list_for_each: printing of broken links, and what a consumer of the generator does between yields.
- Callbacks that raise anything but gdb.error, that connect or complete themselves while they run, or that re-enter evaluate_all or target_ready: they are not runs of the model, and with them the lists do not stay exact.
- A pass that never ends because callbacks keep registering callbacks is not a run; `Replies` are finite.
- CallbackPause.PauseIsInvisible: callbacks that register a fixed set of others when their code first runs; for one that registers anew each time it is false (CallbackPause.PauseIsVisible).
- Callbacks that connect an object that was constructed but left unconnected earlier: in the model a callback connects only objects it constructs, and naming an existing one does nothing.
- RbTree.PostorderForEach: only memory that holds a tree, each node once; on cyclic or shared links the source loops or reads garbage.
- DPath.DPath: only finite parent chains; on a cycle of parents the source does not end. The older kernels' separate `struct vfsmount` addressing is one object here.
- Percpu: static and module ranges, pointer resolution, and the bitmap chunks of newer kernels (one interval per chunk).
- Slab: filling of the array caches, NUMA and page look-ups, and the off-slab descriptor enter `Check` as given results. A second attempt at filling the free set, after a read failed in the first, is not modelled.
- SLUB: per-cpu and per-node slab lists and the printed listing.
- Printk: text, timestamps and level of a shown record.
- Commands, kernel and module loading, symbol look-up, storage and file-system accessors: tables, casts and calls into gdb that would add only easy members.
